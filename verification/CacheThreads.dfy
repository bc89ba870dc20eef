/** `get_or_load` called from worker threads.

    One call is a locked lookup, an unlocked validate-and-load, a locked install-or-adopt,
    and the unload callbacks, which run one by one after the lock is released. Each of these
    is one step here, and steps of different threads interleave freely. */
module CacheThreads {
  import opened Recency
  import opened LruCache

  /** Where a thread stands inside a call. `Idle` also covers "no call in progress". */
  datatype Thread =
    | Idle
    | Missed(key: Key)
    | Loaded(key: Key, model: Model)
    | Unloading(pending: seq<Model>)

  /** What the lock serialises: a call obtains its model, or an entry is pushed out. */
  datatype Event = Got(key: Key, model: Model) | Evicted(key: Key, entry: Entry)

  /** `allow` gives each provider's allow-list; an empty one disables the check.
      `unloaded` lists unloader calls; `released` the evicted models without an unloader;
      `discarded` the models of loaders that lost an install race. */
  datatype World = World(
    maxSize: nat,
    allow: map<string, set<string>>,
    entries: Entries,
    threads: seq<Thread>,
    next: Model,
    log: seq<Event>,
    unloaded: seq<Model>,
    released: seq<Model>,
    discarded: seq<Model>)

  datatype Action =
    | Lookup(t: nat, key: Key)
    | Fail(t: nat)
    | Load(t: nat)
    | Install(t: nat, hasUnloader: bool)
    | Unload(t: nat)

  /** `_validate_model` */
  predicate Allowed(allow: map<string, set<string>>, k: Key) {
    k.provider in allow && allow[k.provider] != {} ==> k.modelId in allow[k.provider]
  }

  predicate Enabled(w: World, a: Action) {
    a.t < |w.threads| &&
    match a
    case Lookup(t, _) => w.threads[t].Idle?
    case Fail(t) => w.threads[t].Missed?
    case Load(t) => w.threads[t].Missed? && Allowed(w.allow, w.threads[t].key)
    case Install(t, _) => w.threads[t].Loaded?
    case Unload(t) => w.threads[t].Unloading?
  }

  function Start(maxSize: nat, allow: map<string, set<string>>, threads: nat): World {
    World(maxSize, allow, EMPTY, seq(threads, _ => Idle), 0, [], [], [], [])
  }

  /** Every entry listed by `order` has a row in the table. */
  predicate Tabled(w: World) {
    forall k | k in w.entries.order :: k in w.entries.table
  }

  function DoInstall(w: World, t: nat, k: Key, m: Model, hasUnloader: bool): World
    requires t < |w.threads| && Tabled(w)
  {
    if k in w.entries.table then
      w.(entries := MoveToEnd(w.entries, k),
         threads := w.threads[t := Idle],
         log := w.log + [Got(k, w.entries.table[k].model)],
         discarded := w.discarded + [m])
    else
      var entry := Entry(m, hasUnloader);
      var evicted := EvictedBy(w.entries, k, entry, w.maxSize);
      var pending := Unloadable(evicted);
      w.(entries := Installed(w.entries, k, entry, w.maxSize),
         threads := w.threads[t := ToUnload(pending)],
         log := w.log + [Got(k, m)] + EvictionEvents(w.entries, evicted),
         released := w.released + Unlisted(evicted))
  }

  function ToUnload(pending: seq<Model>): Thread {
    if pending == [] then Idle else Unloading(pending)
  }

  function EvictionEvents(before: Entries, evicted: seq<Entry>): seq<Event> {
    if evicted == [] || before.order == [] then [] else [Evicted(LeastRecent(before), evicted[0])]
  }

  /** The models among evicted entries that have no unloader. */
  function Unlisted(evicted: seq<Entry>): seq<Model> {
    if evicted == [] then []
    else (if evicted[0].hasUnloader then [] else [evicted[0].model]) + Unlisted(evicted[1..])
  }

  function Next(w: World, a: Action): World
    requires Enabled(w, a) && Tabled(w)
  {
    match a
    case Lookup(t, k) =>
      if k in w.entries.table then
        w.(entries := MoveToEnd(w.entries, k), log := w.log + [Got(k, w.entries.table[k].model)])
      else w.(threads := w.threads[t := Missed(k)])
    case Fail(t) => w.(threads := w.threads[t := Idle])
    case Load(t) => w.(threads := w.threads[t := Loaded(w.threads[t].key, w.next)], next := w.next + 1)
    case Install(t, hasUnloader) => DoInstall(w, t, w.threads[t].key, w.threads[t].model, hasUnloader)
    case Unload(t) =>
      var pending := w.threads[t].pending;
      if pending == [] then w.(threads := w.threads[t := Idle])
      else w.(unloaded := w.unloaded + [pending[0]],
              threads := w.threads[t := ToUnload(pending[1..])])
  }

  // ---------------------------------------------------------------- LRU refinement

  /** The keys touched, oldest first. */
  function Touches(log: seq<Event>): seq<Key> {
    if log == [] then []
    else
      var front, last := log[..|log| - 1], log[|log| - 1];
      if last.Got? then Touches(front) + [last.key] else Touches(front)
  }

  /** The model a key must be resident with, judging from the log alone. */
  function Current(log: seq<Event>, k: Key): seq<Model> {
    if log == [] then []
    else
      var front, last := log[..|log| - 1], log[|log| - 1];
      if last.key != k then Current(front, k) else if last.Got? then [last.model] else []
  }

  /** Every get of a key returned the model the log says was resident, if there was one. */
  ghost predicate GetsAgree(log: seq<Event>) {
    forall j | 0 <= j < |log| && log[j].Got? ::
      Current(log[..j], log[j].key) == [] || Current(log[..j], log[j].key) == [log[j].model]
  }

  ghost predicate LogMatches(w: World) {
    && GetsAgree(w.log)
    && forall k :: Current(w.log, k) == if k in w.entries.table then [w.entries.table[k].model] else []
  }

  // ---------------------------------------------------------------- conservation

  function Count(s: seq<Model>, m: Model): nat {
    multiset(s)[m]
  }

  function Held(t: Thread, m: Model): nat {
    match t
    case Loaded(_, model) => if model == m then 1 else 0
    case Unloading(pending) => Count(pending, m)
    case _ => 0
  }

  function InFlight(threads: seq<Thread>, m: Model): nat {
    if threads == [] then 0 else Held(threads[0], m) + InFlight(threads[1..], m)
  }

  function Resident(order: seq<Key>, table: map<Key, Entry>, m: Model): nat
    requires forall k | k in order :: k in table
  {
    if order == [] then 0
    else (if table[order[0]].model == m then 1 else 0) + Resident(order[1..], table, m)
  }

  /** In how many places model `m` is: in flight or awaiting its unloader, resident,
      unloaded, released without an unloader, or discarded after a lost race. */
  function Places(w: World, m: Model): nat
    requires Tabled(w)
  {
    InFlight(w.threads, m) + Resident(w.entries.order, w.entries.table, m)
      + Count(w.unloaded, m) + Count(w.released, m) + Count(w.discarded, m)
  }

  lemma {:induction false} InFlightUpdate(threads: seq<Thread>, t: nat, x: Thread, m: Model)
    requires t < |threads|
    ensures InFlight(threads[t := x], m) + Held(threads[t], m) == InFlight(threads, m) + Held(x, m)
  {
    if t > 0 {
      InFlightUpdate(threads[1..], t - 1, x, m);
      assert threads[t := x][1..] == threads[1..][t - 1 := x];
    } else {
      assert threads[t := x][1..] == threads[1..];
    }
  }

  lemma {:induction false} ResidentRemove(order: seq<Key>, table: map<Key, Entry>, k: Key, m: Model)
    requires Distinct(order) && k in order && forall x | x in order :: x in table
    ensures forall x | x in Remove(order, k) :: x in table
    ensures Resident(order, table, m)
         == (if table[k].model == m then 1 else 0) + Resident(Remove(order, k), table, m)
  {
    RemoveSpec(order, k);
    RemoveSpec(order[1..], k);
    if order[0] != k {
      ResidentRemove(order[1..], table, k, m);
      assert Remove(order, k)[1..] == Remove(order[1..], k);
    }
  }

  lemma {:induction false} ResidentSame(order: seq<Key>, a: map<Key, Entry>, b: map<Key, Entry>, m: Model)
    requires forall x | x in order :: x in a && x in b && a[x] == b[x]
    ensures Resident(order, a, m) == Resident(order, b, m)
  {
    if order != [] {
      ResidentSame(order[1..], a, b, m);
    }
  }

  lemma {:induction false} ResidentSnoc(order: seq<Key>, k: Key, table: map<Key, Entry>, m: Model)
    requires k in table && forall x | x in order :: x in table
    ensures forall x | x in order + [k] :: x in table
    ensures Resident(order + [k], table, m)
         == Resident(order, table, m) + if table[k].model == m then 1 else 0
  {
    if order == [] {
      assert order + [k] == [k] && [k][1..] == [];
    } else {
      assert (order + [k])[1..] == order[1..] + [k];
      ResidentSnoc(order[1..], k, table, m);
    }
  }

  lemma VictimGoesSomewhere(victim: Entry, m: Model)
    ensures Count(Unloadable([victim]), m) + Count(Unlisted([victim]), m) == if victim.model == m then 1 else 0
  {
    assert [victim][1..] == [];
    assert Unloadable([victim]) == if victim.hasUnloader then [victim.model] else [];
    assert Unlisted([victim]) == if victim.hasUnloader then [] else [victim.model];
  }

  lemma ResidentPushedOut(e: Entries, k: Key, entry: Entry, maxSize: nat, m: Model)
    requires maxSize >= 1 && WellFormed(e, maxSize) && k !in e.table && |e.order| == maxSize
    requires WellFormed(Installed(e, k, entry, maxSize), maxSize)
    ensures LeastRecent(e) in e.table
    ensures Resident(Installed(e, k, entry, maxSize).order, Installed(e, k, entry, maxSize).table, m)
          + (if e.table[LeastRecent(e)].model == m then 1 else 0)
         == Resident(e.order, e.table, m) + if entry.model == m then 1 else 0
  {
    InstallPushesOut(e, k, entry, maxSize);
    var after, rest, oldest := Installed(e, k, entry, maxSize), e.order[..maxSize - 1], LeastRecent(e);
    DropLast(e.order);
    assert e.order == rest + [oldest];
    ResidentSnoc(rest, oldest, e.table, m);
    assert after.order[1..] == rest;
    ResidentSame(rest, e.table, after.table, m);
  }

  /** What an install adds to and takes from the resident models. */
  lemma ResidentInstall(e: Entries, k: Key, entry: Entry, maxSize: nat, m: Model)
    requires maxSize >= 1 && WellFormed(e, maxSize) && k !in e.table
    ensures var after := Installed(e, k, entry, maxSize);
      var evicted := EvictedBy(e, k, entry, maxSize);
      && WellFormed(after, maxSize)
      && Resident(after.order, after.table, m) + Count(Unloadable(evicted), m) + Count(Unlisted(evicted), m)
         == Resident(e.order, e.table, m) + if entry.model == m then 1 else 0
  {
    var after := Installed(e, k, entry, maxSize);
    if |e.order| < maxSize {
      InstallFits(e, k, entry, maxSize);
      assert after.order[1..] == e.order;
      ResidentSame(e.order, e.table, after.table, m);
    } else {
      InstallPushesOut(e, k, entry, maxSize);
      VictimGoesSomewhere(e.table[LeastRecent(e)], m);
      ResidentPushedOut(e, k, entry, maxSize, m);
    }
  }

  lemma ResidentMoved(e: Entries, k: Key, maxSize: nat, m: Model)
    requires WellFormed(e, maxSize) && k in e.table
    ensures WellFormed(MoveToEnd(e, k), maxSize)
    ensures Resident(MoveToEnd(e, k).order, e.table, m) == Resident(e.order, e.table, m)
  {
    RemoveSpec(e.order, k);
    ResidentRemove(e.order, e.table, k, m);
    assert MoveToEnd(e, k).order[1..] == Remove(e.order, k);
  }

  lemma CountConcat(a: seq<Model>, b: seq<Model>, m: Model)
    ensures Count(a + b, m) == Count(a, m) + Count(b, m)
  { }

  lemma InsertMoves(w: World, t: nat, k: Key, m0: Model, hasUnloader: bool, m: Model)
    requires w.maxSize >= 1 && WellFormed(w.entries, w.maxSize) && Tabled(w)
    requires t < |w.threads| && w.threads[t] == Loaded(k, m0) && k !in w.entries.table
    ensures var w' := DoInstall(w, t, k, m0, hasUnloader);
      WellFormed(w'.entries, w.maxSize) && Tabled(w') && Places(w', m) == Places(w, m)
  {
    var entry := Entry(m0, hasUnloader);
    var evicted := EvictedBy(w.entries, k, entry, w.maxSize);
    ResidentInstall(w.entries, k, entry, w.maxSize, m);
    LoadedToUnload(w.threads, t, Unloadable(evicted), m);
    CountConcat(w.released, Unlisted(evicted), m);
  }

  lemma LoadedToUnload(threads: seq<Thread>, t: nat, pending: seq<Model>, m: Model)
    requires t < |threads| && threads[t].Loaded?
    ensures InFlight(threads[t := ToUnload(pending)], m) + (if threads[t].model == m then 1 else 0)
         == InFlight(threads, m) + Count(pending, m)
  {
    InFlightUpdate(threads, t, ToUnload(pending), m);
  }

  lemma AdoptMoves(w: World, t: nat, k: Key, m0: Model, hasUnloader: bool, m: Model)
    requires WellFormed(w.entries, w.maxSize) && Tabled(w)
    requires t < |w.threads| && w.threads[t] == Loaded(k, m0) && k in w.entries.table
    ensures var w' := DoInstall(w, t, k, m0, hasUnloader);
      WellFormed(w'.entries, w.maxSize) && Tabled(w') && Places(w', m) == Places(w, m)
  {
    ResidentMoved(w.entries, k, w.maxSize, m);
    InFlightUpdate(w.threads, t, Idle, m);
    CountConcat(w.discarded, [m0], m);
  }

  lemma UnloadMoves(w: World, t: nat, m: Model)
    requires Tabled(w) && Enabled(w, Unload(t))
    ensures Places(Next(w, Unload(t)), m) == Places(w, m)
  {
    var pending := w.threads[t].pending;
    if pending == [] {
      InFlightUpdate(w.threads, t, Idle, m);
    } else {
      assert pending == [pending[0]] + pending[1..];
      InFlightUpdate(w.threads, t, ToUnload(pending[1..]), m);
    }
  }

  /** A step moves models between places; only a successful load brings a new one, which is
      the next unused identity. */
  lemma StepConserves(w: World, a: Action, m: Model)
    requires w.maxSize >= 1 && WellFormed(w.entries, w.maxSize) && Tabled(w) && Enabled(w, a)
    ensures WellFormed(Next(w, a).entries, w.maxSize) && Tabled(Next(w, a))
    ensures Places(Next(w, a), m) == Places(w, m) + if a.Load? && m == w.next then 1 else 0
  {
    match a
    case Lookup(t, k) =>
      if k in w.entries.table {
        ResidentMoved(w.entries, k, w.maxSize, m);
      } else {
        InFlightUpdate(w.threads, t, Missed(k), m);
      }
    case Fail(t) => InFlightUpdate(w.threads, t, Idle, m);
    case Load(t) => InFlightUpdate(w.threads, t, Loaded(w.threads[t].key, w.next), m);
    case Install(t, hasUnloader) =>
      if w.threads[t].key in w.entries.table {
        AdoptMoves(w, t, w.threads[t].key, w.threads[t].model, hasUnloader, m);
      } else {
        InsertMoves(w, t, w.threads[t].key, w.threads[t].model, hasUnloader, m);
      }
    case Unload(t) => UnloadMoves(w, t, m);
  }

  // ---------------------------------------------------------------- the log

  lemma LogGot(log: seq<Event>, k: Key, m: Model)
    requires GetsAgree(log) && (Current(log, k) == [] || Current(log, k) == [m])
    ensures GetsAgree(log + [Got(k, m)])
    ensures Touches(log + [Got(k, m)]) == Touches(log) + [k]
    ensures forall x :: Current(log + [Got(k, m)], x) == if x == k then [m] else Current(log, x)
  {
    var longer := log + [Got(k, m)];
    assert longer[..|longer| - 1] == log;
    forall j | 0 <= j < |longer| && longer[j].Got?
      ensures Current(longer[..j], longer[j].key) == [] || Current(longer[..j], longer[j].key) == [longer[j].model]
    {
      assert longer[..j] == log[..j];
      assert j < |log| ==> log[j] == longer[j];
      assert log[..|log|] == log;
    }
  }

  lemma LogEvicted(log: seq<Event>, k: Key, entry: Entry)
    requires GetsAgree(log)
    ensures GetsAgree(log + [Evicted(k, entry)])
    ensures Touches(log + [Evicted(k, entry)]) == Touches(log)
    ensures forall x :: Current(log + [Evicted(k, entry)], x) == if x == k then [] else Current(log, x)
  {
    var longer := log + [Evicted(k, entry)];
    assert longer[..|longer| - 1] == log;
    forall j | 0 <= j < |longer| && longer[j].Got?
      ensures Current(longer[..j], longer[j].key) == [] || Current(longer[..j], longer[j].key) == [longer[j].model]
    {
      assert longer[..j] == log[..j];
      assert j < |log| ==> log[j] == longer[j];
    }
  }

  /** The log and the entries move together: touches follow the LRU law, and replaying the
      log gives the table. */
  ghost predicate LogInv(w: World) {
    w.maxSize >= 1 && Tracks(w.entries, Touches(w.log), w.maxSize) && LogMatches(w)
  }

  lemma HitKeepsLog(w: World, w': World, k: Key)
    requires LogInv(w) && k in w.entries.table && w'.maxSize == w.maxSize
    requires w'.entries == MoveToEnd(w.entries, k)
    requires w'.log == w.log + [Got(k, w.entries.table[k].model)]
    ensures LogInv(w')
  {
    HitTracks(w.entries, Touches(w.log), k, w.maxSize);
    LogGot(w.log, k, w.entries.table[k].model);
  }

  /** The log entry an insertion writes, when nothing has to leave. */
  lemma InsertMatchesFits(w: World, w': World, k: Key, entry: Entry)
    requires LogMatches(w) && k !in w.entries.table
    requires w'.entries.table == w.entries.table[k := entry] && w'.log == w.log + [Got(k, entry.model)]
    ensures LogMatches(w') && Touches(w'.log) == Touches(w.log) + [k]
  {
    LogGot(w.log, k, entry.model);
  }

  lemma InsertMatchesFull(w: World, w': World, k: Key, entry: Entry, oldest: Key)
    requires LogMatches(w) && k !in w.entries.table && oldest in w.entries.table
    requires w'.entries.table == (w.entries.table - {oldest})[k := entry]
    requires w'.log == (w.log + [Got(k, entry.model)]) + [Evicted(oldest, w.entries.table[oldest])]
    ensures LogMatches(w') && Touches(w'.log) == Touches(w.log) + [k]
  {
    LogGot(w.log, k, entry.model);
    LogEvicted(w.log + [Got(k, entry.model)], oldest, w.entries.table[oldest]);
  }

  lemma InsertKeepsLog(w: World, w': World, k: Key, entry: Entry)
    requires LogInv(w) && k !in w.entries.table && w'.maxSize == w.maxSize
    requires w'.entries == Installed(w.entries, k, entry, w.maxSize)
    requires w'.log == w.log + [Got(k, entry.model)]
                     + EvictionEvents(w.entries, EvictedBy(w.entries, k, entry, w.maxSize))
    ensures LogInv(w')
  {
    InstallTracks(w.entries, Touches(w.log), k, entry, w.maxSize);
    if |w.entries.order| < w.maxSize {
      InstallFits(w.entries, k, entry, w.maxSize);
      InsertMatchesFits(w, w', k, entry);
    } else {
      InstallPushesOut(w.entries, k, entry, w.maxSize);
      InsertMatchesFull(w, w', k, entry, LeastRecent(w.entries));
    }
  }

  lemma StepKeepsLog(w: World, a: Action)
    requires LogInv(w) && Tabled(w) && Enabled(w, a)
    ensures LogInv(Next(w, a))
  {
    match a
    case Lookup(t, k) =>
      if k in w.entries.table {
        HitKeepsLog(w, Next(w, a), k);
      }
    case Install(t, hasUnloader) =>
      var k := w.threads[t].key;
      if k in w.entries.table {
        HitKeepsLog(w, Next(w, a), k);
      } else {
        InsertKeepsLog(w, Next(w, a), k, Entry(w.threads[t].model, hasUnloader));
      }
    case _ =>
  }

  /** What a lookup finds. A resident key answers at once with its model, becomes the most
      recent one and starts no load; only an absent one sends the thread on to validate and load. */
  lemma LookupAnswers(w: World, t: nat, k: Key)
    requires w.maxSize >= 1 && WellFormed(w.entries, w.maxSize) && Tabled(w) && Enabled(w, Lookup(t, k))
    ensures var w' := Next(w, Lookup(t, k));
      && w'.next == w.next && w'.entries.table == w.entries.table
      && (k in w.entries.table ==>
            && w'.threads == w.threads && w'.log == w.log + [Got(k, w.entries.table[k].model)]
            && w'.entries.order != [] && w'.entries.order[0] == k && |w'.entries.order| == |w.entries.order|)
      && (k !in w.entries.table ==>
            w'.threads == w.threads[t := Missed(k)] && w'.log == w.log && w'.entries == w.entries)
  {
    RemoveSpec(w.entries.order, k);
  }

  /** The steps a thread still has to make for its call. */
  function StepsLeft(t: Thread): nat {
    match t
    case Idle => 0
    case Missed(_) => 3
    case Loaded(_, _) => 2
    case Unloading(pending) => |pending|
  }

  /** No call hangs: a thread inside a call has a step to make, and it brings the call closer
      to its end. A missed key is loaded exactly when the allow-list lets it, and a validator
      or loader may fail in any case. */
  lemma CallsEnd(w: World, a: Action)
    requires w.maxSize >= 1 && WellFormed(w.entries, w.maxSize) && Tabled(w) && Enabled(w, a)
    ensures !a.Lookup? && (w.threads[a.t].Unloading? ==> w.threads[a.t].pending != []) ==>
              StepsLeft(Next(w, a).threads[a.t]) < StepsLeft(w.threads[a.t])
    ensures |Next(w, a).threads| == |w.threads|
    ensures forall t | 0 <= t < |w.threads| && t != a.t :: Next(w, a).threads[t] == w.threads[t]
  {
    if a.Install? && w.threads[a.t].key !in w.entries.table {
      InstallChanges(w.entries, w.threads[a.t].key, Entry(w.threads[a.t].model, a.hasUnloader), w.maxSize);
      hide Installed, EvictedBy, WellFormed, Unloadable;
    }
  }

  lemma EveryThreadCanStep(w: World, t: nat, k: Key)
    requires t < |w.threads|
    ensures w.threads[t].Idle? ==> Enabled(w, Lookup(t, k))
    ensures w.threads[t].Missed? ==>
      var key := w.threads[t].key;
      && Enabled(w, Fail(t))
      && (Enabled(w, Load(t))
          <==> key.provider !in w.allow || w.allow[key.provider] == {} || key.modelId in w.allow[key.provider])
    ensures w.threads[t].Loaded? ==> forall u :: Enabled(w, Install(t, u))
    ensures w.threads[t].Unloading? ==> Enabled(w, Unload(t))
  { }

  // ---------------------------------------------------------------- all interleavings

  /** Only allowed keys are ever loaded or resident. */
  ghost predicate AllowListKept(w: World) {
    && (forall k | k in w.entries.table && k.provider in w.allow ::
          w.allow[k.provider] == {} || k.modelId in w.allow[k.provider])
    && (forall t | 0 <= t < |w.threads| && w.threads[t].Loaded? && w.threads[t].key.provider in w.allow ::
          w.allow[w.threads[t].key.provider] == {} || w.threads[t].key.modelId in w.allow[w.threads[t].key.provider])
  }

  lemma StepKeepsAllowList(w: World, a: Action)
    requires AllowListKept(w) && w.maxSize >= 1 && WellFormed(w.entries, w.maxSize) && Tabled(w) && Enabled(w, a)
    ensures AllowListKept(Next(w, a))
  {
    var w' := Next(w, a);
    if a.Install? && w.threads[a.t].key !in w.entries.table {
      var k, entry := w.threads[a.t].key, Entry(w.threads[a.t].model, a.hasUnloader);
      if |w.entries.order| < w.maxSize {
        InstallFits(w.entries, k, entry, w.maxSize);
      } else {
        InstallPushesOut(w.entries, k, entry, w.maxSize);
      }
    }
  }

  predicate Runnable(w: World, actions: seq<Action>)
    decreases |actions|
  {
    actions == [] || (Tabled(w) && Enabled(w, actions[0]) && Runnable(Next(w, actions[0]), actions[1..]))
  }

  /** The state after any interleaved schedule. */
  function After(w: World, actions: seq<Action>): World
    requires Runnable(w, actions)
    decreases |actions|
  {
    if actions == [] then w else After(Next(w, actions[0]), actions[1..])
  }

  ghost predicate Inv(w: World) {
    LogInv(w) && AllowListKept(w) && Conserved(w)
  }

  /** Each model ever loaded is in exactly one place, and nothing else is anywhere. */
  ghost predicate Conserved(w: World) {
    Tabled(w) && forall m: Model :: Places(w, m) == if m < w.next then 1 else 0
  }

  lemma StepKeepsConserved(w: World, a: Action)
    requires w.maxSize >= 1 && WellFormed(w.entries, w.maxSize) && Conserved(w) && Enabled(w, a)
    ensures Conserved(Next(w, a))
  {
    var w' := Next(w, a);
    StepConserves(w, a, 0);
    assert w'.next == w.next + if a.Load? then 1 else 0;
    forall m: Model ensures Places(w', m) == if m < w'.next then 1 else 0 {
      StepConserves(w, a, m);
      assert Places(w, m) == if m < w.next then 1 else 0;
    }
  }

  lemma StepKeepsSettings(w: World, a: Action)
    requires Tabled(w) && Enabled(w, a)
    ensures Next(w, a).maxSize == w.maxSize && Next(w, a).allow == w.allow
  { }

  lemma StepKeepsInv(w: World, a: Action)
    requires Inv(w) && Enabled(w, a)
    ensures Inv(Next(w, a)) && Next(w, a).maxSize == w.maxSize && Next(w, a).allow == w.allow
  {
    var w' := Next(w, a);
    assert LogInv(w') by { StepKeepsLog(w, a); }
    assert AllowListKept(w') by { StepKeepsAllowList(w, a); }
    assert Conserved(w') by { StepKeepsConserved(w, a); }
    assert w'.maxSize == w.maxSize && w'.allow == w.allow by { StepKeepsSettings(w, a); }
  }

  lemma {:induction false} RunKeepsInv(w: World, actions: seq<Action>)
    requires Inv(w) && Runnable(w, actions)
    ensures Inv(After(w, actions))
    ensures After(w, actions).maxSize == w.maxSize && After(w, actions).allow == w.allow
    decreases |actions|
  {
    if actions != [] {
      var w' := Next(w, actions[0]);
      StepKeepsInv(w, actions[0]);
      RunKeepsInv(w', actions[1..]);
    }
  }

  lemma {:induction false} IdleHoldsNothing(threads: seq<Thread>, m: Model)
    requires forall t | 0 <= t < |threads| :: threads[t].Idle?
    ensures InFlight(threads, m) == 0
  {
    if threads != [] {
      IdleHoldsNothing(threads[1..], m);
    }
  }

  lemma StartHoldsInv(maxSize: nat, allow: map<string, set<string>>, threads: nat)
    requires maxSize >= 1
    ensures Inv(Start(maxSize, allow, threads))
  {
    forall m: Model ensures Places(Start(maxSize, allow, threads), m) == 0 {
      IdleHoldsNothing(seq(threads, _ => Idle), m);
    }
  }

  /** Model conservation: after any interleaving of any number of threads, every model ever
      loaded is in exactly one place; in particular its unloader ran at most once, and not
      while it was resident or in use by an install. */
  lemma ModelConservation(maxSize: nat, allow: map<string, set<string>>, threads: nat, actions: seq<Action>, m: Model)
    requires maxSize >= 1 && Runnable(Start(maxSize, allow, threads), actions)
    ensures var w := After(Start(maxSize, allow, threads), actions);
      && Tabled(w)
      && InFlight(w.threads, m) + Resident(w.entries.order, w.entries.table, m) + Count(w.unloaded, m)
         + Count(w.released, m) + Count(w.discarded, m) == if m < w.next then 1 else 0
  {
    StartHoldsInv(maxSize, allow, threads);
    RunKeepsInv(Start(maxSize, allow, threads), actions);
    var w := After(Start(maxSize, allow, threads), actions);
    assert Places(w, m) == if m < w.next then 1 else 0;
  }

  /** LRU refinement under any interleaving: the keys held are the first `maxSize` different
      keys of the touch history read backwards, and all of them are allowed. */
  lemma InterleavedLru(maxSize: nat, allow: map<string, set<string>>, threads: nat, actions: seq<Action>)
    requires maxSize >= 1 && Runnable(Start(maxSize, allow, threads), actions)
    ensures var w := After(Start(maxSize, allow, threads), actions);
      && w.entries.order == Take(maxSize, MostRecent(Touches(w.log)))
      && forall k | k in w.entries.table && k.provider in allow ::
           allow[k.provider] == {} || k.modelId in allow[k.provider]
  {
    StartHoldsInv(maxSize, allow, threads);
    RunKeepsInv(Start(maxSize, allow, threads), actions);
  }

  /** A key is resident exactly while fewer than `maxSize` different other keys have been
      touched since its own last touch, whatever the interleaving. */
  lemma ResidentIffFewTouchedSince(maxSize: nat, allow: map<string, set<string>>, threads: nat,
                                   actions: seq<Action>, before: seq<Key>, k: Key, since: seq<Key>)
    requires maxSize >= 1 && Runnable(Start(maxSize, allow, threads), actions)
    requires Touches(After(Start(maxSize, allow, threads), actions).log) == before + [k] + since && k !in since
    ensures k in After(Start(maxSize, allow, threads), actions).entries.table <==> CountDistinct(since) < maxSize
  {
    StartHoldsInv(maxSize, allow, threads);
    RunKeepsInv(Start(maxSize, allow, threads), actions);
    PositionIsDistinctSince(before, k, since, maxSize);
  }

  lemma {:induction false} StaysCurrent(log: seq<Event>, i: nat, j: nat, k: Key, m: Model)
    requires i < j <= |log| && log[i] == Got(k, m) && GetsAgree(log)
    requires forall x | i < x < j :: !(log[x].Evicted? && log[x].key == k)
    ensures Current(log[..j], k) == [m]
  {
    assert log[..j][..j - 1] == log[..j - 1];
    if j - 1 > i {
      StaysCurrent(log, i, j - 1, k, m);
    }
  }

  /** Two gets of a key with no eviction of it between them return the same object. */
  lemma SameObjectUntilEvicted(maxSize: nat, allow: map<string, set<string>>, threads: nat,
                               actions: seq<Action>, i: nat, j: nat)
    requires maxSize >= 1 && Runnable(Start(maxSize, allow, threads), actions)
    requires var log := After(Start(maxSize, allow, threads), actions).log;
      && i < j < |log| && log[i].Got? && log[j].Got? && log[i].key == log[j].key
      && forall x | i < x < j :: !(log[x].Evicted? && log[x].key == log[i].key)
    ensures var log := After(Start(maxSize, allow, threads), actions).log;
      log[i].model == log[j].model
  {
    StartHoldsInv(maxSize, allow, threads);
    RunKeepsInv(Start(maxSize, allow, threads), actions);
    var log := After(Start(maxSize, allow, threads), actions).log;
    StaysCurrent(log, i, j, log[i].key, log[i].model);
  }

  // ---------------------------------------------------------------- evicted models

  function Pending(t: Thread, m: Model): nat {
    if t.Unloading? then Count(t.pending, m) else 0
  }

  function AllPending(threads: seq<Thread>, m: Model): nat {
    if threads == [] then 0 else Pending(threads[0], m) + AllPending(threads[1..], m)
  }

  /** The unloader of `entry` is queued or has run; without an unloader, it was just released. */
  predicate Retired(w: World, entry: Entry) {
    if entry.hasUnloader then AllPending(w.threads, entry.model) + Count(w.unloaded, entry.model) >= 1
    else Count(w.released, entry.model) >= 1
  }

  ghost predicate EvictedAreRetired(w: World) {
    forall j | 0 <= j < |w.log| && w.log[j].Evicted? :: Retired(w, w.log[j].entry)
  }

  lemma {:induction false} PendingUpdate(threads: seq<Thread>, t: nat, x: Thread, m: Model)
    requires t < |threads|
    ensures AllPending(threads[t := x], m) + Pending(threads[t], m) == AllPending(threads, m) + Pending(x, m)
  {
    if t > 0 {
      PendingUpdate(threads[1..], t - 1, x, m);
      assert threads[t := x][1..] == threads[1..][t - 1 := x];
    } else {
      assert threads[t := x][1..] == threads[1..];
    }
  }

  lemma {:induction false} PendingIsInFlight(threads: seq<Thread>, m: Model)
    ensures AllPending(threads, m) <= InFlight(threads, m)
  {
    if threads != [] {
      PendingIsInFlight(threads[1..], m);
    }
  }

  /** Retirement is final: no step takes a model back out. */
  lemma RetiredStays(w: World, a: Action, entry: Entry)
    requires Tabled(w) && Enabled(w, a) && Retired(w, entry)
    ensures Retired(Next(w, a), entry)
  {
    var m, w' := entry.model, Next(w, a);
    if w'.threads != w.threads {
      PendingUpdate(w.threads, a.t, w'.threads[a.t], m);
      assert w'.threads == w.threads[a.t := w'.threads[a.t]];
    }
    match a
    case Unload(t) =>
      var pending := w.threads[t].pending;
      if pending != [] {
        assert pending == [pending[0]] + pending[1..];
        CountConcat([pending[0]], pending[1..], m);
        CountConcat(w.unloaded, [pending[0]], m);
        assert Pending(w'.threads[t], m) == Count(pending[1..], m);
      }
    case Install(t, hasUnloader) =>
      if w.threads[t].key !in w.entries.table {
        var evicted := EvictedBy(w.entries, w.threads[t].key, Entry(w.threads[t].model, hasUnloader), w.maxSize);
        CountConcat(w.released, Unlisted(evicted), m);
      }
    case _ =>
  }

  /** An entry leaves the table in the same step in which its unload is queued. */
  lemma VictimRetires(w: World, t: nat, hasUnloader: bool)
    requires w.maxSize >= 1 && WellFormed(w.entries, w.maxSize) && Enabled(w, Install(t, hasUnloader))
    requires w.threads[t].key !in w.entries.table && |w.entries.order| == w.maxSize
    ensures LeastRecent(w.entries) in w.entries.table
    ensures Tabled(w) && Retired(Next(w, Install(t, hasUnloader)), w.entries.table[LeastRecent(w.entries)])
  {
    var k, entry := w.threads[t].key, Entry(w.threads[t].model, hasUnloader);
    InstallPushesOut(w.entries, k, entry, w.maxSize);
    var victim := w.entries.table[LeastRecent(w.entries)];
    var w' := Next(w, Install(t, hasUnloader));
    assert [victim][1..] == [];
    PendingUpdate(w.threads, t, w'.threads[t], victim.model);
    CountConcat(w.released, Unlisted([victim]), victim.model);
  }

  /** The only step that logs an eviction is an install into a full cache. */
  lemma NewEviction(w: World, a: Action, j: nat)
    requires w.maxSize >= 1 && WellFormed(w.entries, w.maxSize) && Tabled(w) && Enabled(w, a)
    requires |w.log| <= j < |Next(w, a).log| && Next(w, a).log[j].Evicted?
    ensures a.Install? && w.threads[a.t].key !in w.entries.table && |w.entries.order| == w.maxSize
    ensures LeastRecent(w.entries) in w.entries.table
    ensures Next(w, a).log[j].entry == w.entries.table[LeastRecent(w.entries)]
  {
    if a.Install? && w.threads[a.t].key !in w.entries.table && |w.entries.order| == w.maxSize {
      InstallPushesOut(w.entries, w.threads[a.t].key, Entry(w.threads[a.t].model, a.hasUnloader), w.maxSize);
    }
  }

  lemma StepKeepsRetired(w: World, a: Action)
    requires Inv(w) && EvictedAreRetired(w) && Enabled(w, a)
    ensures EvictedAreRetired(Next(w, a))
  {
    var w' := Next(w, a);
    forall j | 0 <= j < |w'.log| && w'.log[j].Evicted? ensures Retired(w', w'.log[j].entry) {
      if j < |w.log| {
        assert w'.log[j] == w.log[j];
        RetiredStays(w, a, w.log[j].entry);
      } else {
        NewEviction(w, a, j);
        VictimRetires(w, a.t, a.hasUnloader);
      }
    }
  }

  lemma {:induction false} RunKeepsRetired(w: World, actions: seq<Action>)
    requires Inv(w) && EvictedAreRetired(w) && Runnable(w, actions)
    ensures EvictedAreRetired(After(w, actions))
    decreases |actions|
  {
    if actions != [] {
      StepKeepsInv(w, actions[0]);
      StepKeepsRetired(w, actions[0]);
      RunKeepsRetired(Next(w, actions[0]), actions[1..]);
    }
  }

  /** Every evicted entry's model is gone from the cache for good; its unloader is queued or
      has run, exactly once, and once no call is in progress it has run. */
  lemma EvictedUnloadsExactlyOnce(maxSize: nat, allow: map<string, set<string>>, threads: nat,
                                  actions: seq<Action>, j: nat)
    requires maxSize >= 1 && Runnable(Start(maxSize, allow, threads), actions)
    requires var log := After(Start(maxSize, allow, threads), actions).log; j < |log| && log[j].Evicted?
    ensures var w := After(Start(maxSize, allow, threads), actions);
      var Entry(m, hasUnloader) := w.log[j].entry;
      && Tabled(w) && Resident(w.entries.order, w.entries.table, m) == 0
      && AllPending(w.threads, m) + Count(w.unloaded, m) == (if hasUnloader then 1 else 0)
      && Count(w.released, m) == (if hasUnloader then 0 else 1)
      && ((forall t | 0 <= t < |w.threads| :: w.threads[t].Idle?) ==>
            Count(w.unloaded, m) == if hasUnloader then 1 else 0)
  {
    var start := Start(maxSize, allow, threads);
    StartHoldsInv(maxSize, allow, threads);
    RunKeepsInv(start, actions);
    RunKeepsRetired(start, actions);
    var w := After(start, actions);
    var m := w.log[j].entry.model;
    assert Retired(w, w.log[j].entry);
    assert Places(w, m) == if m < w.next then 1 else 0;
    PendingIsInFlight(w.threads, m);
    if forall t | 0 <= t < |w.threads| :: w.threads[t].Idle? {
      IdleHoldsNothing(w.threads, m);
    }
  }
}
