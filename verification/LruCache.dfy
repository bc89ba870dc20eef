/** `LRUModelCache`: the sequential cache object and its specification functions. */
module LruCache {
  import opened Recency

  /** A loaded model object, by identity. */
  type Model = nat

  datatype Entry = Entry(model: Model, hasUnloader: bool)

  /** The `_entries` OrderedDict. `order` lists the keys from the most recently used end, so
      `move_to_end` moves a key to the front and `popitem(last=False)` takes the last one. */
  datatype Entries = Entries(order: seq<Key>, table: map<Key, Entry>)

  const EMPTY := Entries([], map[])

  ghost predicate WellFormed(e: Entries, maxSize: nat) {
    Distinct(e.order) && (forall k :: k in e.order <==> k in e.table) && |e.order| <= maxSize
  }

  function MoveToEnd(e: Entries, k: Key): Entries {
    e.(order := [k] + Remove(e.order, k))
  }

  function Inserted(e: Entries, k: Key, entry: Entry): Entries {
    Entries([k] + e.order, e.table[k := entry])
  }

  function LeastRecent(e: Entries): Key
    requires e.order != []
  {
    e.order[|e.order| - 1]
  }

  function PopOldest(e: Entries): Entries
    requires e.order != []
  {
    Entries(e.order[..|e.order| - 1], e.table - {LeastRecent(e)})
  }

  /** The entries after installing `entry` under a key that is not resident. */
  function Installed(e: Entries, k: Key, entry: Entry, maxSize: nat): Entries {
    var grown := Inserted(e, k, entry);
    if |grown.order| > maxSize then PopOldest(grown) else grown
  }

  /** The entry an install pushes out, if any. */
  function EvictedBy(e: Entries, k: Key, entry: Entry, maxSize: nat): seq<Entry>
    requires forall x | x in e.order :: x in e.table
  {
    if |e.order| + 1 > maxSize then
      var grown := Inserted(e, k, entry);
      [grown.table[LeastRecent(grown)]]
    else []
  }

  /** The models among evicted entries that have an unloader to call. */
  function Unloadable(evicted: seq<Entry>): seq<Model> {
    if evicted == [] then []
    else (if evicted[0].hasUnloader then [evicted[0].model] else []) + Unloadable(evicted[1..])
  }

  lemma InstallFits(e: Entries, k: Key, entry: Entry, maxSize: nat)
    requires WellFormed(e, maxSize) && k !in e.table && |e.order| < maxSize
    ensures WellFormed(Installed(e, k, entry, maxSize), maxSize)
    ensures Installed(e, k, entry, maxSize) == Entries([k] + e.order, e.table[k := entry])
  { }

  lemma DropLast(s: seq<Key>)
    requires s != [] && Distinct(s)
    ensures var rest, last := s[..|s| - 1], s[|s| - 1];
      Distinct(rest) && last !in rest && forall x :: x in rest <==> x in s && x != last
  {
    assert s == s[..|s| - 1] + [s[|s| - 1]];
  }

  lemma PushedOut(e: Entries, k: Key, entry: Entry, maxSize: nat)
    requires maxSize >= 1 && |e.order| == maxSize && k !in e.table && LeastRecent(e) in e.table
    ensures Installed(e, k, entry, maxSize)
         == Entries([k] + e.order[..maxSize - 1], (e.table - {LeastRecent(e)})[k := entry])
  {
    var grown := Inserted(e, k, entry);
    assert grown.order[..maxSize] == [k] + e.order[..maxSize - 1];
    assert grown.order[maxSize] == LeastRecent(e);
    assert grown.table - {LeastRecent(e)} == (e.table - {LeastRecent(e)})[k := entry];
  }

  lemma ReplacedIsWellFormed(e: Entries, k: Key, entry: Entry, maxSize: nat)
    requires maxSize >= 1 && WellFormed(e, maxSize) && |e.order| == maxSize && k !in e.table
    ensures WellFormed(Entries([k] + e.order[..maxSize - 1], (e.table - {LeastRecent(e)})[k := entry]), maxSize)
  {
    DropLast(e.order);
  }

  lemma InstallPushesOut(e: Entries, k: Key, entry: Entry, maxSize: nat)
    requires maxSize >= 1 && WellFormed(e, maxSize) && k !in e.table && |e.order| == maxSize
    ensures WellFormed(Installed(e, k, entry, maxSize), maxSize)
    ensures LeastRecent(e) != k && LeastRecent(e) in e.table
    ensures Installed(e, k, entry, maxSize).order == [k] + e.order[..maxSize - 1]
    ensures Installed(e, k, entry, maxSize).table == (e.table - {LeastRecent(e)})[k := entry]
    ensures EvictedBy(e, k, entry, maxSize) == [e.table[LeastRecent(e)]]
  {
    assert LeastRecent(e) in e.order;
    assert Inserted(e, k, entry).order[maxSize] == LeastRecent(e);
    PushedOut(e, k, entry, maxSize);
    ReplacedIsWellFormed(e, k, entry, maxSize);
    hide Installed, Distinct;
  }

  /** An install evicts at most one entry, never its own, and only from a full cache. */
  lemma InstallEvictsOneOther(e: Entries, k: Key, entry: Entry, maxSize: nat)
    requires maxSize >= 1 && WellFormed(e, maxSize) && k !in e.table
    ensures WellFormed(Installed(e, k, entry, maxSize), maxSize)
    ensures k in Installed(e, k, entry, maxSize).table && Installed(e, k, entry, maxSize).table[k] == entry
    ensures |EvictedBy(e, k, entry, maxSize)| <= 1
    ensures |e.order| == maxSize ==>
              LeastRecent(e) in e.table && EvictedBy(e, k, entry, maxSize) == [e.table[LeastRecent(e)]]
    ensures EvictedBy(e, k, entry, maxSize) == [] <==> |e.order| < maxSize
    ensures forall x | x in e.table && x != k :: x !in Installed(e, k, entry, maxSize).table ==>
              |e.order| == maxSize && x == LeastRecent(e)
    ensures Installed(e, k, entry, maxSize).order == Take(maxSize, [k] + e.order)
  {
    if |e.order| < maxSize {
      InstallFits(e, k, entry, maxSize);
    } else {
      InstallPushesOut(e, k, entry, maxSize);
    }
  }

  /** The table with one more entry, the least recent one making room in a full cache. */
  function TableWith(e: Entries, k: Key, entry: Entry, maxSize: nat): map<Key, Entry> {
    if |e.order| == maxSize && e.order != [] then (e.table - {e.order[|e.order| - 1]})[k := entry]
    else e.table[k := entry]
  }

  /** The model whose unloader that takes: the least recent one of a full cache, if it has one. */
  function UnloadsFor(e: Entries, maxSize: nat): seq<Model> {
    if |e.order| == maxSize && e.order != [] && e.order[|e.order| - 1] in e.table
       && e.table[e.order[|e.order| - 1]].hasUnloader
    then [e.table[e.order[|e.order| - 1]].model] else []
  }

  lemma InstallChanges(e: Entries, k: Key, entry: Entry, maxSize: nat)
    requires maxSize >= 1 && WellFormed(e, maxSize) && k !in e.table
    ensures Installed(e, k, entry, maxSize).table == TableWith(e, k, entry, maxSize)
    ensures Unloadable(EvictedBy(e, k, entry, maxSize)) == UnloadsFor(e, maxSize)
  {
    if |e.order| == maxSize {
      InstallPushesOut(e, k, entry, maxSize);
    } else {
      InstallFits(e, k, entry, maxSize);
    }
  }

  /** The refinement the cache maintains: it holds the first `maxSize` distinct keys of the
      touch history read backwards. */
  ghost predicate Tracks(e: Entries, history: seq<Key>, maxSize: nat) {
    WellFormed(e, maxSize) && e.order == Take(maxSize, MostRecent(history))
  }

  lemma HitTracks(e: Entries, history: seq<Key>, k: Key, maxSize: nat)
    requires Tracks(e, history, maxSize) && k in e.table
    ensures Tracks(MoveToEnd(e, k), history + [k], maxSize)
  {
    RemoveSpec(e.order, k);
    MostRecentSpec(history);
    TakeTouchHit(maxSize, MostRecent(history), k);
    assert (history + [k])[..|history + [k]| - 1] == history;
  }

  lemma InstallTracks(e: Entries, history: seq<Key>, k: Key, entry: Entry, maxSize: nat)
    requires maxSize >= 1 && Tracks(e, history, maxSize) && k !in e.table
    ensures Tracks(Installed(e, k, entry, maxSize), history + [k], maxSize)
  {
    InstallEvictsOneOther(e, k, entry, maxSize);
    MostRecentSpec(history);
    TakeTouchMiss(maxSize, MostRecent(history), k);
    assert (history + [k])[..|history + [k]| - 1] == history;
  }

  /** One `get_or_load` call: what its validator and loader would do if they were called. */
  datatype Access = Access(key: Key, valid: bool, loads: bool)

  datatype Outcome = Returned(model: Model) | ValidatorRaised | LoaderRaised

  /** The keys held after one access to a cache of size `n`, in recency order. */
  function Serve(n: nat, order: seq<Key>, a: Access): seq<Key> {
    if a.key in order then [a.key] + Remove(order, a.key)
    else if a.valid && a.loads then Take(n, [a.key] + order)
    else order
  }

  /** Whether the access reaches the loader. */
  predicate CallsLoader(order: seq<Key>, a: Access) {
    a.key !in order && a.valid
  }

  class LRUModelCache {
    const maxSize: nat
    var entries: Entries
    /** Keys in the order they were touched: hits, installs and adoptions. */
    ghost var history: seq<Key>
    /** Models whose unloader has been called, in call order. */
    ghost var unloaded: seq<Model>

    ghost predicate Valid()
      reads this
    {
      maxSize >= 1 && Tracks(entries, history, maxSize)
    }

    constructor (size: nat)
      requires size >= 1
      ensures Valid() && maxSize == size && entries == EMPTY && history == [] && unloaded == []
    {
      maxSize := size;
      entries := EMPTY;
      history := [];
      unloaded := [];
    }

    method LoadedKeys() returns (keys: seq<Key>)
      requires Valid()
      ensures keys == Take(maxSize, MostRecent(history))
    {
      keys := entries.order;
    }

    method TryHit(k: Key) returns (hit: bool, model: Model)
      requires Valid()
      modifies this`entries, this`history
      ensures Valid()
      ensures hit == (k in old(entries).table)
      ensures hit ==>
        && model == old(entries).table[k].model
        && history == old(history) + [k]
        && entries == MoveToEnd(old(entries), k)
      ensures !hit ==> entries == old(entries) && history == old(history)
    {
      if k !in entries.table {
        return false, 0;
      }
      HitTracks(entries, history, k, maxSize);
      hit, model := true, entries.table[k].model;
      entries := MoveToEnd(entries, k);
      history := history + [k];
    }
  
    /** Installs a freshly loaded model, or adopts the entry another loader installed. The
        entries leave the table before any unloader runs. */
    method Install(k: Key, loaded: Model, hasUnloader: bool) returns (model: Model)
      requires Valid()
      modifies this`entries, this`history, this`unloaded
      ensures Valid()
      ensures history == old(history) + [k]
      ensures k in old(entries).table ==>
        && model == old(entries).table[k].model
        && entries == MoveToEnd(old(entries), k)
        && unloaded == old(unloaded)
      ensures k !in old(entries).table ==>
        && model == loaded
        && entries == Installed(old(entries), k, Entry(loaded, hasUnloader), maxSize)
        && unloaded == old(unloaded)
                       + Unloadable(EvictedBy(old(entries), k, Entry(loaded, hasUnloader), maxSize))
    {
      if k in entries.table {
        HitTracks(entries, history, k, maxSize);
        model := entries.table[k].model;
        entries := MoveToEnd(entries, k);
        history := history + [k];
        return;
      }
      InstallTracks(entries, history, k, Entry(loaded, hasUnloader), maxSize);
      var pending := InsertAndTrim(k, Entry(loaded, hasUnloader));
      history := history + [k];
      model := loaded;
      unloaded := unloaded + pending;
    }

    /** The locked half of an install: insert, then pop the oldest entries while the cache
        is over its bound, collecting the unloads to run after the lock is released. */
    method InsertAndTrim(k: Key, entry: Entry) returns (pending: seq<Model>)
      requires maxSize >= 1 && WellFormed(entries, maxSize) && k !in entries.table
      modifies this`entries
      ensures entries == Installed(old(entries), k, entry, maxSize)
      ensures pending == Unloadable(EvictedBy(old(entries), k, entry, maxSize))
    {
      ghost var grown := Inserted(entries, k, entry);
      InstallEvictsOneOther(entries, k, entry, maxSize);
      pending := [];
      entries := Inserted(entries, k, entry);
      assert LeastRecent(entries) in entries.order;
      while |entries.order| > maxSize
        invariant (entries == grown && pending == [])
          || (|grown.order| > maxSize && entries == PopOldest(grown)
              && pending == Unloadable([grown.table[LeastRecent(grown)]]))
        decreases |entries.order|
      {
        var evicted := entries.table[LeastRecent(entries)];
        entries := PopOldest(entries);
        if evicted.hasUnloader {
          pending := pending + [evicted.model];
        }
      }
    }

    /** `get_or_load`: the outcome of the call, what it does to the entries held, and whose
        unloader it calls: that of the least recent entry of a full cache when a model is added. */
    method GetOrLoad(a: Access, loaded: Model, hasUnloader: bool) returns (outcome: Outcome, calledLoader: bool)
      requires Valid()
      modifies this`entries, this`history, this`unloaded
      ensures Valid()
      ensures entries.order == Serve(maxSize, old(entries).order, a)
      ensures calledLoader == CallsLoader(old(entries).order, a)
      ensures outcome.Returned? <==> a.key in old(entries).table || (a.valid && a.loads)
      ensures outcome.Returned? ==>
        && history == old(history) + [a.key]
        && a.key in entries.table && entries.table[a.key].model == outcome.model
        && outcome.model == (if a.key in old(entries).table then old(entries).table[a.key].model else loaded)
        && (a.key in old(entries).table ==> entries.table == old(entries).table && unloaded == old(unloaded))
        && (a.key !in old(entries).table ==>
              && entries.table == TableWith(old(entries), a.key, Entry(loaded, hasUnloader), maxSize)
              && unloaded == old(unloaded) + UnloadsFor(old(entries), maxSize))
      ensures !outcome.Returned? ==>
        && history == old(history) && entries == old(entries) && unloaded == old(unloaded)
        && outcome == if a.valid then LoaderRaised else ValidatorRaised
    {
      var hit, model := TryHit(a.key);
      if hit {
        return Returned(model), false;
      }
      if !a.valid {
        return ValidatorRaised, false;
      }
      if !a.loads {
        return LoaderRaised, true;
      }
      InstallEvictsOneOther(entries, a.key, Entry(loaded, hasUnloader), maxSize);
      InstallChanges(entries, a.key, Entry(loaded, hasUnloader), maxSize);
      model := Install(a.key, loaded, hasUnloader);
      outcome, calledLoader := Returned(model), true;
    }
  }
}
