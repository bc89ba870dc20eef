/** What the requests of a run have done: each one's own events, counted, against the stage it
    is in. Nobody finishes with work left over unless it was cut short. */
module AdmissionWork {
  import opened Admission

  // ---------------------------------------------------------------- counting events

  /** How often each kind of event befell one request; `ended` counts disconnects, raised
      calls and cancellations. */
  datatype Tally = Tally(begins: nat, abandons: nat, probes: nat, calls: nat, pulls: nat, ended: nat)

  const NOTHING := Tally(0, 0, 0, 0, 0, 0)

  function Counted(t: Tally, e: Event, i: nat): Tally {
    if e.Arrive? || e.i != i then t
    else
      match e
      case Begin(_, _) => t.(begins := t.begins + 1)
      case Abandon(_) => t.(abandons := t.abandons + 1)
      case StillConnected(_) => t.(probes := t.probes + 1)
      case CallReturned(_) => t.(calls := t.calls + 1)
      case Pull(_) => t.(pulls := t.pulls + 1)
      case Disconnected(_) => t.(ended := t.ended + 1)
      case CallRaised(_) => t.(ended := t.ended + 1)
      case Cancel(_) => t.(ended := t.ended + 1)
      case _ => t
  }

  function TallyFrom(t: Tally, events: seq<Event>, i: nat): Tally
    decreases |events|
  {
    if events == [] then t else TallyFrom(Counted(t, events[0], i), events[1..], i)
  }

  /** The events of request `i` in a run. */
  function TallyOf(events: seq<Event>, i: nat): Tally {
    TallyFrom(NOTHING, events, i)
  }

  /** The arrivals of a run, in order. */
  function Arrivals(events: seq<Event>): seq<Event> {
    if events == [] then []
    else (if events[0].Arrive? then [events[0]] else []) + Arrivals(events[1..])
  }

  // ---------------------------------------------------------------- stage against count

  /** The count of a request that has started and not yet called the provider. */
  function Started(kind: Kind): Tally {
    if kind.Streaming? then NOTHING.(begins := 1) else NOTHING
  }

  /** The count of a request that ran to its end. A buffered request is probed before each of
      its calls, a stream is pulled after each, and the legacy path makes one call for all. */
  function Complete(r: Request): Tally {
    match r.kind
    case Buffered => Started(r.kind).(probes := r.chunks, calls := r.chunks)
    case Streaming => Started(r.kind).(calls := r.chunks, pulls := r.chunks)
    case Legacy => Started(r.kind).(calls := 1)
  }

  ghost predicate Accounts(r: Request, t: Tally) {
    match r.stage
    case Rejected => t == NOTHING
    case HandedOff => r.kind.Streaming? && t == NOTHING
    case Abandoned => r.kind.Streaming? && t == NOTHING.(abandons := 1)
    case Probing(_, c) => r.kind.Buffered? && t == Started(r.kind).(probes := c, calls := c)
    case Calling(_, c) =>
      (match r.kind
       case Buffered => t == Started(r.kind).(probes := c + 1, calls := c)
       case Streaming => t == Started(r.kind).(calls := c, pulls := c)
       case Legacy => c == 0 && t == Started(r.kind))
    case Yielded(_, c) => r.kind.Streaming? && c >= 1 && t == Started(r.kind).(calls := c, pulls := c - 1)
    case Finished =>
      if t.ended == 0 then t == Complete(r)
      else t.ended == 1 && t.abandons == 0 && t.calls <= Complete(r).calls
           && (r.kind.Buffered? ==> t.calls <= t.probes <= t.calls + 1 && t.probes <= r.chunks)
    case _ => t == Started(r.kind)
  }

  /** Request `i` stands where its events have brought it; before it arrives it has none. */
  ghost predicate Balanced(s: System, i: nat, t: Tally) {
    if i < |s.requests| then WellStaged(s.requests[i]) && Accounts(s.requests[i], t) else t == NOTHING
  }

  lemma EnteredAccounts(s: System, i: nat, queues: Queues)
    requires i < |s.requests|
    ensures var s' := EnterConcurrency(s, i, queues);
      && s'.requests == s.requests[i := s.requests[i].(stage := s'.requests[i].stage)]
      && Accounts(s'.requests[i], Started(s.requests[i].kind))
  { }

  lemma ArrivalBalances(s: System, e: Event, i: nat, t: Tally)
    requires e.Arrive? && Enabled(s, e) && Balanced(s, i, t)
    ensures Balanced(Next(s, e), i, t)
    ensures Next(s, e).requests
         == s.requests + [Request(e.kind, e.key, e.chunks, Next(s, e).requests[|s.requests|].stage)]
  {
    var n := |s.requests|;
    if s.queue > 0 && !e.kind.Streaming? {
      EnteredAccounts(Acquired(s, e.kind, e.key, e.chunks), n, e.queues);
      EnterConcurrencyStage(Acquired(s, e.kind, e.key, e.chunks), n, e.queues);
      hide EnterConcurrency;
    }
  }

  /** An event other than an arrival moves one request and keeps what it asked for. */
  lemma MovesOne(s: System, e: Event)
    requires Enabled(s, e) && !e.Arrive?
    ensures var s' := Next(s, e);
      && e.i < |s.requests| == |s'.requests|
      && s'.requests == s.requests[e.i := s.requests[e.i].(stage := s'.requests[e.i].stage)]
  { }

  lemma BeginAccounts(s: System, i: nat, queues: Queues, t: Tally)
    requires i < |s.requests| && s.requests[i].stage.HandedOff? && Accounts(s.requests[i], t)
    ensures Accounts(EnterConcurrency(s, i, queues).requests[i], t.(begins := t.begins + 1))
  {
    EnteredAccounts(s, i, queues);
  }

  lemma ReturnAccounts(s: System, i: nat, t: Tally)
    requires Enabled(s, CallReturned(i)) && WellStaged(s.requests[i]) && Accounts(s.requests[i], t)
    ensures Accounts(Next(s, CallReturned(i)).requests[i], t.(calls := t.calls + 1))
  { }

  lemma PullAccounts(s: System, i: nat, t: Tally)
    requires Enabled(s, Pull(i)) && WellStaged(s.requests[i]) && Accounts(s.requests[i], t)
    ensures Accounts(Next(s, Pull(i)).requests[i], t.(pulls := t.pulls + 1))
  { }

  lemma EndAccounts(s: System, i: nat, t: Tally)
    requires i < |s.requests| && InProgress(s.requests[i].stage) && !s.requests[i].stage.HandedOff?
    requires WellStaged(s.requests[i]) && Accounts(s.requests[i], t)
    ensures Accounts(Release(s, i).requests[i], t.(ended := t.ended + 1))
  { }

  lemma ResumeAccounts(s: System, i: nat, queues: Queues, t: Tally)
    requires i < |s.requests| && s.requests[i].stage.Woken? && Accounts(s.requests[i], t)
    ensures Accounts(EnterLock(s, i, queues).requests[i], t)
  { }

  lemma WaitAccounts(s: System, e: Event, t: Tally)
    requires (e.Abandon? || e.Wake? || e.GrantLock? || e.StillConnected?) && Enabled(s, e)
    requires Accounts(s.requests[e.i], t)
    ensures Accounts(Next(s, e).requests[e.i], Counted(t, e, e.i))
  { }

  lemma MoverAccounts(s: System, e: Event, t: Tally)
    requires Enabled(s, e) && !e.Arrive? && WellStaged(s.requests[e.i]) && Accounts(s.requests[e.i], t)
    ensures Accounts(Next(s, e).requests[e.i], Counted(t, e, e.i))
  {
    hide EnterConcurrency, EnterLock, Release, WellStaged, Accounts, SetStage;
    match e
    case Begin(i, queues) => BeginAccounts(s, i, queues, t);
    case Resume(i, queues) => ResumeAccounts(s, i, queues, t);
    case CallReturned(i) => ReturnAccounts(s, i, t);
    case Pull(i) => PullAccounts(s, i, t);
    case Disconnected(i) => EndAccounts(s, i, t);
    case CallRaised(i) => EndAccounts(s, i, t);
    case Cancel(i) => EndAccounts(s, i, t);
    case Abandon(_) => WaitAccounts(s, e, t);
    case Wake(_) => WaitAccounts(s, e, t);
    case GrantLock(_) => WaitAccounts(s, e, t);
    case StillConnected(_) => WaitAccounts(s, e, t);
  }

  lemma StepBalances(s: System, e: Event, i: nat, t: Tally)
    requires Enabled(s, e) && Balanced(s, i, t)
    ensures Balanced(Next(s, e), i, Counted(t, e, i))
  {
    if e.Arrive? {
      ArrivalBalances(s, e, i, t);
    } else {
      MovesOne(s, e);
      if e.i == i {
        StepStage(s, e);
        MoverAccounts(s, e, t);
      }
      hide Next, Enabled, Accounts, WellStaged;
    }
  }

  lemma {:induction false} RunBalances(s: System, events: seq<Event>, i: nat, t: Tally)
    requires Runnable(s, events) && Balanced(s, i, t)
    ensures Balanced(After(s, events), i, TallyFrom(t, events, i))
    decreases |events|
  {
    hide Next, Enabled, Balanced, Counted;
    if events != [] {
      StepBalances(s, events[0], i, t);
      RunBalances(Next(s, events[0]), events[1..], i, Counted(t, events[0], i));
    }
  }

  /** Request `i` asked for what arrival `i` of the run says. */
  ghost predicate AskedBy(rs: seq<Request>, arrivals: seq<Event>) {
    && |rs| == |arrivals|
    && forall i | 0 <= i < |rs| ::
         arrivals[i].Arrive? && rs[i].kind == arrivals[i].kind
         && rs[i].key == arrivals[i].key && rs[i].chunks == arrivals[i].chunks
  }

  lemma StepAsked(s: System, e: Event, before: seq<Event>)
    requires Enabled(s, e) && AskedBy(s.requests, before)
    ensures AskedBy(Next(s, e).requests, before + if e.Arrive? then [e] else [])
  {
    if e.Arrive? {
      ArrivalBalances(s, e, |s.requests|, NOTHING);
    } else {
      MovesOne(s, e);
    }
    hide Next, Enabled;
  }

  lemma NoArrivals()
    ensures Arrivals([]) == []
  { }

  lemma FirstArrival(before: seq<Event>, events: seq<Event>)
    requires events != []
    ensures before + Arrivals(events)
         == (before + if events[0].Arrive? then [events[0]] else []) + Arrivals(events[1..])
  { }

  lemma {:induction false} RunAsked(s: System, events: seq<Event>, before: seq<Event>)
    requires Runnable(s, events) && AskedBy(s.requests, before)
    ensures AskedBy(After(s, events).requests, before + Arrivals(events))
    decreases |events|
  {
    hide Next, Enabled, AskedBy, Arrivals;
    if events == [] {
      assert Arrivals(events) == [] by { NoArrivals(); }
      assert before + [] == before;
    } else {
      var first := if events[0].Arrive? then [events[0]] else [];
      StepAsked(s, events[0], before);
      RunAsked(Next(s, events[0]), events[1..], before + first);
      FirstArrival(before, events);
    }
  }

  /** What runs do for their requests. Over every run there is one request per arrival, with
      the kind, key and number of chunks it asked for. One that finished without being cut
      short has had exactly its calls: one per chunk, or a single one on the legacy path; a
      buffered one was probed before each, a stream pulled after each. While a request holds
      its lock the calls so far are the chunks done, and no buffered call precedes its probe. */
  lemma EveryChunkIsSynthesised(queueCap: nat, concurrencyCap: nat, events: seq<Event>, i: nat)
    requires Runnable(Init(queueCap, concurrencyCap), events)
    requires i < |After(Init(queueCap, concurrencyCap), events).requests|
    ensures var r, t := After(Init(queueCap, concurrencyCap), events).requests[i], TallyOf(events, i);
      && i < |Arrivals(events)|
      && (var a := Arrivals(events)[i];
          a.Arrive? && r.kind == a.kind && r.key == a.key && r.chunks == a.chunks)
      && Accounts(r, t)
      && (r.stage.Finished? && t.ended == 0 ==>
            && t.calls == (if r.kind.Legacy? then 1 else r.chunks)
            && (r.kind.Buffered? ==> t.probes == r.chunks)
            && (r.kind.Streaming? ==> t.begins == 1 && t.pulls == r.chunks))
      && (HoldsLock(r.stage) ==> t.ended == 0 && t.calls == r.stage.chunk)
      && (r.kind.Buffered? ==> t.calls <= t.probes <= t.calls + 1)
      && (r.stage.Abandoned? <==> t.abandons > 0)
  {
    hide After, Runnable, TallyFrom;
    var s := Init(queueCap, concurrencyCap);
    RunBalances(s, events, i, NOTHING);
    RunAsked(s, events, []);
    assert [] + Arrivals(events) == Arrivals(events);
  }

  /** Every arrival of a run has become a request. */
  lemma OneRequestPerArrival(queueCap: nat, concurrencyCap: nat, events: seq<Event>)
    requires Runnable(Init(queueCap, concurrencyCap), events)
    ensures |After(Init(queueCap, concurrencyCap), events).requests| == |Arrivals(events)|
  {
    RunAsked(Init(queueCap, concurrencyCap), events, []);
    assert [] + Arrivals(events) == Arrivals(events);
  }

  // ---------------------------------------------------------------- who enters at once

  ghost predicate KeyBusy(s: System, key: LockKey) {
    exists j :: 0 <= j < |s.requests| && s.requests[j].key == key && HoldsLock(s.requests[j].stage)
  }

  /** The lock looked up for a key is taken exactly when a request of that key is inside. */
  lemma LockTakenIff(s: System, key: LockKey)
    requires LocksConsistent(s)
    ensures FindLock(s, key).1 in s.held <==> KeyBusy(s, key)
  {
    var lock := FindLock(s, key).1;
    if lock in s.held {
      assert HoldersOf(s.requests, lock) == 1;
      var j := HolderExists(s.requests, lock);
      assert Uses(s.requests[j].stage, lock);
      assert s.requests[j].key == key;
    }
    if j :| 0 <= j < |s.requests| && s.requests[j].key == key && HoldsLock(s.requests[j].stage) {
      assert Uses(s.requests[j].stage, s.requests[j].stage.lock);
      HolderCounts(s.requests, j);
    }
  }

  /** Where a request stands right after it asks for a concurrency permit and its lock. */
  lemma EntersAt(s: System, i: nat, queues: Queues)
    requires i < |s.requests| && LocksConsistent(s)
    ensures var stage := EnterConcurrency(s, i, queues).requests[i].stage;
      var busy := KeyBusy(s, s.requests[i].key);
      && (stage.WaitingConcurrency? <==> s.concurrency == 0 || queues.AtSemaphore?)
      && (stage.WaitingLock? <==> s.concurrency > 0 && !queues.AtSemaphore? && (busy || queues.AtLock?))
      && (HoldsLock(stage) <==> s.concurrency > 0 && queues.Nowhere? && !busy)
  {
    LockTakenIff(s, s.requests[i].key);
    hide KeyBusy, LocksConsistent;
  }

  /** An admitted buffered or legacy request is inside the lock section right away exactly when
      a concurrency permit is out to fewer than all, no request of its key is inside, and
      asyncio does not make it queue; a stream is handed off and takes nothing yet. */
  lemma EntersAtOnceIff(queueCap: nat, concurrencyCap: nat, events: seq<Event>,
                        kind: Kind, key: LockKey, chunks: nat, queues: Queues)
    requires concurrencyCap >= 1 && chunks >= 1 && Runnable(Init(queueCap, concurrencyCap), events)
    requires Admitted(After(Init(queueCap, concurrencyCap), events)) < queueCap
    ensures var s := After(Init(queueCap, concurrencyCap), events);
      var s' := Next(s, Arrive(kind, key, chunks, queues));
      && |s'.requests| == |s.requests| + 1
      && var stage := s'.requests[|s.requests|].stage;
        && (kind.Streaming? ==> stage == HandedOff && s'.concurrency == s.concurrency)
        && (!kind.Streaming? ==>
              && (HoldsLock(stage) <==> Active(s) < concurrencyCap && queues.Nowhere? && !KeyBusy(s, key))
              && (stage.WaitingConcurrency? <==> Active(s) == concurrencyCap || queues.AtSemaphore?))
  {
    var s := After(Init(queueCap, concurrencyCap), events);
    PermitsConserved(queueCap, concurrencyCap, events);
    InitHoldsInv(queueCap, concurrencyCap);
    RunKeepsInv(Init(queueCap, concurrencyCap), events);
    AdmitAnswer(s, kind, key, chunks, queues);
    hide After, Runnable, Active, Admitted, PermitsBalance, FilesMatch;
    if !kind.Streaming? {
      var admitted := Acquired(s, kind, key, chunks);
      AppendKeepsLocks(s, admitted, Request(kind, key, chunks, HandedOff));
      EntersAt(admitted, |s.requests|, queues);
      BusyAppend(s, admitted, Request(kind, key, chunks, HandedOff), key);
      hide EnterConcurrency, LocksConsistent, KeyBusy;
    }
  }

  lemma BusyAppend(s: System, s': System, r: Request, key: LockKey)
    requires s'.requests == s.requests + [r] && !HoldsLock(r.stage)
    ensures KeyBusy(s', key) <==> KeyBusy(s, key)
  {
    if j :| 0 <= j < |s.requests| && s.requests[j].key == key && HoldsLock(s.requests[j].stage) {
      assert s'.requests[j] == s.requests[j];
    }
  }

  /** Any request in progress can be cut short where it stands: a running call may raise, a
      stream not yet started may be dropped, everywhere else a cancellation may arrive, and a
      buffered request between two calls may find its client gone. */
  lemma CanBeCutShort(s: System, i: nat)
    requires i < |s.requests| && InProgress(s.requests[i].stage)
    ensures var stage := s.requests[i].stage;
      var e := if stage.Calling? then CallRaised(i) else if stage.HandedOff? then Abandon(i) else Cancel(i);
      && Enabled(s, e) && !InProgress(Next(s, e).requests[i].stage)
      && (stage.Probing? ==> Enabled(s, Disconnected(i)) && Next(s, Disconnected(i)).requests[i].stage.Finished?)
  { }
}
