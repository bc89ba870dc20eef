/** The admission and serialisation protocol shared by `_run_synthesis`,
    `_stream_synthesis_chunks` and `SpeechSynthesizer.generate`.

    One event loop runs every request, so everything between two awaits that really suspend
    is one step. A semaphore or lock that is taken makes the newcomer wait; one that is free is
    taken without suspending, unless asyncio makes the newcomer queue behind others that wait
    for it: both are allowed at any time. A woken waiter may resume at any later time, and who
    is woken first is left open. This covers the semaphores of every supported Python version. */
module Admission {
  datatype Kind = Buffered | Streaming | Legacy

  /** A `(provider, model)` pair, as a model-lock key. */
  datatype LockKey = LockKey(provider: string, model: string)

  /** Where a request is suspended. `chunk` counts finished chunks. An abandoned stream is one
      whose generator is dropped before it was started: its `finally` never runs. */
  datatype Stage =
    | Rejected
    | HandedOff
    | Abandoned
    | WaitingConcurrency
    | Woken
    | WaitingLock(waitsFor: nat)
    | Probing(lock: nat, chunk: nat)
    | Calling(lock: nat, chunk: nat)
    | Yielded(lock: nat, chunk: nat)
    | Finished

  datatype Request = Request(kind: Kind, key: LockKey, chunks: nat, stage: Stage)

  /** `queue` and `concurrency` are the semaphores' `_value`s, `locks` the lazily filled lock
      map, `held` the locks whose `_locked` is set, `files` the requests whose temp file exists. */
  datatype System = System(
    queueCap: nat,
    concurrencyCap: nat,
    queue: nat,
    concurrency: nat,
    locks: map<LockKey, nat>,
    nextLock: nat,
    held: set<nat>,
    files: set<nat>,
    requests: seq<Request>)

  /** Where a newcomer has to queue although what it asks for is free. */
  datatype Queues = Nowhere | AtSemaphore | AtLock

  datatype Event =
    | Arrive(kind: Kind, key: LockKey, chunks: nat, queues: Queues)
    | Begin(i: nat, queues: Queues)
    | Abandon(i: nat)
    | Wake(i: nat)
    | Resume(i: nat, queues: Queues)
    | GrantLock(i: nat)
    | StillConnected(i: nat)
    | CallReturned(i: nat)
    | Pull(i: nat)
    | Disconnected(i: nat)
    | CallRaised(i: nat)
    | Cancel(i: nat)

  predicate HoldsQueue(s: Stage) {
    !s.Rejected? && !s.Finished?
  }

  predicate HoldsLock(s: Stage) {
    s.Probing? || s.Calling? || s.Yielded?
  }

  predicate HoldsConcurrency(s: Stage) {
    s.Woken? || s.WaitingLock? || HoldsLock(s)
  }

  function Init(queueCap: nat, concurrencyCap: nat): System {
    System(queueCap, concurrencyCap, queueCap, concurrencyCap, map[], 0, {}, {}, [])
  }

  /** Events other than arrivals name an existing request. */
  predicate Enabled(s: System, e: Event) {
    if e.Arrive? then e.chunks >= 1
    else
      e.i < |s.requests| &&
      var r := s.requests[e.i];
      match e
      case Begin(_, _) => r.stage.HandedOff?
      case Abandon(_) => r.stage.HandedOff?
      case Wake(_) => r.stage.WaitingConcurrency? && s.concurrency > 0
      case Resume(_, _) => r.stage.Woken?
      case GrantLock(_) => r.stage.WaitingLock? && r.stage.waitsFor !in s.held
      case StillConnected(_) => r.stage.Probing?
      case CallReturned(_) => r.stage.Calling?
      case Pull(_) => r.stage.Yielded?
      case Disconnected(_) => r.stage.Probing?
      case CallRaised(_) => r.stage.Calling?
      case Cancel(_) =>
        r.stage.WaitingConcurrency? || r.stage.Woken? || r.stage.WaitingLock? || r.stage.Probing? || r.stage.Yielded?
  }

  function SetStage(s: System, i: nat, stage: Stage): System
    requires i < |s.requests|
  {
    s.(requests := s.requests[i := s.requests[i].(stage := stage)])
  }

  /** Inside the model lock, before the first chunk. */
  function FirstChunk(r: Request, lock: nat): Stage {
    if r.kind.Buffered? then Probing(lock, 0) else Calling(lock, 0)
  }

  /** `model_locks.get(key)`, or a new lock stored under the key. */
  function FindLock(s: System, k: LockKey): (System, nat) {
    if k in s.locks then (s, s.locks[k])
    else (s.(locks := s.locks[k := s.nextLock], nextLock := s.nextLock + 1), s.nextLock)
  }

  /** With a concurrency permit in hand: look up the lock and take it or queue for it. */
  function EnterLock(s: System, i: nat, queues: Queues): System
    requires i < |s.requests|
  {
    var (s1, lock) := FindLock(s, s.requests[i].key);
    if lock in s1.held || queues.AtLock? then SetStage(s1, i, WaitingLock(lock))
    else SetStage(s1.(held := s1.held + {lock}), i, FirstChunk(s1.requests[i], lock))
  }

  /** `async with concur_sem:` */
  function EnterConcurrency(s: System, i: nat, queues: Queues): System
    requires i < |s.requests|
  {
    if s.concurrency > 0 && !queues.AtSemaphore? then EnterLock(s.(concurrency := s.concurrency - 1), i, queues)
    else SetStage(s, i, WaitingConcurrency)
  }

  /** Leaving every context manager and the `finally` block, which give back what is held. */
  function Release(s: System, i: nat): System
    requires i < |s.requests|
  {
    var stage := s.requests[i].stage;
    SetStage(
      s.(queue := s.queue + 1,
         concurrency := s.concurrency + if HoldsConcurrency(stage) then 1 else 0,
         held := if HoldsLock(stage) then s.held - {stage.lock} else s.held,
         files := s.files - {i}),
      i, Finished)
  }

  /** The state right after a successful queue acquire. */
  function Acquired(s: System, kind: Kind, key: LockKey, chunks: nat): System
    requires s.queue > 0
  {
    s.(queue := s.queue - 1,
       files := if kind.Legacy? then s.files else s.files + {|s.requests|},
       requests := s.requests + [Request(kind, key, chunks, HandedOff)])
  }

  /** A new request. With no queue permit left it is answered 429 and its temp file is gone
      again; otherwise it is admitted, and a stream is handed to a generator not yet started. */
  function Admit(s: System, kind: Kind, key: LockKey, chunks: nat, queues: Queues): System {
    if s.queue == 0 then s.(requests := s.requests + [Request(kind, key, chunks, Rejected)])
    else
      var admitted := Acquired(s, kind, key, chunks);
      if kind.Streaming? then admitted else EnterConcurrency(admitted, |s.requests|, queues)
  }

  function Next(s: System, e: Event): System
    requires Enabled(s, e)
  {
    match e
    case Arrive(kind, key, chunks, queues) => Admit(s, kind, key, chunks, queues)
    case Begin(i, queues) => EnterConcurrency(s, i, queues)
    case Abandon(i) => SetStage(s, i, Abandoned)
    case Wake(i) => SetStage(s.(concurrency := s.concurrency - 1), i, Woken)
    case Resume(i, queues) => EnterLock(s, i, queues)
    case GrantLock(i) =>
      var lock := s.requests[i].stage.waitsFor;
      SetStage(s.(held := s.held + {lock}), i, FirstChunk(s.requests[i], lock))
    case StillConnected(i) => SetStage(s, i, Calling(s.requests[i].stage.lock, s.requests[i].stage.chunk))
    case CallReturned(i) =>
      var r := s.requests[i];
      (match r.kind
       case Streaming => SetStage(s, i, Yielded(r.stage.lock, r.stage.chunk + 1))
       case Buffered =>
         if r.stage.chunk + 1 < r.chunks then SetStage(s, i, Probing(r.stage.lock, r.stage.chunk + 1))
         else Release(s, i)
       case Legacy => Release(s, i))
    case Pull(i) =>
      var r := s.requests[i];
      if r.stage.chunk < r.chunks then SetStage(s, i, Calling(r.stage.lock, r.stage.chunk)) else Release(s, i)
    case Disconnected(i) => Release(s, i)
    case CallRaised(i) => Release(s, i)
    case Cancel(i) => Release(s, i)
  }

  // ---------------------------------------------------------------- counting permits

  function Total(rs: seq<Request>, share: Request -> nat): nat {
    if rs == [] then 0 else share(rs[0]) + Total(rs[1..], share)
  }

  function QueueShare(r: Request): nat {
    if HoldsQueue(r.stage) then 1 else 0
  }

  function ConcurrencyShare(r: Request): nat {
    if HoldsConcurrency(r.stage) then 1 else 0
  }

  /** Admitted requests that have not given their queue permit back. */
  function Admitted(s: System): nat {
    Total(s.requests, QueueShare)
  }

  /** Requests holding a concurrency permit. */
  function Active(s: System): nat {
    Total(s.requests, ConcurrencyShare)
  }

  lemma {:induction false} TotalUpdate(rs: seq<Request>, i: nat, r: Request, share: Request -> nat)
    requires i < |rs|
    ensures Total(rs[i := r], share) + share(rs[i]) == Total(rs, share) + share(r)
  {
    if i > 0 {
      TotalUpdate(rs[1..], i - 1, r, share);
      assert rs[i := r][1..] == rs[1..][i - 1 := r];
    } else {
      assert rs[i := r][1..] == rs[1..];
    }
  }

  lemma {:induction false} TotalAppend(rs: seq<Request>, r: Request, share: Request -> nat)
    ensures Total(rs + [r], share) == Total(rs, share) + share(r)
  {
    if rs == [] {
      assert rs + [r] == [r] && [r][1..] == [];
    } else {
      assert (rs + [r])[1..] == rs[1..] + [r];
      TotalAppend(rs[1..], r, share);
    }
  }

  ghost predicate PermitsBalance(s: System) {
    s.queue + Admitted(s) == s.queueCap && s.concurrency + Active(s) == s.concurrencyCap
  }

  lemma SetStageCounts(s: System, i: nat, stage: Stage)
    requires i < |s.requests|
    ensures Admitted(SetStage(s, i, stage)) + QueueShare(s.requests[i])
         == Admitted(s) + if HoldsQueue(stage) then 1 else 0
    ensures Active(SetStage(s, i, stage)) + ConcurrencyShare(s.requests[i])
         == Active(s) + if HoldsConcurrency(stage) then 1 else 0
  {
    TotalUpdate(s.requests, i, s.requests[i].(stage := stage), QueueShare);
    TotalUpdate(s.requests, i, s.requests[i].(stage := stage), ConcurrencyShare);
  }

  lemma EnterLockCounts(s: System, i: nat, queues: Queues)
    requires i < |s.requests| && HoldsQueue(s.requests[i].stage)
    ensures Admitted(EnterLock(s, i, queues)) == Admitted(s)
    ensures Active(EnterLock(s, i, queues)) + ConcurrencyShare(s.requests[i]) == Active(s) + 1
  {
    SetStageCounts(s, i, EnterLock(s, i, queues).requests[i].stage);
  }

  lemma EnterConcurrencyBalances(s: System, i: nat, queues: Queues)
    requires i < |s.requests| && s.requests[i].stage.HandedOff? && PermitsBalance(s)
    ensures PermitsBalance(EnterConcurrency(s, i, queues))
  {
    if s.concurrency > 0 && !queues.AtSemaphore? {
      EnterLockCounts(s.(concurrency := s.concurrency - 1), i, queues);
    } else {
      SetStageCounts(s, i, WaitingConcurrency);
    }
  }

  lemma ReleaseBalances(s: System, i: nat)
    requires i < |s.requests| && HoldsQueue(s.requests[i].stage) && PermitsBalance(s)
    ensures PermitsBalance(Release(s, i))
  {
    SetStageCounts(s, i, Finished);
  }

  /** A move between two stages that hold the same permits. */
  lemma SetStageBalances(s: System, i: nat, stage: Stage, held: set<nat>)
    requires i < |s.requests| && PermitsBalance(s)
    requires HoldsQueue(stage) == HoldsQueue(s.requests[i].stage)
    requires HoldsConcurrency(stage) == HoldsConcurrency(s.requests[i].stage)
    ensures PermitsBalance(SetStage(s.(held := held), i, stage))
  {
    SetStageCounts(s, i, stage);
  }

  lemma AdmitBalances(s: System, kind: Kind, key: LockKey, chunks: nat, queues: Queues)
    requires PermitsBalance(s)
    ensures PermitsBalance(Admit(s, kind, key, chunks, queues))
  {
    if s.queue == 0 {
      TotalAppend(s.requests, Request(kind, key, chunks, Rejected), QueueShare);
      TotalAppend(s.requests, Request(kind, key, chunks, Rejected), ConcurrencyShare);
    } else {
      TotalAppend(s.requests, Request(kind, key, chunks, HandedOff), QueueShare);
      TotalAppend(s.requests, Request(kind, key, chunks, HandedOff), ConcurrencyShare);
      if !kind.Streaming? {
        EnterConcurrencyBalances(Acquired(s, kind, key, chunks), |s.requests|, queues);
      }
    }
  }

  lemma WakeBalances(s: System, i: nat)
    requires PermitsBalance(s) && Enabled(s, Wake(i))
    ensures PermitsBalance(Next(s, Wake(i)))
  {
    SetStageCounts(s, i, Woken);
  }

  lemma ResumeBalances(s: System, i: nat, queues: Queues)
    requires PermitsBalance(s) && Enabled(s, Resume(i, queues))
    ensures PermitsBalance(Next(s, Resume(i, queues)))
  {
    EnterLockCounts(s, i, queues);
  }

  lemma StepBalances(s: System, e: Event)
    requires PermitsBalance(s) && Enabled(s, e)
    ensures PermitsBalance(Next(s, e))
  {
    hide PermitsBalance, Admit, EnterConcurrency, EnterLock, Release;
    match e
    case Arrive(kind, key, chunks, queues) => AdmitBalances(s, kind, key, chunks, queues);
    case Begin(i, queues) => EnterConcurrencyBalances(s, i, queues);
    case Abandon(i) => SetStageBalances(s, i, Abandoned, s.held);
    case Wake(i) => WakeBalances(s, i);
    case Resume(i, queues) => ResumeBalances(s, i, queues);
    case GrantLock(i) =>
      SetStageBalances(s, i, Next(s, e).requests[i].stage, Next(s, e).held);
    case StillConnected(i) =>
      SetStageBalances(s, i, Next(s, e).requests[i].stage, s.held);
    case CallReturned(i) =>
      if Next(s, e) == Release(s, i) {
        ReleaseBalances(s, i);
      } else {
        SetStageBalances(s, i, Next(s, e).requests[i].stage, s.held);
      }
    case Pull(i) =>
      if Next(s, e) == Release(s, i) {
        ReleaseBalances(s, i);
      } else {
        SetStageBalances(s, i, Next(s, e).requests[i].stage, s.held);
      }
    case Disconnected(i) => ReleaseBalances(s, i);
    case CallRaised(i) => ReleaseBalances(s, i);
    case Cancel(i) => ReleaseBalances(s, i);
  }

  // ---------------------------------------------------------------- locks, files and stages

  function Holding(stage: Stage, lock: nat): nat {
    if HoldsLock(stage) && stage.lock == lock then 1 else 0
  }

  /** Requests inside the critical section of one lock. */
  function HoldersOf(rs: seq<Request>, lock: nat): nat {
    if rs == [] then 0 else Holding(rs[0].stage, lock) + HoldersOf(rs[1..], lock)
  }

  /** The lock object a request has looked up, as far as its stage remembers it. */
  predicate Uses(stage: Stage, lock: nat) {
    (stage.WaitingLock? && stage.waitsFor == lock) || (HoldsLock(stage) && stage.lock == lock)
  }

  /** One lock per key for the whole run, used by all its requests, with at most one holder. */
  ghost predicate LocksConsistent(s: System) {
    && (forall k | k in s.locks :: s.locks[k] < s.nextLock)
    && (forall a, b | a in s.locks && b in s.locks && a != b :: s.locks[a] != s.locks[b])
    && (forall i, l | 0 <= i < |s.requests| && Uses(s.requests[i].stage, l) ::
          s.requests[i].key in s.locks && s.locks[s.requests[i].key] == l)
    && (forall l :: HoldersOf(s.requests, l) == if l in s.held then 1 else 0)
  }

  predicate WellStaged(r: Request) {
    r.chunks >= 1 &&
    match r.stage
    case HandedOff => r.kind.Streaming?
    case Abandoned => r.kind.Streaming?
    case Probing(_, k) => r.kind.Buffered? && k < r.chunks
    case Calling(_, k) => k < r.chunks
    case Yielded(_, k) => r.kind.Streaming? && k <= r.chunks
    case _ => true
  }

  /** Every request is in a stage its entry point has, and the temp files that exist are
      those of the buffered and streaming requests that still hold a queue permit. */
  ghost predicate FilesMatch(s: System) {
    && (forall i | 0 <= i < |s.requests| :: WellStaged(s.requests[i]))
    && (forall i :: i in s.files <==>
          0 <= i < |s.requests| && !s.requests[i].kind.Legacy? && HoldsQueue(s.requests[i].stage))
  }

  ghost predicate Inv(s: System) {
    s.concurrencyCap >= 1 && PermitsBalance(s) && LocksConsistent(s) && FilesMatch(s)
  }

  lemma {:induction false} HoldersUpdate(rs: seq<Request>, i: nat, r: Request, lock: nat)
    requires i < |rs|
    ensures HoldersOf(rs[i := r], lock) + Holding(rs[i].stage, lock) == HoldersOf(rs, lock) + Holding(r.stage, lock)
  {
    if i > 0 {
      HoldersUpdate(rs[1..], i - 1, r, lock);
      assert rs[i := r][1..] == rs[1..][i - 1 := r];
    } else {
      assert rs[i := r][1..] == rs[1..];
    }
  }

  lemma {:induction false} HoldersAppend(rs: seq<Request>, r: Request, lock: nat)
    requires !HoldsLock(r.stage)
    ensures HoldersOf(rs + [r], lock) == HoldersOf(rs, lock)
  {
    if rs == [] {
      assert rs + [r] == [r] && [r][1..] == [];
    } else {
      assert (rs + [r])[1..] == rs[1..] + [r];
      HoldersAppend(rs[1..], r, lock);
    }
  }

  lemma {:induction false} HolderCounts(rs: seq<Request>, i: nat)
    requires i < |rs| && HoldsLock(rs[i].stage)
    ensures HoldersOf(rs, rs[i].stage.lock) >= 1
  {
    if i > 0 {
      HolderCounts(rs[1..], i - 1);
    }
  }

  lemma {:induction false} TwoHoldersCount(rs: seq<Request>, i: nat, j: nat)
    requires i < j < |rs| && HoldsLock(rs[i].stage) && HoldsLock(rs[j].stage) && rs[i].stage.lock == rs[j].stage.lock
    ensures HoldersOf(rs, rs[i].stage.lock) >= 2
  {
    if i > 0 {
      TwoHoldersCount(rs[1..], i - 1, j - 1);
    } else {
      HolderCounts(rs[1..], j - 1);
    }
  }

  lemma {:induction false} HolderExists(rs: seq<Request>, lock: nat) returns (i: nat)
    requires HoldersOf(rs, lock) >= 1
    ensures i < |rs| && HoldsLock(rs[i].stage) && rs[i].stage.lock == lock
  {
    if HoldsLock(rs[0].stage) && rs[0].stage.lock == lock {
      i := 0;
    } else {
      var j := HolderExists(rs[1..], lock);
      i := j + 1;
    }
  }

  /** A stage change that neither takes nor drops a lock. */
  lemma MoveKeepsLocks(s: System, s': System, i: nat, stage: Stage)
    requires i < |s.requests| && LocksConsistent(s)
    requires s'.requests == s.requests[i := s.requests[i].(stage := stage)]
    requires s'.locks == s.locks && s'.nextLock == s.nextLock && s'.held == s.held
    requires forall l :: Holding(stage, l) == Holding(s.requests[i].stage, l)
    requires forall l | Uses(stage, l) :: s.requests[i].key in s.locks && s.locks[s.requests[i].key] == l
    ensures LocksConsistent(s')
  {
    forall l ensures HoldersOf(s'.requests, l) == HoldersOf(s.requests, l) {
      HoldersUpdate(s.requests, i, s'.requests[i], l);
    }
  }

  lemma TakeKeepsLocks(s: System, s': System, i: nat, stage: Stage)
    requires i < |s.requests| && LocksConsistent(s) && !HoldsLock(s.requests[i].stage)
    requires HoldsLock(stage) && stage.lock !in s.held
    requires s.requests[i].key in s.locks && s.locks[s.requests[i].key] == stage.lock
    requires s'.requests == s.requests[i := s.requests[i].(stage := stage)]
    requires s'.locks == s.locks && s'.nextLock == s.nextLock && s'.held == s.held + {stage.lock}
    ensures LocksConsistent(s')
  {
    forall l ensures HoldersOf(s'.requests, l) == if l in s'.held then 1 else 0 {
      HoldersUpdate(s.requests, i, s'.requests[i], l);
    }
  }

  lemma ReleaseKeepsLocks(s: System, i: nat)
    requires i < |s.requests| && LocksConsistent(s)
    ensures LocksConsistent(Release(s, i))
  {
    var s' := Release(s, i);
    if HoldsLock(s.requests[i].stage) {
      HolderCounts(s.requests, i);
    }
    forall l ensures HoldersOf(s'.requests, l) == if l in s'.held then 1 else 0 {
      HoldersUpdate(s.requests, i, s'.requests[i], l);
    }
  }

  lemma FindLockKeepsLocks(s: System, k: LockKey)
    requires LocksConsistent(s)
    ensures var (s', l) := FindLock(s, k); LocksConsistent(s') && k in s'.locks && s'.locks[k] == l
  { }

  lemma EnterLockKeepsLocks(s: System, i: nat, queues: Queues)
    requires i < |s.requests| && LocksConsistent(s) && !HoldsLock(s.requests[i].stage)
    ensures LocksConsistent(EnterLock(s, i, queues))
  {
    var (s1, lock) := FindLock(s, s.requests[i].key);
    FindLockKeepsLocks(s, s.requests[i].key);
    if lock in s1.held || queues.AtLock? {
      MoveKeepsLocks(s1, EnterLock(s, i, queues), i, WaitingLock(lock));
    } else {
      TakeKeepsLocks(s1, EnterLock(s, i, queues), i, FirstChunk(s1.requests[i], lock));
    }
  }

  lemma EnterConcurrencyKeepsLocks(s: System, i: nat, queues: Queues)
    requires i < |s.requests| && LocksConsistent(s) && s.requests[i].stage.HandedOff?
    ensures LocksConsistent(EnterConcurrency(s, i, queues))
  {
    if s.concurrency > 0 && !queues.AtSemaphore? {
      EnterLockKeepsLocks(s.(concurrency := s.concurrency - 1), i, queues);
    } else {
      MoveKeepsLocks(s, EnterConcurrency(s, i, queues), i, WaitingConcurrency);
    }
  }

  lemma AppendKeepsLocks(s: System, s': System, r: Request)
    requires LocksConsistent(s) && (r.stage.Rejected? || r.stage.HandedOff?)
    requires s'.requests == s.requests + [r]
    requires s'.locks == s.locks && s'.nextLock == s.nextLock && s'.held == s.held
    ensures LocksConsistent(s')
  {
    forall l ensures HoldersOf(s'.requests, l) == HoldersOf(s.requests, l) {
      HoldersAppend(s.requests, r, l);
    }
  }

  lemma AdmitKeepsLocks(s: System, kind: Kind, key: LockKey, chunks: nat, queues: Queues)
    requires LocksConsistent(s)
    ensures LocksConsistent(Admit(s, kind, key, chunks, queues))
  {
    if s.queue == 0 {
      AppendKeepsLocks(s, Admit(s, kind, key, chunks, queues), Request(kind, key, chunks, Rejected));
    } else {
      AppendKeepsLocks(s, Acquired(s, kind, key, chunks), Request(kind, key, chunks, HandedOff));
      if !kind.Streaming? {
        EnterConcurrencyKeepsLocks(Acquired(s, kind, key, chunks), |s.requests|, queues);
      }
    }
  }

  lemma GrantKeepsLocks(s: System, i: nat)
    requires LocksConsistent(s) && Enabled(s, GrantLock(i))
    ensures LocksConsistent(Next(s, GrantLock(i)))
  {
    var lock := s.requests[i].stage.waitsFor;
    assert Uses(s.requests[i].stage, lock);
    TakeKeepsLocks(s, Next(s, GrantLock(i)), i, FirstChunk(s.requests[i], lock));
  }

  /** A move that keeps the lock a request holds, if any. */
  lemma SameLockKeepsLocks(s: System, i: nat, stage: Stage, concurrency: nat)
    requires i < |s.requests| && LocksConsistent(s) && !stage.WaitingLock?
    requires HoldsLock(stage) == HoldsLock(s.requests[i].stage)
    requires HoldsLock(stage) ==> stage.lock == s.requests[i].stage.lock
    ensures LocksConsistent(SetStage(s.(concurrency := concurrency), i, stage))
  {
    if HoldsLock(stage) {
      assert Uses(s.requests[i].stage, stage.lock);
    }
    MoveKeepsLocks(s, SetStage(s.(concurrency := concurrency), i, stage), i, stage);
  }

  lemma StepKeepsLocks(s: System, e: Event)
    requires LocksConsistent(s) && Enabled(s, e)
    ensures LocksConsistent(Next(s, e))
  {
    hide LocksConsistent, Admit, EnterConcurrency, EnterLock, Release;
    match e
    case Arrive(kind, key, chunks, queues) => AdmitKeepsLocks(s, kind, key, chunks, queues);
    case Begin(i, queues) => EnterConcurrencyKeepsLocks(s, i, queues);
    case Resume(i, queues) => EnterLockKeepsLocks(s, i, queues);
    case GrantLock(i) => GrantKeepsLocks(s, i);
    case Abandon(i) => SameLockKeepsLocks(s, i, Abandoned, s.concurrency);
    case Wake(i) => SameLockKeepsLocks(s, i, Woken, s.concurrency - 1);
    case StillConnected(i) => SameLockKeepsLocks(s, i, Next(s, e).requests[i].stage, s.concurrency);
    case CallReturned(i) =>
      if Next(s, e) == Release(s, i) {
        ReleaseKeepsLocks(s, i);
      } else {
        SameLockKeepsLocks(s, i, Next(s, e).requests[i].stage, s.concurrency);
      }
    case Pull(i) =>
      if Next(s, e) == Release(s, i) {
        ReleaseKeepsLocks(s, i);
      } else {
        SameLockKeepsLocks(s, i, Next(s, e).requests[i].stage, s.concurrency);
      }
    case Disconnected(i) => ReleaseKeepsLocks(s, i);
    case CallRaised(i) => ReleaseKeepsLocks(s, i);
    case Cancel(i) => ReleaseKeepsLocks(s, i);
  }

  /** One request changed stage; its file goes exactly when it gives up its permit. */
  lemma MoveKeepsFiles(s: System, s': System, i: nat)
    requires i < |s.requests| == |s'.requests| && FilesMatch(s)
    requires forall j | 0 <= j < |s.requests| && j != i :: s'.requests[j] == s.requests[j]
    requires WellStaged(s'.requests[i]) && s'.requests[i].kind == s.requests[i].kind
    requires HoldsQueue(s.requests[i].stage)
    requires s'.files == if HoldsQueue(s'.requests[i].stage) then s.files else s.files - {i}
    ensures FilesMatch(s')
  { }

  lemma AppendKeepsFiles(s: System, s': System, r: Request)
    requires FilesMatch(s) && WellStaged(r) && s'.requests == s.requests + [r]
    requires s'.files == if HoldsQueue(r.stage) && !r.kind.Legacy? then s.files + {|s.requests|} else s.files
    ensures FilesMatch(s')
  {
    hide WellStaged;
  }

  lemma EnterConcurrencyStage(s: System, i: nat, queues: Queues)
    requires i < |s.requests| && s.requests[i].chunks >= 1
    ensures var s' := EnterConcurrency(s, i, queues);
      && s'.requests == s.requests[i := s'.requests[i]] && s'.files == s.files
      && s'.requests[i].kind == s.requests[i].kind
      && HoldsQueue(s'.requests[i].stage) && !s'.requests[i].stage.Abandoned? && WellStaged(s'.requests[i])
  { }

  lemma AdmitKeepsFiles(s: System, kind: Kind, key: LockKey, chunks: nat, queues: Queues)
    requires FilesMatch(s) && chunks >= 1
    ensures FilesMatch(Admit(s, kind, key, chunks, queues))
  {
    var n, admitted := |s.requests|, Request(kind, key, chunks, HandedOff);
    assert (s.requests + [admitted])[n] == admitted;
    if s.queue > 0 && !kind.Streaming? {
      EnterConcurrencyStage(Acquired(s, kind, key, chunks), n, queues);
    }
    var s' := Admit(s, kind, key, chunks, queues);
    hide FilesMatch, EnterConcurrency;
    assert s'.requests == s.requests + [s'.requests[n]];
    AppendKeepsFiles(s, s', s'.requests[n]);
  }

  lemma StepStage(s: System, e: Event)
    requires Enabled(s, e) && !e.Arrive? && WellStaged(s.requests[e.i])
    ensures var s' := Next(s, e);
      && e.i < |s.requests| == |s'.requests| && s'.requests == s.requests[e.i := s'.requests[e.i]]
      && s'.requests[e.i].kind == s.requests[e.i].kind && WellStaged(s'.requests[e.i])
      && HoldsQueue(s.requests[e.i].stage)
      && s'.files == if HoldsQueue(s'.requests[e.i].stage) then s.files else s.files - {e.i}
  { }

  lemma StepKeepsFiles(s: System, e: Event)
    requires FilesMatch(s) && Enabled(s, e)
    ensures FilesMatch(Next(s, e))
  {
    if e.Arrive? {
      AdmitKeepsFiles(s, e.kind, e.key, e.chunks, e.queues);
    } else {
      StepStage(s, e);
      hide Enabled, Next;
      MoveKeepsFiles(s, Next(s, e), e.i);
    }
  }

  lemma StepKeepsLimits(s: System, e: Event)
    requires Enabled(s, e)
    ensures Next(s, e).queueCap == s.queueCap && Next(s, e).concurrencyCap == s.concurrencyCap
  { }

  lemma StepKeepsInv(s: System, e: Event)
    requires Inv(s) && Enabled(s, e)
    ensures Inv(Next(s, e))
    ensures Next(s, e).queueCap == s.queueCap && Next(s, e).concurrencyCap == s.concurrencyCap
  {
    hide Next, Enabled, PermitsBalance, LocksConsistent, FilesMatch;
    StepKeepsLimits(s, e);
    StepBalances(s, e);
    StepKeepsLocks(s, e);
    StepKeepsFiles(s, e);
  }

  // ---------------------------------------------------------------- whole runs

  predicate Runnable(s: System, events: seq<Event>)
    decreases |events|
  {
    events == [] || (Enabled(s, events[0]) && Runnable(Next(s, events[0]), events[1..]))
  }

  /** The state after a run. */
  function After(s: System, events: seq<Event>): System
    requires Runnable(s, events)
    decreases |events|
  {
    if events == [] then s else After(Next(s, events[0]), events[1..])
  }

  lemma InitHoldsInv(queueCap: nat, concurrencyCap: nat)
    requires concurrencyCap >= 1
    ensures Inv(Init(queueCap, concurrencyCap))
  { }

  lemma {:induction false} RunKeepsInv(s: System, events: seq<Event>)
    requires Inv(s) && Runnable(s, events)
    ensures Inv(After(s, events))
    ensures After(s, events).queueCap == s.queueCap && After(s, events).concurrencyCap == s.concurrencyCap
    decreases |events|
  {
    if events != [] {
      StepKeepsInv(s, events[0]);
      RunKeepsInv(Next(s, events[0]), events[1..]);
    }
  }

  lemma {:induction false} ActiveAreAdmitted(rs: seq<Request>)
    ensures Total(rs, ConcurrencyShare) <= Total(rs, QueueShare)
  {
    if rs != [] {
      ActiveAreAdmitted(rs[1..]);
    }
  }

  /** Permit conservation over all runs and entry points: each semaphore's value is its
      capacity minus its holders, and active requests stay below both limits. */
  lemma PermitsConserved(queueCap: nat, concurrencyCap: nat, events: seq<Event>)
    requires concurrencyCap >= 1 && Runnable(Init(queueCap, concurrencyCap), events)
    ensures var s := After(Init(queueCap, concurrencyCap), events);
      && s.queue + Admitted(s) == queueCap
      && s.concurrency + Active(s) == concurrencyCap
      && Active(s) <= Admitted(s)
      && Active(s) <= concurrencyCap && Active(s) <= queueCap
  {
    InitHoldsInv(queueCap, concurrencyCap);
    RunKeepsInv(Init(queueCap, concurrencyCap), events);
    ActiveAreAdmitted(After(Init(queueCap, concurrencyCap), events).requests);
  }

  lemma AdmitAnswer(s: System, kind: Kind, key: LockKey, chunks: nat, queues: Queues)
    ensures var s' := Admit(s, kind, key, chunks, queues);
      && |s'.requests| == |s.requests| + 1
      && (s'.requests[|s.requests|].stage.Rejected? <==> s.queue == 0)
      && (s.queue == 0 ==> s' == s.(requests := s'.requests))
  { }

  /** A request is answered 429 exactly when every queue permit is out, and then the
      semaphores, locks and files are untouched. A depth of zero rejects everything. */
  lemma RejectedIffFull(queueCap: nat, concurrencyCap: nat, events: seq<Event>,
                        kind: Kind, key: LockKey, chunks: nat, queues: Queues)
    requires concurrencyCap >= 1 && chunks >= 1 && Runnable(Init(queueCap, concurrencyCap), events)
    ensures var s := After(Init(queueCap, concurrencyCap), events);
      var s' := Next(s, Arrive(kind, key, chunks, queues));
      && |s'.requests| == |s.requests| + 1
      && (s'.requests[|s.requests|].stage.Rejected? <==> Admitted(s) == queueCap)
      && (Admitted(s) == queueCap ==> s' == s.(requests := s'.requests))
      && (queueCap == 0 ==> s'.requests[|s.requests|].stage.Rejected?)
  {
    hide Admit, Admitted, Active;
    PermitsConserved(queueCap, concurrencyCap, events);
    AdmitAnswer(After(Init(queueCap, concurrencyCap), events), kind, key, chunks, queues);
  }

  /** At most one request per `(provider, model)` is inside the section that calls the provider. */
  lemma MutualExclusion(queueCap: nat, concurrencyCap: nat, events: seq<Event>, i: nat, j: nat)
    requires concurrencyCap >= 1 && Runnable(Init(queueCap, concurrencyCap), events)
    requires var rs := After(Init(queueCap, concurrencyCap), events).requests;
      i < |rs| && j < |rs| && HoldsLock(rs[i].stage) && HoldsLock(rs[j].stage) && rs[i].key == rs[j].key
    ensures i == j
  {
    InitHoldsInv(queueCap, concurrencyCap);
    RunKeepsInv(Init(queueCap, concurrencyCap), events);
    var s := After(Init(queueCap, concurrencyCap), events);
    assert Uses(s.requests[i].stage, s.requests[i].stage.lock);
    assert Uses(s.requests[j].stage, s.requests[j].stage.lock);
    if i < j {
      TwoHoldersCount(s.requests, i, j);
    } else if j < i {
      TwoHoldersCount(s.requests, j, i);
    }
  }

  lemma StepKeepsLockTable(s: System, e: Event)
    requires Enabled(s, e)
    ensures forall k | k in s.locks :: k in Next(s, e).locks && Next(s, e).locks[k] == s.locks[k]
  { }

  /** A key's lock never changes once it exists. */
  lemma {:induction false} OneLockPerKey(s: System, events: seq<Event>)
    requires Runnable(s, events)
    ensures forall k | k in s.locks :: k in After(s, events).locks && After(s, events).locks[k] == s.locks[k]
    decreases |events|
  {
    if events != [] {
      StepKeepsLockTable(s, events[0]);
      OneLockPerKey(Next(s, events[0]), events[1..]);
    }
  }

  // ---------------------------------------------------------------- progress and termination

  /** Events that carry a request forward, as opposed to new arrivals, failures and cancellations. */
  predicate IsProgress(e: Event) {
    e.Begin? || e.Wake? || e.Resume? || e.GrantLock? || e.StillConnected? || e.CallReturned? || e.Pull?
  }

  lemma {:induction false} SomeActive(rs: seq<Request>) returns (i: nat)
    requires Total(rs, ConcurrencyShare) >= 1
    ensures i < |rs| && HoldsConcurrency(rs[i].stage)
  {
    if HoldsConcurrency(rs[0].stage) {
      i := 0;
    } else {
      var j := SomeActive(rs[1..]);
      i := j + 1;
    }
  }

  function ProgressOf(i: nat, stage: Stage, policy: Policy): Event {
    match stage
    case HandedOff => Begin(i, policy(i))
    case WaitingConcurrency => Wake(i)
    case Woken => Resume(i, policy(i))
    case WaitingLock(_) => GrantLock(i)
    case Probing(_, _) => StillConnected(i)
    case Calling(_, _) => CallReturned(i)
    case _ => Pull(i)
  }

  /** Which requests have to queue, and where, is for asyncio to decide. */
  type Policy = nat -> Queues

  predicate Obeys(e: Event, policy: Policy) {
    e.Begin? || e.Resume? ==> e.queues == policy(e.i)
  }

  /** A request past the concurrency semaphore leads to one that can move now. */
  lemma LockProgress(s: System, i: nat, policy: Policy) returns (e: Event)
    requires Inv(s) && i < |s.requests| && HoldsConcurrency(s.requests[i].stage)
    ensures IsProgress(e) && Enabled(s, e) && Obeys(e, policy)
  {
    var stage := s.requests[i].stage;
    if stage.WaitingLock? && stage.waitsFor in s.held {
      var j := HolderExists(s.requests, stage.waitsFor);
      e := ProgressOf(j, s.requests[j].stage, policy);
    } else {
      e := ProgressOf(i, stage, policy);
    }
  }

  /** Admitted work that is neither finished nor abandoned. */
  predicate InProgress(stage: Stage) {
    HoldsQueue(stage) && !stage.Abandoned?
  }

  lemma ForwardStep(s: System, i: nat, policy: Policy) returns (e: Event)
    requires Inv(s) && i < |s.requests| && InProgress(s.requests[i].stage)
    ensures IsProgress(e) && Enabled(s, e) && Obeys(e, policy)
  {
    if HoldsConcurrency(s.requests[i].stage) {
      e := LockProgress(s, i, policy);
    } else if s.requests[i].stage.HandedOff? || s.concurrency > 0 {
      e := ProgressOf(i, s.requests[i].stage, policy);
    } else {
      var j := SomeActive(s.requests);
      e := LockProgress(s, j, policy);
    }
  }

  /** Deadlock freedom: in every reachable state with admitted work in progress some request
      can move forward, without anyone being cancelled and wherever it is made to queue. */
  lemma NoDeadlock(queueCap: nat, concurrencyCap: nat, events: seq<Event>, i: nat, policy: Policy) returns (e: Event)
    requires concurrencyCap >= 1 && Runnable(Init(queueCap, concurrencyCap), events)
    requires var s := After(Init(queueCap, concurrencyCap), events);
      i < |s.requests| && InProgress(s.requests[i].stage)
    ensures IsProgress(e) && Enabled(After(Init(queueCap, concurrencyCap), events), e) && Obeys(e, policy)
  {
    hide *;
    InitHoldsInv(queueCap, concurrencyCap);
    RunKeepsInv(Init(queueCap, concurrencyCap), events);
    e := ForwardStep(After(Init(queueCap, concurrencyCap), events), i, policy);
  }

  /** An upper bound on the moves a request can still make. */
  function Weight(r: Request): nat {
    var left := if r.stage.Probing? || r.stage.Calling? || r.stage.Yielded?
                then (if r.stage.chunk < r.chunks then r.chunks - r.stage.chunk else 0) else r.chunks;
    match r.stage
    case Rejected => 0
    case Finished => 0
    case Abandoned => 0
    case HandedOff => 2 * left + 5
    case WaitingConcurrency => 2 * left + 4
    case Woken => 2 * left + 3
    case WaitingLock(_) => 2 * left + 2
    case Probing(_, _) => 2 * left + 1
    case Yielded(_, _) => 2 * left + 1
    case Calling(_, _) => 2 * left
  }

  function Rank(s: System): nat {
    Total(s.requests, Weight)
  }

  lemma StepLowersWeight(s: System, e: Event)
    requires FilesMatch(s) && Enabled(s, e) && !e.Arrive?
    ensures var s' := Next(s, e);
      && s'.requests == s.requests[e.i := s'.requests[e.i]]
      && Weight(s'.requests[e.i]) < Weight(s.requests[e.i])
  {
    assert WellStaged(s.requests[e.i]);
  }

  /** Every event that is not an arrival, failures and cancellations included, lowers the rank. */
  lemma StepLowersRank(s: System, e: Event)
    requires FilesMatch(s) && Enabled(s, e) && !e.Arrive?
    ensures Rank(Next(s, e)) < Rank(s)
  {
    StepLowersWeight(s, e);
    TotalUpdate(s.requests, e.i, Next(s, e).requests[e.i], Weight);
  }

  /** Termination: without new arrivals no run is longer than the rank of the state it starts in. */
  lemma {:induction false} RunsAreBounded(s: System, events: seq<Event>)
    requires Inv(s) && Runnable(s, events) && forall x | x in events :: !x.Arrive?
    ensures |events| + Rank(After(s, events)) <= Rank(s)
    decreases |events|
  {
    if events != [] {
      StepKeepsInv(s, events[0]);
      StepLowersRank(s, events[0]);
      RunsAreBounded(Next(s, events[0]), events[1..]);
    }
  }

  // ---------------------------------------------------------------- what a drained system keeps

  function AbandonedShare(r: Request): nat {
    if r.stage.Abandoned? then 1 else 0
  }

  /** Streams dropped before they were started. */
  function Leaked(s: System): nat {
    Total(s.requests, AbandonedShare)
  }

  function LeakedIds(s: System): set<nat> {
    set i: nat | i < |s.requests| && s.requests[i].stage.Abandoned?
  }

  /** What is left when everything but the abandoned streams is over. */
  ghost predicate Clean(s: System) {
    && s.queue + Leaked(s) == s.queueCap && s.concurrency == s.concurrencyCap
    && s.held == {} && s.files == LeakedIds(s)
    && forall i | 0 <= i < |s.requests| :: !InProgress(s.requests[i].stage)
  }

  lemma {:induction false} OnlyLeaksHold(rs: seq<Request>)
    requires forall i | 0 <= i < |rs| :: !InProgress(rs[i].stage)
    ensures Total(rs, QueueShare) == Total(rs, AbandonedShare) && Total(rs, ConcurrencyShare) == 0
    ensures forall l :: HoldersOf(rs, l) == 0
  {
    if rs != [] {
      OnlyLeaksHold(rs[1..]);
    }
  }

  lemma OverMeansClean(s: System)
    requires Inv(s) && forall i | 0 <= i < |s.requests| :: !InProgress(s.requests[i].stage)
    ensures Clean(s)
  {
    OnlyLeaksHold(s.requests);
    forall l ensures l !in s.held {
      assert HoldersOf(s.requests, l) == 0;
    }
    assert forall i | 0 <= i < |s.requests| && s.requests[i].stage.Abandoned? :: WellStaged(s.requests[i]);
  }

  /** A reachable state in which nothing can move forward has both semaphores full but for the
      queue permits of abandoned streams, every model lock free, and exactly their temp files. */
  lemma QuiescentIsClean(queueCap: nat, concurrencyCap: nat, events: seq<Event>)
    requires concurrencyCap >= 1 && Runnable(Init(queueCap, concurrencyCap), events)
    requires forall e :: Enabled(After(Init(queueCap, concurrencyCap), events), e) ==> !IsProgress(e)
    ensures Clean(After(Init(queueCap, concurrencyCap), events))
    ensures After(Init(queueCap, concurrencyCap), events).queue
         == queueCap - Leaked(After(Init(queueCap, concurrencyCap), events))
  {
    InitHoldsInv(queueCap, concurrencyCap);
    RunKeepsInv(Init(queueCap, concurrencyCap), events);
    var s := After(Init(queueCap, concurrencyCap), events);
    hide Inv, Enabled, IsProgress, InProgress, LeakedIds;
    forall i | 0 <= i < |s.requests| ensures !InProgress(s.requests[i].stage) {
      if InProgress(s.requests[i].stage) {
        var e := ForwardStep(s, i, _ => Nowhere);
      }
    }
    OverMeansClean(s);
  }

  /** An event other than an arrival moves one request that is in progress; only `Abandon`
      makes it leak. */
  lemma StepMoves(s: System, e: Event)
    requires Enabled(s, e) && !e.Arrive?
    ensures var s' := Next(s, e);
      && e.i < |s.requests| == |s'.requests| && s'.requests == s.requests[e.i := s'.requests[e.i]]
      && !s.requests[e.i].stage.Abandoned? && (s'.requests[e.i].stage.Abandoned? <==> e.Abandon?)
  { }

  lemma MoveLeaks(s: System, s': System, i: nat)
    requires i < |s.requests| == |s'.requests| && s'.requests == s.requests[i := s'.requests[i]]
    requires !s.requests[i].stage.Abandoned?
    ensures Leaked(s') == Leaked(s) + AbandonedShare(s'.requests[i])
    ensures LeakedIds(s') == if s'.requests[i].stage.Abandoned? then LeakedIds(s) + {i} else LeakedIds(s)
  {
    TotalUpdate(s.requests, i, s'.requests[i], AbandonedShare);
  }

  lemma ProgressKeepsLeaks(s: System, e: Event)
    requires Enabled(s, e) && IsProgress(e)
    ensures Leaked(Next(s, e)) == Leaked(s) && LeakedIds(Next(s, e)) == LeakedIds(s)
  {
    hide Next, Enabled, Leaked, LeakedIds;
    StepMoves(s, e);
    MoveLeaks(s, Next(s, e), e.i);
  }

  lemma ProgressLowersRank(s: System, e: Event)
    requires Inv(s) && Enabled(s, e) && IsProgress(e)
    ensures Rank(Next(s, e)) < Rank(s)
  {
    StepLowersRank(s, e);
  }

  /** A run of forward steps in which `policies` says, state by state, who has to queue. */
  predicate ForwardRun(s: System, events: seq<Event>, policies: System -> Policy)
    decreases |events|
  {
    events == []
    || (Enabled(s, events[0]) && IsProgress(events[0]) && Obeys(events[0], policies(s))
        && ForwardRun(Next(s, events[0]), events[1..], policies))
  }

  lemma {:induction false} DrainFrom(s: System, policies: System -> Policy) returns (events: seq<Event>)
    requires Inv(s)
    ensures Runnable(s, events) && ForwardRun(s, events, policies)
    ensures var end := After(s, events);
      Clean(end) && Leaked(end) == Leaked(s) && LeakedIds(end) == LeakedIds(s)
    decreases Rank(s)
  {
    hide Inv, Enabled, IsProgress, Obeys, Clean, Leaked, LeakedIds, Next, Rank;
    if i :| 0 <= i < |s.requests| && InProgress(s.requests[i].stage) {
      var e := ForwardStep(s, i, policies(s));
      StepKeepsInv(s, e);
      ProgressLowersRank(s, e);
      ProgressKeepsLeaks(s, e);
      var rest := DrainFrom(Next(s, e), policies);
      events := [e] + rest;
      assert events[1..] == rest;
    } else {
      events := [];
      OverMeansClean(s);
    }
  }

  /** From every reachable state the system can finish all work in progress by forward steps
      alone, wherever requests are made to queue on the way, and ends clean; the streams
      abandoned before stay as they are. */
  lemma CanDrain(queueCap: nat, concurrencyCap: nat, events: seq<Event>, policies: System -> Policy)
    returns (more: seq<Event>)
    requires concurrencyCap >= 1 && Runnable(Init(queueCap, concurrencyCap), events)
    ensures var s := After(Init(queueCap, concurrencyCap), events);
      && Runnable(s, more) && ForwardRun(s, more, policies)
      && var end := After(s, more); Clean(end) && Leaked(end) == Leaked(s) && LeakedIds(end) == LeakedIds(s)
  {
    hide *;
    InitHoldsInv(queueCap, concurrencyCap);
    RunKeepsInv(Init(queueCap, concurrencyCap), events);
    more := DrainFrom(After(Init(queueCap, concurrencyCap), events), policies);
  }

  lemma AdmitAppends(s: System, kind: Kind, key: LockKey, chunks: nat, queues: Queues)
    requires chunks >= 1
    ensures var rs := Admit(s, kind, key, chunks, queues).requests;
      |rs| == |s.requests| + 1 && rs == s.requests + [rs[|s.requests|]] && !rs[|s.requests|].stage.Abandoned?
  {
    if s.queue > 0 && !kind.Streaming? {
      EnterConcurrencyStage(Acquired(s, kind, key, chunks), |s.requests|, queues);
      hide EnterConcurrency;
    }
  }

  lemma StepKeepsLeaks(s: System, e: Event)
    requires Enabled(s, e)
    ensures |Next(s, e).requests| >= |s.requests| && Leaked(Next(s, e)) >= Leaked(s)
    ensures forall i | 0 <= i < |s.requests| && s.requests[i].stage.Abandoned? ::
              Next(s, e).requests[i] == s.requests[i]
  {
    var s' := Next(s, e);
    hide Admit, LeakedIds;
    if e.Arrive? {
      AdmitAppends(s, e.kind, e.key, e.chunks, e.queues);
      TotalAppend(s.requests, s'.requests[|s.requests|], AbandonedShare);
    } else {
      hide Enabled, Next, Leaked;
      StepMoves(s, e);
      MoveLeaks(s, s', e.i);
    }
  }

  lemma {:induction false} LeakStays(s: System, events: seq<Event>, i: nat)
    requires Runnable(s, events) && i < |s.requests| && s.requests[i].stage.Abandoned?
    ensures i < |After(s, events).requests| && After(s, events).requests[i].stage.Abandoned?
    ensures Leaked(After(s, events)) >= Leaked(s)
    decreases |events|
  {
    if events != [] {
      StepKeepsLeaks(s, events[0]);
      hide Next, Enabled, Leaked;
      LeakStays(Next(s, events[0]), events[1..], i);
    }
  }

  lemma {:induction false} LeaksAreAdmitted(rs: seq<Request>)
    ensures Total(rs, AbandonedShare) <= Total(rs, QueueShare)
  {
    if rs != [] {
      LeaksAreAdmitted(rs[1..]);
    }
  }

  /** The leak is permanent: a stream abandoned before it was started keeps its queue permit
      and its temp file in every later state, and as many of them as the queue is deep leave no
      permit for any later request. */
  lemma LeakIsPermanent(queueCap: nat, concurrencyCap: nat, events: seq<Event>, more: seq<Event>, i: nat)
    requires concurrencyCap >= 1 && Runnable(Init(queueCap, concurrencyCap), events)
    requires var s := After(Init(queueCap, concurrencyCap), events);
      i < |s.requests| && s.requests[i].stage.Abandoned? && Runnable(s, more)
    ensures var s := After(Init(queueCap, concurrencyCap), events);
      var end := After(s, more);
      && i < |end.requests| && end.requests[i].stage.Abandoned? && i in end.files
      && end.queue + Leaked(end) <= queueCap && (Leaked(s) == queueCap ==> end.queue == 0)
  {
    InitHoldsInv(queueCap, concurrencyCap);
    RunKeepsInv(Init(queueCap, concurrencyCap), events);
    var s := After(Init(queueCap, concurrencyCap), events);
    RunKeepsInv(s, more);
    LeakStays(s, more, i);
    var end := After(s, more);
    LeaksAreAdmitted(end.requests);
    assert WellStaged(end.requests[i]);
  }
}
