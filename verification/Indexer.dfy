/** The background semantic indexer: one worker future, coalesced paths, failure re-queue and
    full-sync debt. Every lock-protected region is one step; threads interleave freely. */
module Indexer {
  import opened PythonText

  type Path = string

  /** Where the worker's `_run` stands in one submitted job. */
  datatype Phase =
    | Queued
    | AtHead
    | Syncing(full: bool, paths: set<Path>)
    | FullReturned
    | Raised(paths: set<Path>)
    | Requeued
    | Returning
    | Done(ok: bool)

  /** One future: its progress, and whether `_record_completion` was attached to it and has run. */
  datatype Job = Job(phase: Phase, attached: bool, recorded: bool)

  /** The indexer's fields, the futures its executor handed out, and what callers are still owed.
      `owed` are the accepted paths not yet covered by a sync that captured them after their last
      enqueue and returned normally; `since` were enqueued after the running sync captured its paths;
      `debt` is a full sync that `start` promised and that has not returned normally yet. */
  datatype State = State(
    future: Option<nat>, lastError: bool,
    fullRequested: bool, fullRequired: bool, pending: set<Path>, followUp: bool,
    closed: bool, cancelled: bool, targeted: bool, jobs: seq<Job>,
    owed: set<Path>, since: set<Path>, debt: bool)
  {
    predicate Unfinished(j: nat) { j < |jobs| && !jobs[j].phase.Done? }

    predicate Running() { future.Some? && Unfinished(future.value) }

    predicate Work() { fullRequested || fullRequired || pending != {} }

    function At(j: nat, phase: Phase): State
      requires j < |jobs|
    {
      this.(jobs := jobs[j := jobs[j].(phase := phase)])
    }
  }

  function Initial(targeted: bool): State {
    State(None, false, false, false, {}, false, false, false, targeted, [], {}, {}, false)
  }

  datatype Event =
    | Start(accept: bool)
    | Enqueue(paths: set<Path>, accept: bool)
    | Begin(job: nat)
    | Head(job: nat)
    | SyncReturns(job: nat)
    | FullSettled(job: nat)
    | SyncRaises(job: nat)
    | Requeue(job: nat)
    | Finish(job: nat)
    | Attach(job: nat)
    | Record(job: nat, accept: bool)
    | WaitTurn(job: nat, accept: bool)
    | Shutdown
    | CancelQueued(job: nat)

  /** `_submit_locked`: the executor accepts the job or raises. */
  function Submit(s: State, accept: bool): State {
    var t := s.(cancelled := false);
    if accept then t.(lastError := false, future := Some(|t.jobs|), jobs := t.jobs + [Job(Queued, false, false)])
    else t.(lastError := true, future := if t.Running() then t.future else None)
  }

  /** Which steps some thread can take. */
  predicate Enabled(s: State, e: Event) {
    match e
    case Start(_) => true
    case Enqueue(_, _) => true
    case Begin(j) => j < |s.jobs| && s.jobs[j].phase == Queued
    case Head(j) => j < |s.jobs| && s.jobs[j].phase == AtHead
    case SyncReturns(j) => j < |s.jobs| && s.jobs[j].phase.Syncing?
    case FullSettled(j) => j < |s.jobs| && s.jobs[j].phase == FullReturned
    case SyncRaises(j) => j < |s.jobs| && s.jobs[j].phase.Syncing?
    case Requeue(j) => j < |s.jobs| && s.jobs[j].phase.Raised?
    case Finish(j) => j < |s.jobs| && (s.jobs[j].phase == Returning || s.jobs[j].phase == Requeued)
    case Attach(j) => j < |s.jobs| && !s.jobs[j].attached
    case Record(j, _) => j < |s.jobs| && s.jobs[j].phase.Done? && s.jobs[j].attached && !s.jobs[j].recorded
    case WaitTurn(j, _) => j < |s.jobs| && s.jobs[j].phase == Done(true)
    case Shutdown => true
    case CancelQueued(j) => j < |s.jobs| && s.jobs[j].phase == Queued
  }

  function Apply(s: State, e: Event): State
    requires Enabled(s, e)
  {
    match e
    case Start(accept) =>
      if s.closed || s.Running() then s
      else Submit(s.(fullRequested := true, debt := true), accept)
    case Enqueue(paths, accept) =>
      if s.closed || paths == {} then s
      else
        var t := s.(pending := s.pending + paths, owed := s.owed + paths, since := s.since + paths);
        if s.Running() then t.(followUp := true) else Submit(t, accept)
    case Begin(j) => s.At(j, AtHead)
    case Head(j) => HeadOf(s, j)
    case SyncReturns(j) =>
      var p := s.jobs[j].phase;
      var t := s.(owed := s.owed - (p.paths - s.since), debt := s.debt && !p.full);
      t.At(j, if p.full then FullReturned else AtHead)
    case FullSettled(j) => s.(fullRequired := false).At(j, AtHead)
    case SyncRaises(j) => s.At(j, Raised(s.jobs[j].phase.paths))
    case Requeue(j) =>
      (if s.closed then s else s.(pending := s.pending + s.jobs[j].phase.paths)).At(j, Requeued)
    case Finish(j) => s.At(j, Done(s.jobs[j].phase == Returning))
    case Attach(j) => s.(jobs := s.jobs[j := s.jobs[j].(attached := true)])
    case Record(j, accept) =>
      var t := s.(jobs := s.jobs[j := s.jobs[j].(recorded := true)]);
      if s.future != Some(j) then t
      else if s.jobs[j].phase.ok then
        if !s.closed && s.Work() then Submit(t, accept) else t
      else
        var u := t.(lastError := true);
        if !s.closed && s.followUp then Submit(u, accept) else u
    case WaitTurn(j, accept) =>
      if s.future == Some(j) && !s.closed && s.Work() then Submit(s, accept) else s
    case Shutdown =>
      if s.closed then s
      else s.(closed := true, cancelled := true, fullRequested := false, followUp := false, pending := {})
    case CancelQueued(j) => s.At(j, Done(false))
  }

  /** The worker's turn at the top of its loop. */
  function HeadOf(s: State, j: nat): State
    requires j < |s.jobs|
  {
    if s.closed then s.At(j, Returning)
    else if s.fullRequested || s.fullRequired then
      s.(fullRequested := false, fullRequired := true, pending := {}, followUp := false, since := {})
       .At(j, Syncing(true, s.pending))
    else if s.pending != {} then
      var full := !s.targeted;
      s.(fullRequired := s.fullRequired || full, pending := {}, followUp := false, since := {})
       .At(j, Syncing(full, s.pending))
    else s.At(j, Returning)
  }

  // ----- what every step keeps

  /** The paths in the hands of the unfinished job. */
  function Captured(s: State): set<Path> {
    if s.Running() && (s.jobs[s.future.value].phase.Syncing? || s.jobs[s.future.value].phase.Raised?)
    then s.jobs[s.future.value].phase.paths else {}
  }

  /** A completion callback that has not run yet, or a job that is not done. */
  predicate Outstanding(s: State, j: nat) {
    j < |s.jobs| && (!s.jobs[j].phase.Done? || !s.jobs[j].recorded)
  }

  ghost predicate SingleFlight(s: State) {
    && (s.future.Some? ==> s.future.value < |s.jobs|)
    && (forall j: nat :: s.Unfinished(j) ==> s.future == Some(j))
    && forall j :: 0 <= j < |s.jobs| && s.jobs[j].recorded ==> s.jobs[j].phase.Done?
  }

  ghost predicate NothingLost(s: State) {
    !s.closed ==> s.owed <= s.pending + Captured(s) && s.since <= s.pending
  }

  ghost predicate DebtKept(s: State) {
    && (s.debt && !s.closed ==> s.fullRequested || s.fullRequired)
    && (s.Running() && s.jobs[s.future.value].phase == FullReturned ==> !s.debt)
  }

  ghost predicate Explained(s: State) {
    !s.closed && s.Work() ==> s.lastError || (s.future.Some? && Outstanding(s, s.future.value))
  }

  ghost predicate StaysClosed(s: State) {
    s.closed ==> s.cancelled && s.pending == {} && !s.fullRequested && !s.followUp
  }

  ghost predicate Inv(s: State) {
    SingleFlight(s) && NothingLost(s) && DebtKept(s) && Explained(s) && StaysClosed(s)
  }

  /** Submitting is only ever done with no unfinished future, by an open indexer. */
  lemma SubmitKeeps(s: State, accept: bool)
    requires SingleFlight(s) && !s.Running() && !s.closed && s.owed <= s.pending && s.since <= s.pending
    requires s.debt ==> s.fullRequested || s.fullRequired
    ensures Inv(Submit(s, accept))
  {
    var t := Submit(s, accept);
    if accept {
      assert t.jobs[|s.jobs|] == Job(Queued, false, false);
      assert forall j: nat :: t.Unfinished(j) ==> s.Unfinished(j) || j == |s.jobs|;
    }
  }

  /** Moving the worker within its job, the job still unfinished. */
  lemma MoveKeeps(s: State, j: nat, phase: Phase)
    requires SingleFlight(s) && s.Unfinished(j) && !phase.Done?
    ensures SingleFlight(s.At(j, phase)) && s.At(j, phase).future == Some(j) && s.At(j, phase).Running()
    ensures s.At(j, phase).jobs[j].phase == phase
  {
    var t := s.At(j, phase);
    assert forall k: nat :: t.Unfinished(k) ==> s.Unfinished(k);
  }

  lemma DoneKeeps(s: State, j: nat, ok: bool)
    requires Inv(s) && s.Unfinished(j) && Captured(s) == {}
    requires !s.jobs[j].recorded
    ensures Inv(s.At(j, Done(ok)))
  {
    var t := s.At(j, Done(ok));
    assert forall k: nat :: t.Unfinished(k) ==> s.Unfinished(k) && k != j;
  }

  lemma HeadKeeps(s: State, j: nat)
    requires Inv(s) && s.Unfinished(j) && s.jobs[j].phase == AtHead
    ensures Inv(HeadOf(s, j))
  {
    if s.closed {
      MoveKeeps(s, j, Returning);
    } else if s.fullRequested || s.fullRequired {
      MoveKeeps(s, j, Syncing(true, s.pending));
    } else if s.pending != {} {
      MoveKeeps(s, j, Syncing(!s.targeted, s.pending));
    } else {
      MoveKeeps(s, j, Returning);
    }
  }

  lemma BeginKeeps(s: State, e: Event)
    requires Inv(s) && Enabled(s, e) && (e.Begin? || e.FullSettled?)
    ensures Inv(Apply(s, e))
  {
    match e
    case Begin(j) => MoveKeeps(s, j, AtHead);
    case FullSettled(j) => MoveKeeps(s, j, AtHead);
  }

  lemma ReturnKeeps(s: State, j: nat)
    requires Inv(s) && Enabled(s, SyncReturns(j))
    ensures Inv(Apply(s, SyncReturns(j)))
  {
    var p := s.jobs[j].phase;
    var t := s.(owed := s.owed - (p.paths - s.since), debt := s.debt && !p.full);
    assert s.Unfinished(j) && s.future == Some(j);
    if !s.closed {
      OwedAfterReturn(s.owed, s.pending, p.paths, s.since);
    }
    MoveKeeps(t, j, if p.full then FullReturned else AtHead);
  }

  lemma OwedAfterReturn(owed: set<Path>, pending: set<Path>, paths: set<Path>, since: set<Path>)
    requires owed <= pending + paths && since <= pending
    ensures owed - (paths - since) <= pending
  {
  }

  lemma RaiseKeeps(s: State, e: Event)
    requires Inv(s) && Enabled(s, e) && (e.SyncRaises? || e.Requeue?)
    ensures Inv(Apply(s, e))
  {
    match e
    case SyncRaises(j) => MoveKeeps(s, j, Raised(s.jobs[j].phase.paths));
    case Requeue(j) => MoveKeeps(s, j, Requeued);
  }

  lemma CallerKeeps(s: State, e: Event)
    requires Inv(s) && Enabled(s, e) && (e.Start? || e.Enqueue? || e.WaitTurn? || e.Shutdown?)
    ensures Inv(Apply(s, e))
  {
    match e
    case Start(accept) =>
      if !s.closed && !s.Running() {
        SubmitKeeps(s.(fullRequested := true, debt := true), accept);
      }
    case Enqueue(paths, accept) =>
      if !s.closed && paths != {} && !s.Running() {
        SubmitKeeps(s.(pending := s.pending + paths, owed := s.owed + paths, since := s.since + paths), accept);
      }
    case WaitTurn(j, accept) =>
      if s.future == Some(j) && !s.closed && s.Work() {
        SubmitKeeps(s, accept);
      }
    case Shutdown =>
  }

  lemma RecordKeeps(s: State, j: nat, accept: bool)
    requires Inv(s) && Enabled(s, Record(j, accept))
    ensures Inv(Apply(s, Record(j, accept)))
  {
    var t := s.(jobs := s.jobs[j := s.jobs[j].(recorded := true)]);
    assert forall k: nat :: t.Unfinished(k) <==> s.Unfinished(k);
    if s.future == Some(j) {
      if s.jobs[j].phase.ok && !s.closed && s.Work() {
        SubmitKeeps(t, accept);
      } else if !s.jobs[j].phase.ok && !s.closed && s.followUp {
        SubmitKeeps(t.(lastError := true), accept);
      }
    }
  }

  lemma AttachKeeps(s: State, j: nat)
    requires Inv(s) && Enabled(s, Attach(j))
    ensures Inv(Apply(s, Attach(j)))
  {
    var t := Apply(s, Attach(j));
    assert forall k: nat :: t.Unfinished(k) <==> s.Unfinished(k);
  }

  lemma StepKeeps(s: State, e: Event)
    requires Inv(s) && Enabled(s, e)
    ensures Inv(Apply(s, e))
  {
    hide NothingLost, DebtKept, Explained, StaysClosed;
    assert (e.Finish? || e.CancelQueued?) ==> s.Unfinished(e.job) && s.future == Some(e.job);
    match e
    case Head(j) => HeadKeeps(s, j);
    case Record(j, accept) => RecordKeeps(s, j, accept);
    case Attach(j) => AttachKeeps(s, j);
    case Finish(j) => DoneKeeps(s, j, s.jobs[j].phase == Returning);
    case CancelQueued(j) => DoneKeeps(s, j, false);
    case Begin(_) => BeginKeeps(s, e);
    case SyncReturns(j) => ReturnKeeps(s, j);
    case FullSettled(_) => BeginKeeps(s, e);
    case SyncRaises(_) => RaiseKeeps(s, e);
    case Requeue(_) => RaiseKeeps(s, e);
    case Start(_) => CallerKeeps(s, e);
    case Enqueue(_, _) => CallerKeeps(s, e);
    case WaitTurn(_, _) => CallerKeeps(s, e);
    case Shutdown => CallerKeeps(s, e);
  }

  // ----- every interleaving

  ghost predicate Legal(s: State, trace: seq<Event>)
    decreases |trace|
  {
    trace == [] || (Enabled(s, trace[0]) && Legal(Apply(s, trace[0]), trace[1..]))
  }

  ghost function Run(s: State, trace: seq<Event>): State
    requires Legal(s, trace)
    decreases |trace|
  {
    if trace == [] then s else Run(Apply(s, trace[0]), trace[1..])
  }

  lemma {:induction false} RunKeeps(s: State, trace: seq<Event>)
    requires Inv(s) && Legal(s, trace)
    ensures Inv(Run(s, trace))
    decreases |trace|
  {
    hide Apply, Inv, Enabled;
    if trace != [] {
      StepKeeps(s, trace[0]);
      RunKeeps(Apply(s, trace[0]), trace[1..]);
    }
  }

  /** In every interleaving: at most one future is unfinished; before shutdown every accepted path that no
      completed sync covered is pending or in the unfinished job's hands; full-sync debt is on record; and
      once every future and callback has settled, work left over is explained by a recorded error. */
  lemma EveryInterleaving(targeted: bool, trace: seq<Event>)
    requires Legal(Initial(targeted), trace)
    ensures var s := Run(Initial(targeted), trace);
            && (forall i: nat, j: nat :: s.Unfinished(i) && s.Unfinished(j) ==> i == j)
            && (!s.closed ==> forall p <- s.owed :: p in s.pending || p in Captured(s))
            && (!s.closed && s.debt ==> s.fullRequested || s.fullRequired)
            && (!s.closed && s.Work() && (forall j: nat :: !Outstanding(s, j)) ==> s.lastError)
            && (s.closed ==> s.cancelled && s.pending == {})
  {
    RunKeeps(Initial(targeted), trace);
  }

  /** After shutdown no step reopens, clears the cancel event, queues a path or submits work. */
  lemma ClosedForGood(s: State, trace: seq<Event>)
    requires Inv(s) && s.closed && Legal(s, trace)
    ensures var t := Run(s, trace);
            t.closed && t.cancelled && t.pending == {} && !t.fullRequested && |t.jobs| == |s.jobs| && t.future == s.future
    decreases |trace|
  {
    if trace != [] {
      StepKeeps(s, trace[0]);
      ClosedStep(s, trace[0]);
      ClosedForGood(Apply(s, trace[0]), trace[1..]);
    }
  }

  lemma ClosedStep(s: State, e: Event)
    requires Inv(s) && s.closed && Enabled(s, e)
    ensures var t := Apply(s, e);
            t.closed && |t.jobs| == |s.jobs| && t.future == s.future
  {
  }

  /** A failed sync or a refused submission keeps the debt and the paths it was working on. */
  lemma FailureKeepsWork(s: State, e: Event)
    requires Inv(s) && Enabled(s, e) && !s.closed && (e.SyncRaises? || e.Requeue? || (e.Finish? && s.jobs[e.job].phase == Requeued))
    ensures var t := Apply(s, e);
            t.debt == s.debt && t.owed == s.owed && t.fullRequired == s.fullRequired
            && t.pending + Captured(t) == s.pending + Captured(s)
  {
    assert s.future == Some(e.job);
  }

  // ----- which kind of pass runs

  /** No full pass runs, is asked for or is owed. */
  ghost predicate NothingFull(s: State) {
    && s.targeted && !s.fullRequested && !s.fullRequired && !s.debt
    && forall j :: 0 <= j < |s.jobs| ==> s.jobs[j].phase != FullReturned && !(s.jobs[j].phase.Syncing? && s.jobs[j].phase.full)
  }

  /** Every pass is a full one. */
  ghost predicate AlwaysFull(s: State) {
    !s.targeted && forall j :: 0 <= j < |s.jobs| && s.jobs[j].phase.Syncing? ==> s.jobs[j].phase.full
  }

  /** Jobs as they were, or newly queued. */
  ghost predicate OnlyQueues(s: State, t: State) {
    && t.targeted == s.targeted && t.fullRequired == s.fullRequired && |s.jobs| <= |t.jobs|
    && forall k :: 0 <= k < |t.jobs| ==> t.jobs[k].phase == if k < |s.jobs| then s.jobs[k].phase else Queued
  }

  lemma SubmitQueues(s: State, accept: bool)
    ensures OnlyQueues(s, Submit(s, accept)) && Submit(s, accept).fullRequested == s.fullRequested && Submit(s, accept).debt == s.debt
  {
  }

  predicate MovesJob(e: Event) {
    e.Begin? || e.Head? || e.SyncReturns? || e.FullSettled? || e.SyncRaises? || e.Requeue? || e.Finish? || e.CancelQueued?
  }

  ghost predicate Quiet(s: State, t: State) {
    OnlyQueues(s, t) && (t.fullRequested ==> s.fullRequested) && t.debt == s.debt
  }

  lemma RecordIsQuiet(s: State, j: nat, accept: bool)
    requires Enabled(s, Record(j, accept))
    ensures Quiet(s, Apply(s, Record(j, accept)))
  {
    var t := s.(jobs := s.jobs[j := s.jobs[j].(recorded := true)]);
    SubmitQueues(t, accept);
    SubmitQueues(t.(lastError := true), accept);
    hide Submit;
  }

  lemma EnqueueIsQuiet(s: State, paths: set<Path>, accept: bool)
    ensures Quiet(s, Apply(s, Enqueue(paths, accept)))
  {
    var t := s.(pending := s.pending + paths, owed := s.owed + paths, since := s.since + paths);
    SubmitQueues(t, accept);
    hide Submit;
  }

  lemma WaitIsQuiet(s: State, j: nat, accept: bool)
    requires Enabled(s, WaitTurn(j, accept))
    ensures Quiet(s, Apply(s, WaitTurn(j, accept)))
  {
    SubmitQueues(s, accept);
    hide Submit;
  }

  lemma StartQueues(s: State, accept: bool)
    ensures OnlyQueues(s, Apply(s, Start(accept)))
  {
    SubmitQueues(s.(fullRequested := true, debt := true), accept);
    hide Submit;
  }

  lemma CallersQueue(s: State, e: Event)
    requires Enabled(s, e) && !MovesJob(e)
    ensures var t := Apply(s, e); OnlyQueues(s, t) && (!e.Start? ==> Quiet(s, t))
  {
    match e
    case Start(accept) => StartQueues(s, accept);
    case Enqueue(paths, accept) => EnqueueIsQuiet(s, paths, accept);
    case Record(j, accept) => RecordIsQuiet(s, j, accept);
    case WaitTurn(j, accept) => WaitIsQuiet(s, j, accept);
    case Attach(_) =>
    case Shutdown =>
  }

  lemma QueuesKeepKind(s: State, t: State)
    requires OnlyQueues(s, t)
    ensures AlwaysFull(s) ==> AlwaysFull(t)
    ensures NothingFull(s) && !t.fullRequested && !t.debt ==> NothingFull(t)
  {
    assert forall k :: 0 <= k < |s.jobs| ==> t.jobs[k].phase == s.jobs[k].phase;
    assert forall k :: |s.jobs| <= k < |t.jobs| ==> t.jobs[k].phase == Queued;
  }

  /** What a worker's step makes of its job. */
  ghost predicate Moved(s: State, t: State, j: nat) {
    && j < |s.jobs| && |t.jobs| == |s.jobs| && t.targeted == s.targeted
    && t.jobs == s.jobs[j := s.jobs[j].(phase := t.jobs[j].phase)]
    && (t.debt ==> s.debt) && (t.fullRequested ==> s.fullRequested)
    && var p := t.jobs[j].phase;
       && (p == FullReturned ==> s.jobs[j].phase.Syncing? && s.jobs[j].phase.full)
       && (p.Syncing? ==> if p.full then s.fullRequested || s.fullRequired || !s.targeted else s.targeted)
       && (t.fullRequired ==> s.fullRequired || s.fullRequested || !s.targeted)
  }

  lemma HeadMoves(s: State, j: nat)
    requires j < |s.jobs|
    ensures Moved(s, HeadOf(s, j), j)
  {
  }

  lemma WorkerMoves(s: State, e: Event)
    requires Enabled(s, e) && MovesJob(e)
    ensures Moved(s, Apply(s, e), e.job)
  {
    if e.Head? {
      HeadMoves(s, e.job);
    }
    hide HeadOf;
  }

  lemma MovesKeepKind(s: State, t: State, j: nat)
    requires Moved(s, t, j)
    ensures AlwaysFull(s) ==> AlwaysFull(t)
    ensures NothingFull(s) ==> NothingFull(t)
  {
    assert forall k :: 0 <= k < |s.jobs| && k != j ==> t.jobs[k] == s.jobs[k];
  }

  lemma KindKept(s: State, e: Event)
    requires Enabled(s, e)
    ensures NothingFull(s) && !e.Start? ==> NothingFull(Apply(s, e))
    ensures AlwaysFull(s) ==> AlwaysFull(Apply(s, e))
  {
    var t := Apply(s, e);
    if MovesJob(e) {
      WorkerMoves(s, e);
      MovesKeepKind(s, t, e.job);
    } else {
      CallersQueue(s, e);
      QueuesKeepKind(s, t);
    }
    hide Apply, Enabled, OnlyQueues, Moved;
  }

  lemma {:induction false} KindsKept(s: State, trace: seq<Event>)
    requires Legal(s, trace)
    ensures NothingFull(s) && (forall e <- trace :: !e.Start?) ==> NothingFull(Run(s, trace))
    ensures AlwaysFull(s) ==> AlwaysFull(Run(s, trace))
    decreases |trace|
  {
    hide Apply, Enabled, NothingFull, AlwaysFull;
    if trace != [] {
      KindKept(s, trace[0]);
      assert trace[0] in trace && forall e <- trace[1..] :: e in trace;
      KindsKept(Apply(s, trace[0]), trace[1..]);
    }
  }

  /** In every interleaving: an indexer that can sync paths and was never started runs no full pass and owes none; one
      that cannot runs no other. */
  lemma PassKinds(targeted: bool, trace: seq<Event>)
    requires Legal(Initial(targeted), trace)
    ensures var s := Run(Initial(targeted), trace);
            && (targeted && (forall e <- trace :: !e.Start?) ==>
                  !s.fullRequested && !s.fullRequired && !s.debt
                  && forall j :: 0 <= j < |s.jobs| && s.jobs[j].phase.Syncing? ==> !s.jobs[j].phase.full)
            && (!targeted ==> forall j :: 0 <= j < |s.jobs| && s.jobs[j].phase.Syncing? ==> s.jobs[j].phase.full)
  {
    KindsKept(Initial(targeted), trace);
  }

  /** In every interleaving a pass begins exactly when there is work and no shutdown; it takes all pending paths, it is
      put on record when it is full, and it is not full only if paths can be synced and no full pass is asked for or
      owed. */
  lemma PassBegins(targeted: bool, trace: seq<Event>, j: nat)
    requires Legal(Initial(targeted), trace) && Enabled(Run(Initial(targeted), trace), Head(j))
    ensures var s := Run(Initial(targeted), trace);
            var t := Apply(s, Head(j));
            var p := t.jobs[j].phase;
            && p.Syncing? == (!s.closed && (s.fullRequested || s.fullRequired || s.pending != {}))
            && (if p.Syncing? then p.paths == s.pending && t.pending == {} else p == Returning && t.pending == s.pending)
            && (p.Syncing? && p.full ==> t.fullRequired && (s.fullRequested || s.fullRequired || !targeted))
            && (p.Syncing? && !p.full ==> targeted && !s.fullRequested && !s.fullRequired && !s.debt)
  {
    RunKeeps(Initial(targeted), trace);
    TargetedKept(Initial(targeted), trace);
  }

  lemma {:induction false} TargetedKept(s: State, trace: seq<Event>)
    requires Legal(s, trace)
    ensures Run(s, trace).targeted == s.targeted
    decreases |trace|
  {
    hide Apply, Enabled;
    if trace != [] {
      if MovesJob(trace[0]) {
        WorkerMoves(s, trace[0]);
      } else {
        CallersQueue(s, trace[0]);
      }
      TargetedKept(Apply(s, trace[0]), trace[1..]);
    }
  }

  // ----- paths enqueued during a pass

  /** From its head to its end a pass has a follow-up requested if paths were enqueued meanwhile. */
  ghost predicate FollowedUp(s: State) {
    !s.closed && s.Running() && s.since != {} && Captures(s.jobs[s.future.value].phase) ==> s.followUp
  }

  predicate Captures(phase: Phase) { phase.Syncing? || phase.FullReturned? || phase.Raised? || phase.Requeued? }

  lemma FollowUpStep(s: State, e: Event)
    requires Inv(s) && FollowedUp(s) && Enabled(s, e)
    ensures FollowedUp(Apply(s, e))
  {
    hide NothingLost, DebtKept, Explained, StaysClosed, FollowedUp, Apply;
    if MovesJob(e) {
      assert s.Unfinished(e.job) && s.future == Some(e.job);
      FollowUpMove(s, e);
    } else {
      FollowUpCall(s, e);
    }
  }

  lemma FollowUpMove(s: State, e: Event)
    requires FollowedUp(s) && Enabled(s, e) && MovesJob(e) && s.Unfinished(e.job) && s.future == Some(e.job)
    ensures FollowedUp(Apply(s, e))
  {
  }

  /** After a submission the current job holds no paths yet; after a refused one nothing runs that did not before. */
  lemma SubmitFollows(s: State, accept: bool)
    requires !s.Running()
    ensures FollowedUp(Submit(s, accept))
  {
  }

  lemma FollowUpCall(s: State, e: Event)
    requires FollowedUp(s) && Enabled(s, e) && !MovesJob(e)
    requires SingleFlight(s)
    ensures FollowedUp(Apply(s, e))
  {
    match e
    case Start(accept) =>
      if !s.closed && !s.Running() {
        SubmitFollows(s.(fullRequested := true, debt := true), accept);
      }
    case Enqueue(paths, accept) =>
      if !s.closed && paths != {} && !s.Running() {
        SubmitFollows(s.(pending := s.pending + paths, owed := s.owed + paths, since := s.since + paths), accept);
      }
    case Record(j, accept) => FollowUpRecord(s, j, accept);
    case WaitTurn(j, accept) =>
      if s.future == Some(j) {
        SubmitFollows(s, accept);
      }
    case Attach(_) =>
    case Shutdown =>
  }

  lemma FollowUpRecord(s: State, j: nat, accept: bool)
    requires FollowedUp(s) && Enabled(s, Record(j, accept))
    ensures FollowedUp(Apply(s, Record(j, accept)))
  {
    var t := s.(jobs := s.jobs[j := s.jobs[j].(recorded := true)]);
    if s.future == Some(j) {
      SubmitFollows(t, accept);
      SubmitFollows(t.(lastError := true), accept);
    }
    hide Submit;
  }

  lemma {:induction false} FollowUpRun(s: State, trace: seq<Event>)
    requires Inv(s) && FollowedUp(s) && Legal(s, trace)
    ensures FollowedUp(Run(s, trace)) && Inv(Run(s, trace))
    decreases |trace|
  {
    hide Apply, Enabled, Inv, FollowedUp;
    if trace != [] {
      StepKeeps(s, trace[0]);
      FollowUpStep(s, trace[0]);
      FollowUpRun(Apply(s, trace[0]), trace[1..]);
    }
  }

  /** In every interleaving, when a pass fails during which paths were enqueued, its completion submits the next one,
      with those paths still pending. */
  lemma FailedPassIsFollowed(targeted: bool, trace: seq<Event>, j: nat)
    requires Legal(Initial(targeted), trace)
    requires var s := Run(Initial(targeted), trace);
             Enabled(s, Finish(j)) && s.jobs[j].phase == Requeued && s.jobs[j].attached && !s.closed && s.since != {}
    ensures var t := Apply(Run(Initial(targeted), trace), Finish(j));
            Enabled(t, Record(j, true)) &&
            var u := Apply(t, Record(j, true));
            && u.future == Some(|t.jobs|) && u.Running() && u.jobs[|t.jobs|].phase == Queued
            && t.since <= u.pending && !u.cancelled
  {
    FollowUpRun(Initial(targeted), trace);
    var s := Run(Initial(targeted), trace);
    assert s.Unfinished(j) && s.future == Some(j) && s.Running() && Captures(s.jobs[j].phase);
    assert s.followUp && !s.jobs[j].recorded;
  }

  // ----- the indexer object

  datatype StartResult = ShutDown | NotStarted | Started

  class BackgroundIndexer {
    const targeted: bool
    var future: Option<nat>
    var lastError: bool
    var fullSyncRequested: bool
    var fullSyncRequired: bool
    var pendingPaths: set<Path>
    var followUpRequested: bool
    var closed: bool
    var cancelEvent: bool
    /** The futures the executor handed out, with their workers' progress. */
    var jobs: seq<Job>
    ghost var owed: set<Path>
    ghost var since: set<Path>
    ghost var debt: bool

    ghost function View(): State
      reads this
    {
      State(future, lastError, fullSyncRequested, fullSyncRequired, pendingPaths, followUpRequested,
            closed, cancelEvent, targeted, jobs, owed, since, debt)
    }

    constructor (targeted: bool)
      ensures View() == Initial(targeted)
    {
      this.targeted := targeted;
      future, lastError, fullSyncRequested, fullSyncRequired := None, false, false, false;
      pendingPaths, followUpRequested, closed, cancelEvent, jobs := {}, false, false, false, [];
      owed, since, debt := {}, {}, false;
    }

    predicate FutureRunning()
      reads this
    {
      future.Some? && future.value < |jobs| && !jobs[future.value].phase.Done?
    }

    /** `accept` tells whether the executor takes the job; a refusal is the submission's exception. */
    method SubmitLocked(accept: bool) returns (submitted: bool)
      modifies this`cancelEvent, this`lastError, this`future, this`jobs
      ensures View() == Submit(old(View()), accept) && submitted == accept
      ensures !cancelEvent && lastError == !accept
      ensures jobs == old(jobs) + (if accept then [Job(Queued, false, false)] else [])
      ensures future == if accept then Some(|old(jobs)|) else if old(FutureRunning()) then old(future) else None
    {
      cancelEvent := false;
      if !accept {
        lastError := true;
        if future.Some? && !FutureRunning() {
          future := None;
        }
        return false;
      }
      lastError := false;
      future := Some(|jobs|);
      jobs := jobs + [Job(Queued, false, false)];
      return true;
    }

    method Start(accept: bool) returns (r: StartResult)
      modifies this
      ensures View() == Apply(old(View()), Event.Start(accept))
      ensures r == if old(closed) then ShutDown else if old(FutureRunning()) || !accept then NotStarted else Started
      ensures var begins := old(!closed && !FutureRunning());
              && fullSyncRequested == (old(fullSyncRequested) || begins) && debt == (old(debt) || begins)
              && |jobs| == |old(jobs)| + if begins && accept then 1 else 0
    {
      if closed {
        return ShutDown;
      }
      if FutureRunning() {
        return NotStarted;
      }
      fullSyncRequested := true;
      debt := true;
      var submitted := SubmitLocked(accept);
      return if submitted then Started else NotStarted;
    }

    method EnqueuePaths(paths: set<Path>, requireSubmission: bool, accept: bool) returns (added: nat)
      modifies this
      ensures View() == Apply(old(View()), Enqueue(paths, accept))
      ensures added == if old(closed) || (requireSubmission && !old(FutureRunning()) && !accept) then 0
                       else |paths - old(pendingPaths)|
      ensures !old(closed) ==> pendingPaths == old(pendingPaths) + paths && owed == old(owed) + paths
      ensures old(closed) ==> pendingPaths == old(pendingPaths) && jobs == old(jobs)
      ensures paths != {} && !old(closed) ==>
                if old(FutureRunning()) then followUpRequested && jobs == old(jobs)
                else |jobs| == |old(jobs)| + if accept then 1 else 0
    {
      if paths == {} {
        return 0;
      }
      if closed {
        return 0;
      }
      var addedPaths := paths - pendingPaths;
      pendingPaths := pendingPaths + paths;
      owed, since := owed + paths, since + paths;
      if FutureRunning() {
        followUpRequested := true;
      } else {
        var submitted := SubmitLocked(accept);
        if requireSubmission && !submitted {
          return 0;
        }
      }
      return |addedPaths|;
    }

    method MoveJob(j: nat, phase: Phase)
      requires j < |jobs|
      modifies this`jobs
      ensures View() == old(View()).At(j, phase)
    {
      jobs := jobs[j := jobs[j].(phase := phase)];
    }

    /** The locked region at the top of the worker's loop. */
    method RunHead(j: nat)
      requires Enabled(View(), Head(j))
      modifies this
      ensures View() == Apply(old(View()), Head(j))
      ensures j < |jobs| && jobs[j].phase == if old(closed || !View().Work()) then Returning
                                             else Syncing(old(fullSyncRequested || fullSyncRequired) || !targeted, old(pendingPaths))
      ensures fullSyncRequired == (old(fullSyncRequired) || (jobs[j].phase.Syncing? && jobs[j].phase.full))
    {
      if closed {
        MoveJob(j, Returning);
        return;
      }
      var operationFull;
      if fullSyncRequested || fullSyncRequired {
        fullSyncRequested := false;
        fullSyncRequired := true;
        operationFull := true;
      } else if pendingPaths != {} {
        operationFull := !targeted;
        if operationFull {
          fullSyncRequired := true;
        }
      } else {
        MoveJob(j, Returning);
        return;
      }
      var paths := pendingPaths;
      pendingPaths := {};
      followUpRequested := false;
      since := {};
      MoveJob(j, Syncing(operationFull, paths));
    }

    /** A sync call returned normally; a full one still has to settle its debt under the lock. */
    method SyncReturned(j: nat)
      requires Enabled(View(), SyncReturns(j))
      modifies this`owed, this`debt, this`jobs
      ensures View() == Apply(old(View()), SyncReturns(j))
    {
      var full := jobs[j].phase.full;
      owed, debt := owed - (jobs[j].phase.paths - since), debt && !full;
      MoveJob(j, if full then FullReturned else AtHead);
    }

    method SettleFull(j: nat)
      requires Enabled(View(), FullSettled(j))
      modifies this`fullSyncRequired, this`jobs
      ensures View() == Apply(old(View()), FullSettled(j))
      ensures !fullSyncRequired
    {
      fullSyncRequired := false;
      MoveJob(j, AtHead);
    }

    /** The exception handler of the worker: captured paths become pending again, unless closed. */
    method RequeueFailed(j: nat)
      requires Enabled(View(), Requeue(j))
      modifies this`pendingPaths, this`jobs
      ensures View() == Apply(old(View()), Requeue(j))
      ensures pendingPaths == old(pendingPaths) + if closed then {} else old(jobs)[j].phase.paths
    {
      if !closed {
        pendingPaths := pendingPaths + jobs[j].phase.paths;
      }
      MoveJob(j, Requeued);
    }

    method RecordCompletion(j: nat, accept: bool)
      requires Enabled(View(), Record(j, accept))
      modifies this
      ensures View() == Apply(old(View()), Record(j, accept))
      ensures var failed := !old(jobs)[j].phase.ok;
              var again := old(future) == Some(j) && !closed && if failed then old(followUpRequested) else old(View().Work());
              && |jobs| == |old(jobs)| + (if again && accept then 1 else 0)
              && (old(future) == Some(j) && failed && !again ==> lastError)
    {
      jobs := jobs[j := jobs[j].(recorded := true)];
      if !jobs[j].phase.ok {
        if future == Some(j) {
          lastError := true;
          if !closed && followUpRequested {
            var _ := SubmitLocked(accept);
          }
        }
        return;
      }
      if future == Some(j) && !closed && (fullSyncRequested || fullSyncRequired || pendingPaths != {}) {
        var _ := SubmitLocked(accept);
      }
    }

    /** The locked region of `wait` after the awaited future returned normally; false ends the wait. */
    method WaitRegion(j: nat, accept: bool) returns (again: bool)
      requires Enabled(View(), WaitTurn(j, accept))
      modifies this
      ensures View() == Apply(old(View()), WaitTurn(j, accept))
      ensures again <==> old(future) != Some(j) || (!closed && old(View().Work()) && accept)
    {
      if future != Some(j) {
        return true;
      }
      again := false;
      if !closed && (fullSyncRequested || fullSyncRequired || pendingPaths != {}) {
        again := SubmitLocked(accept);
      }
    }

    method ShutDownRegion()
      modifies this
      ensures View() == Apply(old(View()), Shutdown)
      ensures closed && (!old(closed) ==> cancelEvent && !fullSyncRequested && !followUpRequested && pendingPaths == {})
      ensures old(closed) ==> View() == old(View())
    {
      if closed {
        return;
      }
      closed := true;
      cancelEvent := true;
      fullSyncRequested := false;
      followUpRequested := false;
      pendingPaths := {};
    }
  }
}
