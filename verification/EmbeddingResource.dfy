/** The shared embedding resource: generation pins, one backend lease, deferred invalidation and close.
    Every region under the condition is one step of one thread; threads interleave freely. */
module EmbeddingResource {
  import opened PythonText

  type Tid = nat

  /** Where a thread stands between two regions. */
  datatype Phase =
    | Free
    | Calling
    | CallFailed
    | Releasing
    | Closing(revision: nat)

  /** The thread-local part: depth of nested operations, the pinned generation, and the phase. */
  datatype Thread = Thread(depth: nat, generation: nat, phase: Phase)

  datatype State = State(
    generation: nat, pins: nat, busy: bool, invalidating: bool, cleaning: bool, cleanupFailed: bool,
    revision: nat, closing: bool, closed: bool, threads: map<Tid, Thread>)
  {
    predicate Open() { !closing && !cleanupFailed }

    function Put(t: Tid, thread: Thread): State { this.(threads := threads[t := thread]) }

    function Move(t: Tid, phase: Phase): State
      requires t in threads
    {
      Put(t, threads[t].(phase := phase))
    }
  }

  function Initial(tids: set<Tid>): State {
    State(0, 0, false, false, false, false, 0, false, false, map t | t in tids :: Thread(0, 0, Free))
  }

  /** `ok` is what the pipeline's own cancellation check says; `completed` is whether the release succeeded. */
  datatype Event =
    | Enter(t: Tid, expected: Option<nat>, ok: bool)
    | Leave(t: Tid)
    | Lease(t: Tid, ok: bool)
    | CallRaises(t: Tid)
    | CallEnds(t: Tid)
    | Invalidate(t: Tid)
    | Close(t: Tid)
    | CloseTurn(t: Tid)
    | ReleaseEnds(t: Tid, completed: bool)

  predicate Enabled(s: State, e: Event) {
    e.t in s.threads &&
    var thread := s.threads[e.t];
    match e
    case Enter(_, _, _) => thread.phase.Free?
    case Leave(_) => thread.phase.Free? && thread.depth > 0
    case Lease(_, _) => thread.phase.Free? && thread.depth > 0
    case CallRaises(_) => thread.phase.Calling?
    case CallEnds(_) => thread.phase.Calling? || thread.phase.CallFailed?
    case Invalidate(_) => thread.phase.Free?
    case Close(_) => thread.phase.Free? && thread.depth == 0
    case CloseTurn(_) => thread.phase.Closing?
    case ReleaseEnds(_, _) => thread.phase.Releasing?
  }

  predicate Reservable(s: State) { s.pins == 0 && !s.cleaning && s.invalidating }

  /** `_reserve_cleanup`: the thread that reserves goes on to release the generation. */
  function Reserve(s: State, t: Tid): State
    requires t in s.threads
  {
    if Reservable(s) then s.(cleaning := true).Move(t, Releasing) else s
  }

  /** One iteration of close's loop; a raise and a return both set the thread free. */
  function CloseLoop(s: State, t: Tid, revision: nat): State
    requires t in s.threads
  {
    if s.closed || (s.revision != revision && s.cleanupFailed) then s.Move(t, Free)
    else if Reservable(s) then Reserve(s, t)
    else s.Move(t, Phase.Closing(revision))
  }

  function Apply(s: State, e: Event): State
    requires Enabled(s, e)
  {
    var thread := s.threads[e.t];
    match e
    case Enter(t, expected, ok) =>
      if !ok then s
      else if thread.depth > 0 then
        if expected.Some? && expected.value != thread.generation then s
        else s.Put(t, thread.(depth := thread.depth + 1))
      else if s.invalidating || !s.Open() || (expected.Some? && expected.value != s.generation) then s
      else s.(pins := s.pins + 1).Put(t, Thread(1, s.generation, Free))
    case Leave(t) =>
      if thread.depth > 1 then s.Put(t, thread.(depth := thread.depth - 1))
      else Reserve(s.(pins := if s.pins > 0 then s.pins - 1 else 0).Put(t, thread.(depth := 0)), t)
    case Lease(t, ok) => if s.busy || !s.Open() || !ok then s else s.(busy := true).Move(t, Calling)
    case CallRaises(t) => s.(invalidating := true).Move(t, CallFailed)
    case CallEnds(t) => s.(busy := false).Move(t, Free)
    case Invalidate(t) =>
      if !s.Open() then s
      else if thread.depth > 0 then s.(invalidating := true)
      else Reserve(s.(invalidating := true), t)
    case Close(t) =>
      var u := s.(closing := true);
      if s.closed then u else CloseLoop(u.(invalidating := true), t, s.revision)
    case CloseTurn(t) => CloseLoop(s, t, thread.phase.revision)
    case ReleaseEnds(t, completed) =>
      s.(cleanupFailed := !completed, revision := s.revision + 1,
         generation := if completed then s.generation + 1 else s.generation,
         cleaning := false, invalidating := false, closed := s.closed || (s.closing && completed)).Move(t, Free)
  }

  // ----- what every step keeps

  function Pinned(s: State): set<Tid> { set t | t in s.threads && s.threads[t].depth > 0 }

  predicate InCall(s: State, t: Tid) { t in s.threads && (s.threads[t].phase.Calling? || s.threads[t].phase.CallFailed?) }

  predicate InRelease(s: State, t: Tid) { t in s.threads && s.threads[t].phase.Releasing? }

  /** The pin counter counts the pinned threads, and each of them holds the current generation. */
  ghost predicate PinsCounted(s: State) {
    && s.pins == |Pinned(s)|
    && forall t <- Pinned(s) :: s.threads[t].generation == s.generation
  }

  /** One backend call at a time, by a pinned thread; a failed call has already asked for invalidation. */
  ghost predicate SingleLease(s: State) {
    && (forall t :: InCall(s, t) ==> s.busy && t in Pinned(s))
    && (forall t, u :: InCall(s, t) && InCall(s, u) ==> t == u)
    && (s.busy ==> exists t :: InCall(s, t))
    && (forall t :: InCall(s, t) && s.threads[t].phase.CallFailed? ==> s.invalidating)
  }

  /** One cleaner at a time, with nothing pinned. */
  ghost predicate SingleCleaner(s: State) {
    && (forall t :: InRelease(s, t) ==> s.cleaning && t !in Pinned(s))
    && (forall t, u :: InRelease(s, t) && InRelease(s, u) ==> t == u)
    && (s.cleaning ==> s.invalidating && s.pins == 0 && exists t :: InRelease(s, t))
  }

  /** A requested invalidation is drained by whoever holds the last pin, or is being released already. */
  ghost predicate NotStranded(s: State) {
    s.invalidating ==> s.pins > 0 || s.cleaning
  }

  /** Closing ends: it is closed for good, or a release is still due, or the waiting closer sees a failure. */
  ghost predicate CloseEnds(s: State) {
    && (s.closed ==> s.closing && s.pins == 0 && !s.invalidating)
    && (s.closing ==> s.closed || s.invalidating || s.cleanupFailed)
    && forall t :: t in s.threads && s.threads[t].phase.Closing? ==>
         && s.closing && s.threads[t].phase.revision <= s.revision && t !in Pinned(s)
         && (s.closed || s.invalidating || (s.revision != s.threads[t].phase.revision && s.cleanupFailed))
  }

  ghost predicate Inv(s: State) {
    PinsCounted(s) && SingleLease(s) && SingleCleaner(s) && NotStranded(s) && CloseEnds(s)
  }

  lemma PinCounts(s: State, t: Tid)
    requires PinsCounted(s) && t in s.threads && s.threads[t].depth == 0
    ensures PinsCounted(s.(pins := s.pins + 1).Put(t, Thread(1, s.generation, Free)))
  {
    var u := s.(pins := s.pins + 1).Put(t, Thread(1, s.generation, Free));
    assert Pinned(u) == Pinned(s) + {t};
  }

  lemma PinKeeps(s: State, t: Tid)
    requires Inv(s) && t in s.threads && s.threads[t].phase.Free? && s.threads[t].depth == 0
    requires !s.invalidating && s.Open()
    ensures Inv(s.(pins := s.pins + 1).Put(t, Thread(1, s.generation, Free)))
  {
    PinCounts(s, t);
    hide PinsCounted;
    var u := s.(pins := s.pins + 1).Put(t, Thread(1, s.generation, Free));
    assert Pinned(u) == Pinned(s) + {t};
    assert forall v :: InCall(u, v) <==> InCall(s, v);
    assert forall v :: InRelease(u, v) <==> InRelease(s, v);
  }

  lemma DepthKeeps(s: State, t: Tid, depth: nat)
    requires Inv(s) && t in s.threads && s.threads[t].phase.Free? && s.threads[t].depth > 0 && depth > 0
    ensures Inv(s.Put(t, s.threads[t].(depth := depth)))
  {
    var u := s.Put(t, s.threads[t].(depth := depth));
    assert Pinned(u) == Pinned(s);
    assert forall v :: InCall(u, v) <==> InCall(s, v);
    assert forall v :: InRelease(u, v) <==> InRelease(s, v);
  }

  /** All of the invariant that can hold before the last pin's holder decides about the cleanup. */
  ghost predicate Unreserved(s: State) { PinsCounted(s) && SingleLease(s) && SingleCleaner(s) && CloseEnds(s) }

  lemma ReserveKeeps(s: State, t: Tid)
    requires Unreserved(s) && t in s.threads && t !in Pinned(s)
    requires s.threads[t].phase.Free? || s.threads[t].phase.Closing?
    ensures Inv(Reserve(s, t))
  {
    if Reservable(s) {
      var u := Reserve(s, t);
      assert InRelease(u, t);
      assert forall v :: InRelease(u, v) ==> InRelease(s, v) || v == t;
      assert forall v :: InCall(u, v) <==> InCall(s, v);
      assert Pinned(u) == Pinned(s);
    }
  }

  lemma UnpinKeeps(s: State, t: Tid)
    requires Inv(s) && t in s.threads && s.threads[t].phase.Free? && s.threads[t].depth > 0
    ensures s.pins > 0
    ensures Unreserved(s.(pins := s.pins - 1).Put(t, s.threads[t].(depth := 0)))
  {
    assert t in Pinned(s);
    assert !s.cleaning && !s.closed;
    var u := s.(pins := s.pins - 1).Put(t, s.threads[t].(depth := 0));
    assert Pinned(u) == Pinned(s) - {t};
    assert forall v :: InCall(u, v) <==> InCall(s, v);
    assert forall v :: InRelease(u, v) <==> InRelease(s, v);
  }

  lemma LeaseKeeps(s: State, e: Event)
    requires Inv(s) && Enabled(s, e) && (e.Lease? || e.CallRaises? || e.CallEnds?)
    ensures Inv(Apply(s, e))
  {
    var t, u := e.t, Apply(s, e);
    assert Pinned(u) == Pinned(s);
    assert forall v :: InRelease(u, v) <==> InRelease(s, v);
    assert !e.Lease? ==> InCall(s, t);
    assert forall v :: v != t ==> (InCall(u, v) <==> InCall(s, v));
    assert u.busy && u != s ==> InCall(u, t);
    assert t in Pinned(s);
  }

  lemma InvalidateKeeps(s: State, t: Tid)
    requires Inv(s) && Enabled(s, Invalidate(t))
    ensures Inv(Apply(s, Invalidate(t)))
  {
    if s.Open() {
      var u := s.(invalidating := true);
      assert Pinned(u) == Pinned(s);
      assert forall v :: InCall(u, v) <==> InCall(s, v);
      assert forall v :: InRelease(u, v) <==> InRelease(s, v);
      if s.threads[t].depth > 0 {
        assert t in Pinned(s);
      } else {
        ReserveKeeps(u, t);
      }
    }
  }

  lemma MoveKeeps(s: State, t: Tid, phase: Phase)
    requires Unreserved(s) && t in s.threads && t !in Pinned(s) && !InRelease(s, t)
    requires phase.Free? || (phase.Closing? && s.closing && phase.revision <= s.revision && s.invalidating)
    ensures Unreserved(s.Move(t, phase))
    ensures NotStranded(s) ==> NotStranded(s.Move(t, phase))
  {
    var u := s.Move(t, phase);
    assert Pinned(u) == Pinned(s);
    assert !InCall(s, t);
    assert forall v :: InCall(u, v) <==> InCall(s, v);
    assert forall v :: InRelease(u, v) <==> InRelease(s, v);
  }

  lemma CloseLoopKeeps(s: State, t: Tid, revision: nat)
    requires Unreserved(s) && t in s.threads && t !in Pinned(s) && s.closing && revision <= s.revision
    requires s.threads[t].phase.Free? || s.threads[t].phase.Closing?
    requires s.closed || s.invalidating || (s.revision != revision && s.cleanupFailed)
    requires s.closed || (s.revision != revision && s.cleanupFailed) ==> NotStranded(s)
    ensures Inv(CloseLoop(s, t, revision))
  {
    hide PinsCounted, SingleLease, SingleCleaner, CloseEnds;
    assert !InRelease(s, t);
    if s.closed || (s.revision != revision && s.cleanupFailed) {
      MoveKeeps(s, t, Free);
    } else if Reservable(s) {
      ReserveKeeps(s, t);
    } else {
      MoveKeeps(s, t, Phase.Closing(revision));
    }
  }

  lemma CloseKeeps(s: State, t: Tid)
    requires Inv(s) && Enabled(s, Close(t))
    ensures Inv(Apply(s, Close(t)))
  {
    var u := s.(closing := true);
    if !s.closed {
      var v := u.(invalidating := true);
      assert Pinned(v) == Pinned(s);
      assert forall w :: InCall(v, w) <==> InCall(s, w);
      assert forall w :: InRelease(v, w) <==> InRelease(s, w);
      CloseLoopKeeps(v, t, s.revision);
    } else {
      assert u == s;
    }
  }

  lemma ReleaseKeeps(s: State, t: Tid, completed: bool)
    requires Inv(s) && Enabled(s, ReleaseEnds(t, completed))
    ensures Inv(Apply(s, ReleaseEnds(t, completed)))
  {
    var u := Apply(s, ReleaseEnds(t, completed));
    assert InRelease(s, t);
    assert Pinned(u) == Pinned(s);
    assert forall v :: InCall(u, v) <==> InCall(s, v);
    assert forall v :: InRelease(u, v) ==> InRelease(s, v) && v != t;
  }

  lemma StepKeeps(s: State, e: Event)
    requires Inv(s) && Enabled(s, e)
    ensures Inv(Apply(s, e))
  {
    var thread := s.threads[e.t];
    match e
    case Enter(t, expected, ok) =>
      if thread.depth > 0 {
        DepthKeeps(s, t, thread.depth + 1);
      } else if !s.invalidating && s.Open() {
        PinKeeps(s, t);
      }
    case Leave(t) =>
      if thread.depth > 1 {
        DepthKeeps(s, t, thread.depth - 1);
      } else {
        UnpinKeeps(s, t);
        ReserveKeeps(s.(pins := s.pins - 1).Put(t, thread.(depth := 0)), t);
      }
    case Lease(_, _) => LeaseKeeps(s, e);
    case CallRaises(_) => LeaseKeeps(s, e);
    case CallEnds(_) => LeaseKeeps(s, e);
    case Invalidate(t) => InvalidateKeeps(s, t);
    case Close(t) => CloseKeeps(s, t);
    case CloseTurn(t) => CloseLoopKeeps(s, t, thread.phase.revision);
    case ReleaseEnds(t, completed) => ReleaseKeeps(s, t, completed);
  }

  // ----- every interleaving

  ghost predicate Legal(s: State, trace: seq<Event>)
    decreases |trace|
  {
    trace == [] || (Enabled(s, trace[0]) && Legal(Apply(s, trace[0]), trace[1..]))
  }

  ghost function Run(s: State, trace: seq<Event>): State
    requires Legal(s, trace)
    decreases |trace|
  {
    if trace == [] then s else Run(Apply(s, trace[0]), trace[1..])
  }

  lemma {:induction false} RunKeeps(s: State, trace: seq<Event>)
    requires Inv(s) && Legal(s, trace)
    ensures Inv(Run(s, trace))
    decreases |trace|
  {
    hide Apply, Inv, Enabled;
    if trace != [] {
      StepKeeps(s, trace[0]);
      RunKeeps(Apply(s, trace[0]), trace[1..]);
    }
  }

  /** In every interleaving: each pinned thread holds the current generation; a release runs alone, with
      nothing pinned and no backend call; backend calls never overlap; an invalidation with nothing pinned
      is being released; and a close that has neither finished nor failed is waiting for one of those two. */
  lemma EveryInterleaving(tids: set<Tid>, trace: seq<Event>)
    requires Legal(Initial(tids), trace)
    ensures var s := Run(Initial(tids), trace);
            && s.pins == |Pinned(s)|
            && (forall t <- Pinned(s) :: s.threads[t].generation == s.generation)
            && (forall t, u :: InCall(s, t) && InCall(s, u) ==> t == u)
            && (forall t, u :: InRelease(s, t) ==> u !in Pinned(s) && !InCall(s, u) && (InRelease(s, u) ==> t == u))
            && (s.invalidating && Pinned(s) == {} ==> exists t :: InRelease(s, t))
            && (s.closing && !s.closed && !s.cleanupFailed ==> Pinned(s) != {} || exists t :: InRelease(s, t))
            && (s.closed ==> Pinned(s) == {})
  {
    var s := Initial(tids);
    assert Pinned(s) == {};
    assert forall t :: !InCall(s, t) && !InRelease(s, t);
    RunKeeps(s, trace);
  }

  /** After any run, a thread is admitted exactly when its own check passes, it expects nothing or the generation that
      is current, and it is pinned already or the resource is open with no invalidation pending. Once admitted it holds
      the current generation, so no thread ever holds another than it expects. */
  lemma AdmittedExactly(tids: set<Tid>, trace: seq<Event>, t: Tid, expected: Option<nat>, ok: bool)
    requires Legal(Initial(tids), trace) && Enabled(Run(Initial(tids), trace), Enter(t, expected, ok))
    ensures var s := Run(Initial(tids), trace);
            var u := Apply(s, Enter(t, expected, ok));
            && (u != s <==> && ok && (expected.None? || expected.value == s.generation)
                            && (t in Pinned(s) || (!s.invalidating && !s.closing && !s.cleanupFailed)))
            && (u != s ==> && u.threads[t].depth == s.threads[t].depth + 1 && u.threads[t].generation == s.generation
                           && u.generation == s.generation && Pinned(u) == Pinned(s) + {t})
  {
    hide Legal, Run;
    EveryInterleaving(tids, trace);
    var s := Run(Initial(tids), trace);
    assert t in Pinned(s) <==> s.threads[t].depth > 0;
  }

  /** How many releases of a run ended, or ended well. */
  function Releases(trace: seq<Event>, completed: bool): nat {
    if trace == [] then 0
    else (if trace[0].ReleaseEnds? && (completed ==> trace[0].completed) then 1 else 0) + Releases(trace[1..], completed)
  }

  lemma ReleaseCounted(s: State, e: Event)
    requires Enabled(s, e)
    ensures var u := Apply(s, e);
            && u.generation == s.generation + Releases([e], true) && u.revision == s.revision + Releases([e], false)
            && (u.closed ==> s.closed || (s.closing && e.ReleaseEnds? && e.completed))
  {
    assert [e][1..] == [];
  }

  /** The generation counts the releases that ended well, the revision all that ended; nothing else moves them. */
  lemma {:induction false} GenerationCountsReleases(s: State, trace: seq<Event>)
    requires Legal(s, trace)
    ensures Run(s, trace).generation == s.generation + Releases(trace, true)
    ensures Run(s, trace).revision == s.revision + Releases(trace, false)
    decreases |trace|
  {
    hide Apply, Enabled;
    if trace != [] {
      ReleaseCounted(s, trace[0]);
      assert [trace[0]][1..] == [];
      GenerationCountsReleases(Apply(s, trace[0]), trace[1..]);
    }
  }

  /** No step publishes a generation, or starts releasing one, while anything stays pinned. */
  lemma GenerationHeld(s: State, e: Event)
    requires Inv(s) && Enabled(s, e)
    ensures var u := Apply(s, e);
            && (Pinned(s) != {} ==> u.generation == s.generation && u.revision == s.revision)
            && (Pinned(u) != {} ==> !u.cleaning)
  {
    StepKeeps(s, e);
    if e.ReleaseEnds? {
      assert InRelease(s, e.t);
    }
  }

  lemma CleaningPinsNothing(s: State, t: Tid, revision: nat)
    requires t in s.threads
    ensures Pinned(Reserve(s, t)) == Pinned(s) && Reserve(s, t).closing == s.closing
    ensures Pinned(CloseLoop(s, t, revision)) == Pinned(s) && CloseLoop(s, t, revision).closing == s.closing
  {
  }

  lemma ClosingStep(s: State, e: Event)
    requires Enabled(s, e) && s.closing
    ensures Apply(s, e).closing && Pinned(Apply(s, e)) <= Pinned(s)
  {
    hide Reserve, CloseLoop;
    var thread := s.threads[e.t];
    match e
    case Leave(t) => CleaningPinsNothing(s.(pins := if s.pins > 0 then s.pins - 1 else 0).Put(t, thread.(depth := 0)), t, 0);
    case Close(t) => CleaningPinsNothing(s.(closing := true).(invalidating := true), t, s.revision);
    case CloseTurn(t) => CleaningPinsNothing(s, t, thread.phase.revision);
    case Enter(_, _, _) =>
    case Lease(_, _) =>
    case CallRaises(_) =>
    case CallEnds(_) =>
    case Invalidate(_) =>
    case ReleaseEnds(_, _) =>
  }

  /** Once closing, no thread is ever pinned anew. */
  lemma {:induction false} NoPinAfterClosing(s: State, trace: seq<Event>)
    requires s.closing && Legal(s, trace)
    ensures Run(s, trace).closing && Pinned(Run(s, trace)) <= Pinned(s)
    decreases |trace|
  {
    hide Apply;
    if trace != [] {
      ClosingStep(s, trace[0]);
      NoPinAfterClosing(Apply(s, trace[0]), trace[1..]);
    }
  }

  /** A closer that wakes with nothing pinned and nothing being released does not wait again: it returns,
      raises, or takes the release upon itself. */
  lemma CloserNeverStuck(s: State, t: Tid)
    requires Inv(s) && Enabled(s, CloseTurn(t)) && Pinned(s) == {} && !s.cleaning
    ensures !Apply(s, CloseTurn(t)).threads[t].phase.Closing?
  {
  }

  // ----- the resource object

  datatype Admission = Admitted(generation: nat) | Refused | Waiting

  class SharedEmbeddingResource {
    var generation: nat
    var pins: nat
    var busy: bool
    var invalidating: bool
    var cleaning: bool
    var cleanupFailed: bool
    var cleanupRevision: nat
    var closing: bool
    var closed: bool
    /** The thread-local records. */
    var local: map<Tid, Thread>

    function View(): State
      reads this
    {
      State(generation, pins, busy, invalidating, cleaning, cleanupFailed, cleanupRevision, closing, closed, local)
    }

    constructor (tids: set<Tid>)
      ensures View() == Initial(tids)
    {
      generation, pins, busy, invalidating, cleaning := 0, 0, false, false, false;
      cleanupFailed, cleanupRevision, closing, closed := false, 0, false, false;
      local := map t | t in tids :: Thread(0, 0, Free);
    }

    /** The entry of `operation`: one turn of its admission loop. */
    method Enter(t: Tid, expected: Option<nat>, ok: bool) returns (r: Admission)
      requires Enabled(View(), Event.Enter(t, expected, ok))
      modifies this`pins, this`local
      ensures View() == Apply(old(View()), Event.Enter(t, expected, ok))
      ensures r.Admitted? <==> View() != old(View())
      ensures r.Admitted? ==> local[t].depth == old(local[t].depth) + 1 && r.generation == local[t].generation
      ensures r.Waiting? ==> invalidating && !closing && !cleanupFailed
      ensures var held := if old(local[t].depth) > 0 then old(local[t].generation) else generation;
              && (r.Admitted? <==> && ok && (expected.None? || expected.value == held)
                                   && (old(local[t].depth) > 0 || (!invalidating && !closing && !cleanupFailed)))
              && (r.Admitted? ==> r.generation == held)
      ensures pins == old(pins) + if r.Admitted? && old(local[t].depth) == 0 then 1 else 0
      ensures forall u :: u in local && u != t ==> u in old(local) && local[u] == old(local)[u]
    {
      var thread := local[t];
      if !ok {
        return Refused;
      }
      if thread.depth > 0 {
        if expected.Some? && expected.value != thread.generation {
          return Refused;
        }
        local := local[t := thread.(depth := thread.depth + 1)];
        return Admitted(thread.generation);
      }
      if closing || cleanupFailed {
        return Refused;
      }
      if invalidating {
        return Waiting;
      }
      if expected.Some? && expected.value != generation {
        return Refused;
      }
      pins := pins + 1;
      local := local[t := Thread(1, generation, Free)];
      return Admitted(generation);
    }

    method ReserveCleanup(t: Tid) returns (cleanup: bool)
      requires t in local
      modifies this`cleaning, this`local
      ensures View() == Reserve(old(View()), t) && cleanup == Reservable(old(View()))
      ensures cleanup <==> pins == 0 && !old(cleaning) && invalidating
      ensures cleaning == (old(cleaning) || cleanup)
      ensures local == if cleanup then old(local)[t := old(local)[t].(phase := Releasing)] else old(local)
    {
      if pins > 0 || cleaning || !invalidating {
        return false;
      }
      cleaning := true;
      local := local[t := local[t].(phase := Releasing)];
      return true;
    }

    /** The exit of `operation`; true when this thread must now release the generation. */
    method Leave(t: Tid) returns (cleanup: bool)
      requires Enabled(View(), Event.Leave(t))
      modifies this`pins, this`cleaning, this`local
      ensures View() == Apply(old(View()), Event.Leave(t))
      ensures cleanup <==> View().cleaning && !old(cleaning)
      ensures local[t].depth == old(local[t].depth) - 1
      ensures pins == if old(local[t].depth) == 1 && old(pins) > 0 then old(pins) - 1 else old(pins)
      ensures cleanup <==> old(local[t].depth) == 1 && pins == 0 && !old(cleaning) && invalidating
    {
      var thread := local[t];
      if thread.depth > 1 {
        local := local[t := thread.(depth := thread.depth - 1)];
        return false;
      }
      local := local[t := thread.(depth := 0)];
      pins := if pins > 0 then pins - 1 else 0;
      cleanup := ReserveCleanup(t);
    }

    /** One turn of the wait for the backend lease. */
    method Lease(t: Tid, ok: bool) returns (leased: bool)
      requires Enabled(View(), Event.Lease(t, ok))
      modifies this`busy, this`local
      ensures View() == Apply(old(View()), Event.Lease(t, ok))
      ensures leased <==> !old(busy) && !closing && !cleanupFailed && ok
      ensures busy == (old(busy) || leased) && (leased ==> local[t].phase.Calling?)
    {
      if closing || cleanupFailed || !ok || busy {
        return false;
      }
      busy := true;
      local := local[t := local[t].(phase := Calling)];
      return true;
    }

    method CallFails(t: Tid)
      requires Enabled(View(), CallRaises(t))
      modifies this`invalidating, this`local
      ensures View() == Apply(old(View()), CallRaises(t))
      ensures invalidating && local[t].phase.CallFailed?
    {
      invalidating := true;
      local := local[t := local[t].(phase := CallFailed)];
    }

    method ReturnLease(t: Tid)
      requires Enabled(View(), CallEnds(t))
      modifies this`busy, this`local
      ensures View() == Apply(old(View()), CallEnds(t))
      ensures !busy && local[t].phase.Free?
    {
      busy := false;
      local := local[t := local[t].(phase := Free)];
    }

    /** The first region of `invalidate_embedding_compatibility_cache`; the rest of it only waits. */
    method Invalidate(t: Tid) returns (cleanup: bool)
      requires Enabled(View(), Event.Invalidate(t))
      modifies this`invalidating, this`cleaning, this`local
      ensures View() == Apply(old(View()), Event.Invalidate(t))
      ensures cleanup <==> View().cleaning && !old(cleaning)
      ensures invalidating == (old(invalidating) || (!closing && !cleanupFailed))
      ensures cleanup <==> !closing && !cleanupFailed && local[t].depth == 0 && pins == 0 && !old(cleaning)
    {
      if closing || cleanupFailed {
        return false;
      }
      invalidating := true;
      if local[t].depth > 0 {
        return false;
      }
      cleanup := ReserveCleanup(t);
    }

    method CloseIteration(t: Tid, revision: nat) returns (cleanup: bool)
      requires t in local
      modifies this`cleaning, this`local
      ensures View() == CloseLoop(old(View()), t, revision)
      ensures cleanup <==> View().cleaning && !old(cleaning)
      ensures local[t].phase == if closed || (cleanupRevision != revision && cleanupFailed) then Free
                                else if pins == 0 && !old(cleaning) && invalidating then Releasing
                                else Phase.Closing(revision)
    {
      if closed || (cleanupRevision != revision && cleanupFailed) {
        local := local[t := local[t].(phase := Free)];
        return false;
      }
      cleanup := ReserveCleanup(t);
      if !cleanup {
        local := local[t := local[t].(phase := Phase.Closing(revision))];
      }
    }

    method Close(t: Tid) returns (cleanup: bool)
      requires Enabled(View(), Event.Close(t))
      modifies this`closing, this`invalidating, this`cleaning, this`local
      ensures View() == Apply(old(View()), Event.Close(t))
      ensures cleanup <==> View().cleaning && !old(cleaning)
      ensures closing && (closed || invalidating) && (closed ==> local == old(local))
      ensures !closed ==> local[t].phase == if pins == 0 && !old(cleaning) then Releasing else Phase.Closing(cleanupRevision)
    {
      closing := true;
      if closed {
        return false;
      }
      invalidating := true;
      cleanup := CloseIteration(t, cleanupRevision);
    }

    /** The last region of `_release_generation`. */
    method FinishRelease(t: Tid, completed: bool)
      requires Enabled(View(), ReleaseEnds(t, completed))
      modifies this
      ensures View() == Apply(old(View()), ReleaseEnds(t, completed))
      ensures generation == old(generation) + (if completed then 1 else 0) && cleanupRevision == old(cleanupRevision) + 1
      ensures cleanupFailed == !completed && !cleaning && !invalidating && local[t].phase.Free?
      ensures closing == old(closing) && closed == (old(closed) || (closing && completed)) && pins == old(pins)
    {
      cleanupFailed := !completed;
      cleanupRevision := cleanupRevision + 1;
      if completed {
        generation := generation + 1;
      }
      cleaning := false;
      invalidating := false;
      if closing && completed {
        closed := true;
      }
      local := local[t := local[t].(phase := Free)];
    }
  }
}
