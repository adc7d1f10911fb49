/** Disposal of a descriptor and its guard when closing may fail before or after taking effect, and
    descriptor numbers are reused by everybody else. */
module ResourceCleanup {
  import opened PythonText

  datatype CleanupState =
    OwnedOpen | ReleaseInProgress | VerifiedReleased | SafeToRetry | Ambiguous | TerminalComplete

  // ----- one allocation's history: what `ReleaseEvidence.run` does with its callbacks

  datatype Answer = Yes | No | Raises

  datatype CloseOutcome = Native | Returned | Raised

  /** How the callbacks of one `run` would behave, in the order the code may consult them. */
  datatype Script = Script(before: Answer, prepared: bool, close: CloseOutcome, after: Answer, last: Answer)

  datatype Verdict = Verdict(state: CleanupState, dispatched: bool, raised: bool)

  function Attempt(state: CleanupState, s: Script): Verdict {
    if state.VerifiedReleased? then Verdict(state, false, false)
    else if s.before.Yes? then Verdict(VerifiedReleased, false, false)
    else if state.Ambiguous? || state.ReleaseInProgress? then
      Verdict(if s.before.No? then Ambiguous else state, false, true)
    else if s.before.Raises? || !s.prepared then Verdict(SafeToRetry, false, true)
    else if s.close.Native? || (s.close.Returned? && s.after.Yes?) then Verdict(VerifiedReleased, true, false)
    else Verdict(if s.last.Yes? then VerifiedReleased else Ambiguous, true, true)
  }

  /** `run` returns normally only with a verified release. */
  lemma RaisedUnlessReleased(state: CleanupState, s: Script)
    ensures !Attempt(state, s).raised ==> Attempt(state, s).state.VerifiedReleased?
    ensures !Attempt(state, s).state.OwnedOpen?
  {
  }

  function Attempts(state: CleanupState, scripts: seq<Script>): CleanupState
    decreases |scripts|
  {
    if scripts == [] then state else Attempts(Attempt(state, scripts[0]).state, scripts[1..])
  }

  function Dispatches(state: CleanupState, scripts: seq<Script>): nat
    decreases |scripts|
  {
    if scripts == [] then 0
    else
      var v := Attempt(state, scripts[0]);
      (if v.dispatched then 1 else 0) + Dispatches(v.state, scripts[1..])
  }

  /** However often release is attempted and however its callbacks behave, the close is dispatched at most
      once, and never for a history that is released, ambiguous or in progress. */
  lemma {:induction false} AtMostOneDispatch(state: CleanupState, scripts: seq<Script>)
    ensures Dispatches(state, scripts) <= 1
    ensures state.VerifiedReleased? || state.Ambiguous? || state.ReleaseInProgress? ==> Dispatches(state, scripts) == 0
    decreases |scripts|
  {
    if scripts != [] {
      AtMostOneDispatch(Attempt(state, scripts[0]).state, scripts[1..]);
    }
  }

  /** Doubt comes from a dispatched close alone: as long as none was dispatched, a history that began open can be tried
      again or is released, and once one was, it is released or in doubt for good. */
  lemma {:induction false} DoubtNeedsDispatch(state: CleanupState, scripts: seq<Script>)
    requires state.OwnedOpen? || state.SafeToRetry?
    ensures var last := Attempts(state, scripts);
            if Dispatches(state, scripts) > 0 then last.VerifiedReleased? || last.Ambiguous?
            else last.VerifiedReleased? || last.SafeToRetry? || (scripts == [] && last == state)
    decreases |scripts|
  {
    if scripts != [] {
      var v := Attempt(state, scripts[0]);
      if v.state.SafeToRetry? {
        DoubtNeedsDispatch(v.state, scripts[1..]);
      } else {
        SettledStays(v.state, scripts[1..]);
        AtMostOneDispatch(v.state, scripts[1..]);
      }
    }
  }

  lemma {:induction false} SettledStays(state: CleanupState, scripts: seq<Script>)
    requires state.VerifiedReleased? || state.Ambiguous?
    ensures var last := Attempts(state, scripts); last.VerifiedReleased? || (state.Ambiguous? && last.Ambiguous?)
    decreases |scripts|
  {
    if scripts != [] {
      SettledStays(Attempt(state, scripts[0]).state, scripts[1..]);
    }
  }

  /** A history becomes released only on evidence, and stays released. */
  predicate Evidence(s: Script) {
    s.before.Yes? || (s.close.Native? && s.prepared) || s.after.Yes? || s.last.Yes?
  }

  lemma {:induction false} ReleasedOnlyOnEvidence(state: CleanupState, scripts: seq<Script>)
    ensures Attempts(state, scripts).VerifiedReleased? ==> state.VerifiedReleased? || exists s <- scripts :: Evidence(s)
    ensures state.VerifiedReleased? ==> Attempts(state, scripts).VerifiedReleased?
    decreases |scripts|
  {
    if scripts != [] {
      ReleasedOnlyOnEvidence(Attempt(state, scripts[0]).state, scripts[1..]);
      assert Attempt(state, scripts[0]).state.VerifiedReleased? ==> state.VerifiedReleased? || Evidence(scripts[0]);
      assert scripts[0] in scripts && forall s <- scripts[1..] :: s in scripts;
    }
  }

  // ----- the process's descriptor table

  /** One table entry ever made, told apart from every other by its id; the inode is all `fstat` shows. */
  datatype Alloc = Alloc(id: nat, inode: nat)

  type Table = map<nat, Alloc>

  datatype Stat = BadDescriptor | Inode(inode: nat) | StatFailed

  /** What `os.dup` reports: a number, a certified failure, or an interrupted opaque call. */
  datatype DupResult = Fd(number: nat) | NoAllocation | Interrupted

  datatype Call = Asked(number: nat, stat: Stat) | Duplicated(number: nat, result: DupResult)
                | Closed(number: nat, outcome: CloseOutcome)

  /** A history of calls, the latest outermost. */
  datatype Calls = NoCalls | After(earlier: Calls, call: Call)

  ghost predicate Gone(t: Table, a: Alloc) { forall n <- t :: t[n] != a }

  /** What other threads may do to the table: anything that closes no entry of ours and revives none. */
  ghost predicate Interferes(t: Table, u: Table, ours: set<Alloc>) {
    && (forall n <- t :: t[n] in ours ==> n in u && u[n] == t[n])
    && (forall n <- u :: u[n] in ours ==> n in t && t[n] == u[n])
  }

  /** A close by us: the entry may or may not be gone; nothing else of ours changes. */
  ghost predicate Closes(t: Table, u: Table, ours: set<Alloc>, a: Alloc) {
    && (forall n <- t :: t[n] in ours && t[n] != a ==> n in u && u[n] == t[n])
    && (forall n <- u :: u[n] in ours ==> n in t && t[n] == u[n])
  }

  /** The descriptor table, the entries this owner made, and what each close it dispatched has hit. */
  class World {
    var table: Table
    var history: set<Alloc>
    var ours: set<Alloc>
    var closes: seq<Option<Alloc>>
    /** Every system call this owner made, with what it reported. */
    ghost var calls: Calls

    /** No close ever hit a free number or somebody else's entry, and none hit an entry twice. */
    ghost predicate Clean()
      reads this
    {
      && (forall i :: 0 <= i < |closes| ==> closes[i].Some? && closes[i].value in ours)
      && (forall i, j :: 0 <= i < j < |closes| ==> closes[i] != closes[j])
    }

    ghost predicate Sane()
      reads this
    {
      Clean() && ours <= history && forall n <- table :: table[n] in history
    }

    constructor (table: Table, history: set<Alloc>)
      requires forall n <- table :: table[n] in history
      ensures Sane() && this.table == table && ours == {} && closes == [] && calls == NoCalls
    {
      this.table, this.history, ours, closes, calls := table, history, {}, [], NoCalls;
    }

    /** Other threads open, recycle and close descriptors of their own. */
    method Others()
      requires Sane()
      modifies this`table, this`history
      ensures Sane() && Interferes(old(table), table, ours) && old(history) <= history
    {
      var number: nat, a: Alloc, opening: bool := *, *, *;
      if opening && number !in table && a !in history {
        table, history := table[number := a], history + {a};
      } else if !opening && number in table && table[number] !in ours {
        table := table - {number};
      }
    }

    method Fstat(number: nat) returns (r: Stat)
      requires Sane()
      modifies this`table, this`history, this`calls
      ensures Sane() && Interferes(old(table), table, ours)
      ensures calls == After(old(calls), Asked(number, r))
      ensures r.Inode? ==> number in table && table[number].inode == r.inode
      ensures r.BadDescriptor? ==> number !in table
    {
      Others();
      var failed: bool := *;
      r := if failed then StatFailed else if number in table then Inode(table[number].inode) else BadDescriptor;
      calls := After(calls, Asked(number, r));
    }

    /** An interrupted call may leave behind an entry that nobody owns. */
    method Dup(number: nat) returns (r: DupResult)
      requires Sane()
      modifies this
      ensures Sane() && closes == old(closes) && calls == After(old(calls), Duplicated(number, r))
      ensures !r.Fd? ==> ours == old(ours) && Interferes(old(table), table, ours)
      ensures r.Fd? ==> r.number in table && ours == old(ours) + {table[r.number]}
                        && table[r.number] !in old(ours) && Some(table[r.number]) !in closes
                        && Interferes(old(table), table - {r.number}, ours)
                        && Gone(table - {r.number}, table[r.number])
    {
      Others();
      var free: nat, id: nat, interrupted: bool := *, *, *;
      var a := Alloc(id, if number in table then table[number].inode else 0);
      if free in table || number !in table || a in history {
        r := NoAllocation;
      } else {
        table, history := table[free := a], history + {a};
        r := if interrupted then Interrupted else Fd(free);
        ours := if interrupted then ours else ours + {a};
      }
      calls := After(calls, Duplicated(number, r));
    }

    /** A dispatched close. Whoever calls it must know that the number still names an entry of ours
        for which no close was ever dispatched. Only the native close's normal return says it is gone. */
    method Close(number: nat, ghost a: Alloc) returns (r: CloseOutcome)
      requires Sane() && a in ours && number in table && table[number] == a && Some(a) !in closes
      requires forall n <- table :: table[n] == a ==> n == number
      modifies this`table, this`history, this`closes, this`calls
      ensures Sane() && closes == old(closes) + [Some(a)] && calls == After(old(calls), Closed(number, r))
      ensures Closes(old(table), table, ours, a)
      ensures r.Native? ==> Gone(table, a)
    {
      Others();
      closes := closes + [if number in table then Some(table[number]) else None];
      var effect: bool, outcome: CloseOutcome := *, *;
      if effect {
        table := table - {number};
      }
      r := if outcome.Native? && !effect then Raised else outcome;
      calls := After(calls, Closed(number, r));
    }
  }

  // ----- one descriptor with its guard: which calls a disposal makes, and what it concludes

  datatype Role = Descriptor | Guard

  function Closings(calls: Calls): nat {
    match calls
    case NoCalls => 0
    case After(earlier, call) => Closings(earlier) + if call.Closed? then 1 else 0
  }

  /** A `DescriptorState` together with the calls made so far. */
  datatype Snapshot = Snapshot(
    descriptor: Option<nat>, created: Option<nat>, guard: Option<nat>,
    descriptorRelease: CleanupState, guardRelease: CleanupState,
    descriptorReleased: bool, descriptorFailed: bool, descriptorUncertain: bool,
    guardReleased: bool, guardUncertain: bool, calls: Calls)
  {
    predicate Has(role: Role) { if role.Descriptor? then descriptor.Some? else guard.Some? }

    function Number(role: Role): nat
      requires Has(role)
    {
      if role.Descriptor? then descriptor.value else guard.value
    }

    function Release(role: Role): CleanupState {
      if role.Descriptor? then descriptorRelease else guardRelease
    }

    predicate Uncertain(role: Role) { if role.Descriptor? then descriptorUncertain else guardUncertain }

    function With(role: Role, state: CleanupState): Snapshot {
      if role.Descriptor? then this.(descriptorRelease := state) else this.(guardRelease := state)
    }

    function Logged(call: Call): Snapshot { this.(calls := After(calls, call)) }

    /** What an `fstat` of the number says about the entry: `_descriptor_current` or `_fd_absent`. */
    function Reads(role: Role, stat: Stat): Answer {
      match stat
      case BadDescriptor => Yes
      case StatFailed => Raises
      case Inode(i) => if role.Guard? || created.None? || created.value == i then No else Yes
    }

    function StateOf(): CleanupState {
      if descriptorReleased && guardReleased then TerminalComplete
      else if descriptorRelease.Ambiguous? || guardRelease.Ambiguous? then Ambiguous
      else if descriptorRelease.ReleaseInProgress? || guardRelease.ReleaseInProgress? then ReleaseInProgress
      else if descriptorRelease.SafeToRetry? || guardRelease.SafeToRetry? then SafeToRetry
      else OwnedOpen
    }
  }

  /** What the system calls of one attempt report, and whether the caller's own preparation succeeds. */
  datatype Seen = Seen(before: Stat, identity: Stat, dup: DupResult, flushed: bool,
                       close: CloseOutcome, after: Stat, last: Stat)

  function Identified(s: Snapshot, e: Seen): Snapshot
    requires s.descriptor.Some?
  {
    var t := s.Logged(Asked(s.descriptor.value, e.identity));
    if e.identity.Inode? && t.created.None? then t.(created := Some(e.identity.inode)) else t
  }

  function Guarding(s: Snapshot, e: Seen): Snapshot
    requires s.descriptor.Some?
  {
    if s.guard.Some? || s.guardRelease.Ambiguous? then s
    else
      var t := s.Logged(Duplicated(s.descriptor.value, e.dup));
      match e.dup
      case NoAllocation => t.(guardRelease := VerifiedReleased)
      case Interrupted => t.(guardRelease := Ambiguous)
      case Fd(n) => t.(guard := Some(n), guardRelease := OwnedOpen)
  }

  /** The descriptor's preparation: identify it, take a guard, let the caller flush. */
  function Prepared(s: Snapshot, e: Seen): (Snapshot, bool)
    requires s.descriptor.Some?
  {
    var t := Identified(s, e);
    if !e.identity.Inode? then (t, false)
    else
      var u := Guarding(t, e);
      (u, u.guard.Some? && e.flushed)
  }

  function Readied(s: Snapshot, role: Role, e: Seen): (Snapshot, bool)
    requires s.Has(role)
  {
    if role.Guard? then (s, true) else Prepared(s, e)
  }

  /** The state moves before the opaque close goes out. */
  function InFlight(s: Snapshot, role: Role, e: Seen): Snapshot
    requires s.Has(role)
  {
    s.With(role, ReleaseInProgress).Logged(Closed(s.Number(role), e.close))
  }

  function Concluded(s: Snapshot, role: Role, e: Seen): (Snapshot, bool)
    requires s.Has(role)
  {
    var after := if e.close.Returned? then s.Logged(Asked(s.Number(role), e.after)) else s;
    if e.close.Native? || (e.close.Returned? && s.Reads(role, e.after).Yes?) then (after.With(role, VerifiedReleased), false)
    else
      var last := after.With(role, Ambiguous).Logged(Asked(s.Number(role), e.last));
      (if s.Reads(role, e.last).Yes? then last.With(role, VerifiedReleased) else last, true)
  }

  /** A run that found the entry present: prepare, close, conclude. */
  function Dispatching(s: Snapshot, role: Role, e: Seen): (Snapshot, bool)
    requires s.Has(role)
  {
    var (u, ready) := Readied(s, role, e);
    if ready then Concluded(InFlight(u, role, e), role, e) else (u.With(role, SafeToRetry), true)
  }

  /** What a run does with the answer to whether the entry is absent. */
  function Responding(s: Snapshot, role: Role, before: Answer, e: Seen): (Snapshot, bool)
    requires s.Has(role)
  {
    var state := s.Release(role);
    if before.Yes? then (s.With(role, VerifiedReleased), false)
    else if state.Ambiguous? || state.ReleaseInProgress? then (if before.No? then s.With(role, Ambiguous) else s, true)
    else if before.Raises? then (s.With(role, SafeToRetry), true)
    else Dispatching(s, role, e)
  }

  /** One `run`: the snapshot after it, and whether it raised. */
  function Ran(s: Snapshot, role: Role, e: Seen): (Snapshot, bool)
    requires s.Has(role)
  {
    if s.Release(role).VerifiedReleased? then (s, false)
    else Responding(s.Logged(Asked(s.Number(role), e.before)), role, s.Reads(role, e.before), e)
  }

  function Answers(s: Snapshot, role: Role, e: Seen): Script
    requires s.Has(role)
  {
    var asked := s.Logged(Asked(s.Number(role), e.before));
    var t := Readied(asked, role, e);
    Script(s.Reads(role, e.before), t.1, e.close, t.0.Reads(role, e.after), t.0.Reads(role, e.last))
  }

  lemma {:induction false} IdentifiedNeverCloses(s: Snapshot, e: Seen)
    requires s.descriptor.Some?
    ensures var t := Identified(s, e);
            Closings(t.calls) == Closings(s.calls) && t.descriptor == s.descriptor && t.descriptorRelease == s.descriptorRelease
  {
  }

  lemma {:induction false} GuardingNeverCloses(s: Snapshot, e: Seen)
    requires s.descriptor.Some?
    ensures var t := Guarding(s, e);
            Closings(t.calls) == Closings(s.calls) && t.descriptor == s.descriptor && t.descriptorRelease == s.descriptorRelease
  {
  }

  lemma {:induction false} PreparedNeverCloses(s: Snapshot, e: Seen)
    requires s.descriptor.Some?
    ensures var t := Prepared(s, e).0;
            Closings(t.calls) == Closings(s.calls) && t.descriptor == s.descriptor && t.descriptorRelease == s.descriptorRelease
  {
    hide Identified, Guarding;
    IdentifiedNeverCloses(s, e);
    if e.identity.Inode? {
      GuardingNeverCloses(Identified(s, e), e);
    }
  }

  lemma {:induction false} ConcludingNeverCloses(s: Snapshot, role: Role, e: Seen)
    requires s.Has(role)
    ensures Closings(Concluded(s, role, e).0.calls) == Closings(s.calls)
  {
    hide Snapshot.Reads;
    var after := if e.close.Returned? then s.Logged(Asked(s.Number(role), e.after)) else s;
    assert Closings(after.calls) == Closings(s.calls);
    hide Snapshot.Number;
  }

  lemma Concludes(s: Snapshot, role: Role, e: Seen)
    requires s.Has(role)
    ensures var (t, raised) := Concluded(s, role, e);
            && (!raised <==> e.close.Native? || (e.close.Returned? && s.Reads(role, e.after).Yes?))
            && t.Release(role) == if !raised || s.Reads(role, e.last).Yes? then VerifiedReleased else Ambiguous
  {
    hide Snapshot.Reads;
  }

  lemma InFlightReads(s: Snapshot, role: Role, e: Seen, stat: Stat)
    requires s.Has(role)
    ensures InFlight(s, role, e).Reads(role, stat) == s.Reads(role, stat) && InFlight(s, role, e).Has(role)
    ensures Closings(InFlight(s, role, e).calls) == Closings(s.calls) + 1
  {
  }

  ghost predicate IsAttempt(s: Snapshot, role: Role, e: Seen)
    requires s.Has(role)
  {
    var (t, raised) := Ran(s, role, e);
    var v := Attempt(s.Release(role), Answers(s, role, e));
    && t.Release(role) == v.state && raised == v.raised
    && Closings(t.calls) == Closings(s.calls) + if v.dispatched then 1 else 0
  }

  /** The attempts that never get as far as preparing. */
  predicate StopsEarly(s: Snapshot, role: Role, e: Seen) {
    var state := s.Release(role);
    state.VerifiedReleased? || state.Ambiguous? || state.ReleaseInProgress? || !s.Reads(role, e.before).No?
  }

  lemma {:induction false} EarlyIsAttempt(s: Snapshot, role: Role, e: Seen)
    requires s.Has(role) && StopsEarly(s, role, e)
    ensures IsAttempt(s, role, e)
  {
    hide Dispatching, Readied, Snapshot.Reads;
  }

  lemma {:induction false} LateIsAttempt(s: Snapshot, role: Role, e: Seen)
    requires s.Has(role) && !StopsEarly(s, role, e)
    ensures IsAttempt(s, role, e)
  {
    var t := s.Logged(Asked(s.Number(role), e.before));
    ReadiedNeverCloses(t, role, e);
    var u := Readied(t, role, e).0;
    InFlightReads(u, role, e, e.after);
    InFlightReads(u, role, e, e.last);
    hide Readied, Concluded, InFlight, Snapshot.Reads;
    ConcludingNeverCloses(InFlight(u, role, e), role, e);
    Concludes(InFlight(u, role, e), role, e);
  }

  lemma {:induction false} ReadiedNeverCloses(s: Snapshot, role: Role, e: Seen)
    requires s.Has(role)
    ensures var t := Readied(s, role, e).0;
            Closings(t.calls) == Closings(s.calls) && t.Has(role) && t.Number(role) == s.Number(role) && t.Release(role) == s.Release(role)
  {
    hide Prepared;
    if role.Descriptor? {
      PreparedNeverCloses(s, e);
    }
  }

  /** A run of either number is one attempt of its history: it concludes the same, raises the same, and
      dispatches a close exactly when the attempt does. */
  lemma RanIsAttempt(s: Snapshot, role: Role, e: Seen)
    requires s.Has(role)
    ensures var (t, raised) := Ran(s, role, e);
            var v := Attempt(s.Release(role), Answers(s, role, e));
            && t.Release(role) == v.state && raised == v.raised
            && Closings(t.calls) == Closings(s.calls) + if v.dispatched then 1 else 0
  {
    assert IsAttempt(s, role, e) by {
      hide IsAttempt, StopsEarly;
      if StopsEarly(s, role, e) {
        EarlyIsAttempt(s, role, e);
      } else {
        LateIsAttempt(s, role, e);
      }
    }
    hide Ran, Attempt, Answers, Closings;
  }

  lemma ConcludedOnGuard(s: Snapshot, e: Seen)
    requires s.guard.Some?
    ensures var t := Concluded(s, Guard, e).0; t == s.(guardRelease := t.guardRelease, calls := t.calls)
  {
  }

  /** A run on the guard leaves everything else alone. */
  lemma RanOnGuard(s: Snapshot, e: Seen)
    requires s.guard.Some?
    ensures var t := Ran(s, Guard, e).0; t == s.(guardRelease := t.guardRelease, calls := t.calls)
  {
    hide Concluded, Snapshot.Reads;
    var t := InFlight(s.Logged(Asked(s.guard.value, e.before)), Guard, e);
    ConcludedOnGuard(t, e);
  }

  /** `_release_guard`. */
  function GuardReleased(s: Snapshot, e: Seen): (Snapshot, bool) {
    if s.guard.None? || s.guardReleased then
      if s.guardRelease.Ambiguous? then (s, true) else (s.(guardReleased := true), false)
    else
      var (t, raised) := Ran(s, Guard, e);
      (t.(guardUncertain := t.guardRelease.Ambiguous?, guardReleased := t.guardRelease.VerifiedReleased?), raised)
  }

  function Folded(s: Snapshot): Snapshot {
    s.(descriptorRelease := if s.descriptorUncertain && s.descriptorRelease.OwnedOpen? then Ambiguous else s.descriptorRelease,
       guardRelease := if s.guardUncertain && s.guardRelease.OwnedOpen? then Ambiguous else s.guardRelease)
  }

  function DescriptorReleased(s: Snapshot, e: Seen): (Snapshot, bool) {
    if s.descriptor.None? || s.descriptorReleased then
      if s.descriptor.None? && s.descriptorRelease.Ambiguous? then (s, true)
      else (s.(descriptorReleased := true), false)
    else
      var (t, raised) := Ran(s, Descriptor, e);
      (if raised then
         t.(descriptorFailed := true, descriptorUncertain := t.descriptorRelease.Ambiguous?,
            descriptorReleased := t.descriptorRelease.VerifiedReleased?)
       else t.(descriptorReleased := true), raised)
  }

  /** `_dispose_descriptor` on POSIX: the guard's turn comes only once the descriptor is released. */
  function Disposed(s: Snapshot, d: Seen, g: Seen): (Snapshot, bool) {
    var f := Folded(s);
    var (t, raised) := DescriptorReleased(f, d);
    if !t.descriptorReleased || (f.descriptor.None? && f.descriptorRelease.Ambiguous?) then (t, true)
    else
      var (u, failed) := GuardReleased(t, g);
      (if raised || failed || f.descriptor.None? || f.descriptorReleased then u else u.(descriptorFailed := false),
       raised || failed)
  }

  lemma GuardReleasedIsAttempt(s: Snapshot, e: Seen)
    requires s.guard.Some? && !s.guardReleased
    ensures var (t, raised) := GuardReleased(s, e);
            var v := Attempt(s.guardRelease, Answers(s, Guard, e));
            && raised == v.raised && t.guardReleased == v.state.VerifiedReleased?
            && t.descriptorReleased == s.descriptorReleased
            && Closings(t.calls) == Closings(s.calls) + if v.dispatched then 1 else 0
  {
    hide Ran, Attempt, Answers, Closings;
    RanIsAttempt(s, Guard, e);
    RanOnGuard(s, e);
  }

  /** A disposal that returns normally is complete. */
  lemma DisposedIsComplete(s: Snapshot, d: Seen, g: Seen)
    ensures var (t, raised) := Disposed(s, d, g); !raised ==> t.StateOf().TerminalComplete?
  {
    hide Ran, Answers, Closings;
    var t := DescriptorReleased(Folded(s), d).0;
    if t.guard.Some? && !t.guardReleased {
      GuardReleasedIsAttempt(t, g);
      RaisedUnlessReleased(t.guardRelease, Answers(t, Guard, g));
    }
  }

  /** The system calls of a disposal in which nothing goes wrong. */
  predicate Smooth(s: Snapshot, d: Seen, g: Seen) {
    && s.descriptor.Some? && !s.descriptorReleased && !s.guardReleased && !s.descriptorUncertain && !s.guardUncertain
    && (s.descriptorRelease.OwnedOpen? || s.descriptorRelease.SafeToRetry?)
    && (if s.guard.Some? then s.guardRelease.OwnedOpen? else !s.guardRelease.Ambiguous?)
    && s.Reads(Descriptor, d.before).No? && d.identity.Inode? && d.dup.Fd? && d.flushed && d.close.Native?
    && g.before.Inode? && g.close.Native?
  }

  lemma {:induction false} SmoothDescriptor(s: Snapshot, d: Seen, g: Seen)
    requires Smooth(s, d, g)
    ensures var (t, raised) := DescriptorReleased(s, d);
            && !raised && t.descriptorReleased && t.guard.Some? && t.guardRelease.OwnedOpen? && !t.guardReleased
            && Closings(t.calls) == Closings(s.calls) + 1
  {
    hide Closings, Concluded, Readied;
    var t := s.Logged(Asked(s.Number(Descriptor), d.before));
    SmoothlyReadied(t, d, g);
    LateIsAttempt(s, Descriptor, d);
    var u := InFlight(Readied(t, Descriptor, d).0, Descriptor, d);
    NativeConcludes(u, Descriptor, d);
  }

  lemma SmoothlyReadied(s: Snapshot, d: Seen, g: Seen)
    requires Smooth(s, d, g)
    ensures var (t, ready) := Readied(s, Descriptor, d);
            ready && t.guard.Some? && t.guardRelease.OwnedOpen? && t.guardReleased == s.guardReleased && t.descriptor == s.descriptor
  {
  }

  lemma NativeConcludes(s: Snapshot, role: Role, e: Seen)
    requires s.Has(role) && e.close.Native?
    ensures Concluded(s, role, e) == (s.With(role, VerifiedReleased), false)
  {
  }

  /** When nothing goes wrong a disposal completes, with exactly one close each for descriptor and guard. */
  lemma {:induction false} SmoothDisposalCompletes(s: Snapshot, d: Seen, g: Seen)
    requires Smooth(s, d, g)
    ensures var (t, raised) := Disposed(s, d, g);
            !raised && t.StateOf().TerminalComplete? && Closings(t.calls) == Closings(s.calls) + 2
  {
    hide DescriptorReleased, GuardReleased, Answers, Closings;
    SmoothDescriptor(s, d, g);
    var t := DescriptorReleased(s, d).0;
    GuardReleasedIsAttempt(t, g);
    assert Answers(t, Guard, g).before.No? && Answers(t, Guard, g).prepared && Answers(t, Guard, g).close.Native? by {
      GuardAnswers(t, g);
    }
    assert Folded(s) == s;
  }

  lemma GuardAnswers(s: Snapshot, g: Seen)
    requires s.guard.Some? && g.before.Inode?
    ensures var a := Answers(s, Guard, g); a.before.No? && a.prepared && a.close == g.close
  {
  }

  // ----- an interrupted `dup`

  /** There may be a guard, but its number never arrived. */
  predicate Doubtful(s: Snapshot) { s.guard.None? && s.guardRelease.Ambiguous? }

  /** A descriptor for which no close was dispatched yet. */
  predicate Closable(s: Snapshot) {
    && s.descriptor.Some? && !s.descriptorReleased && !s.descriptorUncertain && !s.guardUncertain
    && (s.descriptorRelease.OwnedOpen? || s.descriptorRelease.SafeToRetry?)
  }

  function Disposals(s: Snapshot, seen: seq<(Seen, Seen)>): Snapshot
    decreases |seen|
  {
    if seen == [] then s else Disposals(Disposed(s, seen[0].0, seen[0].1).0, seen[1..])
  }

  lemma {:induction false} DoubtfulReadied(s: Snapshot, e: Seen)
    requires Doubtful(s) && s.descriptor.Some?
    ensures var (t, ready) := Readied(s, Descriptor, e);
            !ready && Doubtful(t) && Closings(t.calls) == Closings(s.calls) && t.guardReleased == s.guardReleased
  {
  }

  lemma UnreadyStops(s: Snapshot, e: Seen)
    requires Doubtful(s) && s.descriptor.Some?
    ensures var t := Dispatching(s, Descriptor, e).0;
            Doubtful(t) && Closings(t.calls) == Closings(s.calls) && t.guardReleased == s.guardReleased
  {
    DoubtfulReadied(s, e);
    hide Readied, Closings, Concluded, InFlight;
  }

  lemma {:induction false} DoubtfulResponds(s: Snapshot, before: Answer, e: Seen)
    requires Doubtful(s) && s.descriptor.Some?
    ensures var t := Responding(s, Descriptor, before, e).0;
            Doubtful(t) && Closings(t.calls) == Closings(s.calls) && t.guardReleased == s.guardReleased
  {
    UnreadyStops(s, e);
    hide Readied, Closings, Dispatching;
  }

  lemma {:induction false} DoubtfulRun(s: Snapshot, e: Seen)
    requires Doubtful(s) && s.descriptor.Some?
    ensures var t := Ran(s, Descriptor, e).0;
            Doubtful(t) && Closings(t.calls) == Closings(s.calls) && t.guardReleased == s.guardReleased
  {
    var asked := s.Logged(Asked(s.descriptor.value, e.before));
    assert Doubtful(asked) && Closings(asked.calls) == Closings(s.calls);
    hide Responding, Closings, Snapshot.Reads;
    DoubtfulResponds(asked, s.Reads(Descriptor, e.before), e);
  }

  lemma {:induction false} DoubtfulStep(s: Snapshot, d: Seen, g: Seen)
    requires Doubtful(s)
    ensures var (t, raised) := Disposed(s, d, g);
            raised && Doubtful(t) && Closings(t.calls) == Closings(s.calls) && t.guardReleased == s.guardReleased
  {
    hide Ran, Closings;
    if s.descriptor.Some? && !s.descriptorReleased {
      DoubtfulRun(Folded(s), d);
    }
  }

  /** From then on every disposal raises, none dispatches a close, and none completes. */
  lemma {:induction false} DoubtfulForGood(s: Snapshot, seen: seq<(Seen, Seen)>)
    requires Doubtful(s)
    ensures var t := Disposals(s, seen);
            Doubtful(t) && Closings(t.calls) == Closings(s.calls) && t.guardReleased == s.guardReleased
    ensures forall pair <- seen :: Disposed(s, pair.0, pair.1).1
    decreases |seen|
  {
    hide Doubtful, Disposed, Closings;
    forall pair | pair in seen ensures Disposed(s, pair.0, pair.1).1 {
      DoubtfulStep(s, pair.0, pair.1);
    }
    if seen != [] {
      DoubtfulStep(s, seen[0].0, seen[0].1);
      DoubtfulForGood(Disposed(s, seen[0].0, seen[0].1).0, seen[1..]);
    }
  }

  lemma {:induction false} GuardingDoubts(s: Snapshot, e: Seen)
    requires s.descriptor.Some? && s.guard.None? && !s.guardRelease.Ambiguous?
    ensures var t := Guarding(s, e);
            && (Doubtful(t) <==> e.dup.Interrupted?)
            && t.descriptorReleased == s.descriptorReleased && t.descriptorRelease == s.descriptorRelease
            && t.descriptor == s.descriptor
  {
  }

  lemma {:induction false} ReadiedDoubts(s: Snapshot, e: Seen)
    requires s.descriptor.Some? && s.guard.None? && !s.guardRelease.Ambiguous?
    ensures var (t, ready) := Readied(s, Descriptor, e);
            && (Doubtful(t) <==> e.identity.Inode? && e.dup.Interrupted?)
            && (ready ==> t.guard.Some?) && t.descriptor == s.descriptor && t.descriptorReleased == s.descriptorReleased
  {
    var t := Identified(s, e);
    assert t.descriptor == s.descriptor && t.guard == s.guard && t.guardRelease == s.guardRelease;
    assert t.descriptorReleased == s.descriptorReleased;
    GuardingDoubts(t, e);
    hide Guarding, Identified;
  }

  lemma {:induction false} ConcludingKeepsGuard(s: Snapshot, e: Seen)
    requires s.descriptor.Some?
    ensures Concluded(s, Descriptor, e).0.guard == s.guard
  {
    hide Snapshot.Reads;
  }

  lemma {:induction false} RunDoubts(s: Snapshot, e: Seen)
    requires Closable(s) && s.guard.None? && !s.guardRelease.Ambiguous?
    ensures var t := Ran(s, Descriptor, e).0;
            && (Doubtful(t) <==> s.Reads(Descriptor, e.before).No? && e.identity.Inode? && e.dup.Interrupted?)
            && (Doubtful(t) ==> !t.descriptorRelease.VerifiedReleased?)
  {
    var asked := s.Logged(Asked(s.descriptor.value, e.before));
    ReadiedDoubts(asked, e);
    var (t, ready) := Readied(asked, Descriptor, e);
    hide Snapshot.Reads, Readied, Concluded;
    if ready {
      ConcludingKeepsGuard(InFlight(t, Descriptor, e), e);
    }
  }

  /** An attempt makes the guard doubtful exactly when it gets as far as the `dup` and that call is interrupted. */
  lemma {:induction false} DoubtComesFromDup(s: Snapshot, d: Seen, g: Seen)
    requires Closable(s) && s.guard.None? && !s.guardRelease.Ambiguous?
    ensures Doubtful(Disposed(s, d, g).0) <==> s.Reads(Descriptor, d.before).No? && d.identity.Inode? && d.dup.Interrupted?
  {
    assert Folded(s) == s;
    RunDoubts(s, d);
    var t := DescriptorReleased(s, d).0;
    hide Ran, Snapshot.Reads;
    if !Doubtful(t) {
      GuardStaysCertain(t, g);
    }
  }

  lemma {:induction false} GuardStaysCertain(s: Snapshot, e: Seen)
    requires !Doubtful(s)
    ensures !Doubtful(GuardReleased(s, e).0)
  {
    if s.guard.Some? && !s.guardReleased {
      RanOnGuard(s, e);
      hide Ran;
    }
  }

  const SMOOTH := Seen(Inode(0), Inode(0), Fd(0), true, Native, StatFailed, StatFailed)

  /** What a disposal must see for the descriptor to look present. */
  function Present(s: Snapshot): Seen {
    if s.created.Some? then SMOOTH.(before := Inode(s.created.value)) else SMOOTH
  }

  lemma {:induction false} CertainCloses(s: Snapshot, g: Seen)
    requires Closable(s) && !Doubtful(s)
    ensures Closings(Disposed(s, Present(s), g).0.calls) > Closings(s.calls)
  {
    var d := Present(s);
    var f := Folded(s);
    assert f == s;
    PresentCloses(s);
    hide Ran, Closings;
    var t := DescriptorReleased(s, d).0;
    if t.guard.Some? && !t.guardReleased {
      GuardReleasedIsAttempt(t, g);
    }
  }

  lemma {:induction false} PresentCloses(s: Snapshot)
    requires Closable(s) && !Doubtful(s)
    ensures Closings(Ran(s, Descriptor, Present(s)).0.calls) == Closings(s.calls) + 1
  {
    var d := Present(s);
    RanIsAttempt(s, Descriptor, d);
    PresentAnswers(s);
    hide Ran, Closings, Answers;
  }

  lemma PresentAnswers(s: Snapshot)
    requires Closable(s) && !Doubtful(s)
    ensures var a := Answers(s, Descriptor, Present(s)); a.before.No? && a.prepared
  {
  }

  /** The descriptor's close can still be dispatched exactly when the guard is not doubtful. */
  lemma ClosesUnlessDoubtful(s: Snapshot)
    requires Closable(s)
    ensures (exists seen: seq<(Seen, Seen)> :: Closings(Disposals(s, seen).calls) > Closings(s.calls)) <==> !Doubtful(s)
  {
    hide Closable, Doubtful, Disposed, Closings;
    if Doubtful(s) {
      forall seen: seq<(Seen, Seen)> ensures Closings(Disposals(s, seen).calls) == Closings(s.calls) {
        DoubtfulForGood(s, seen);
      }
    } else {
      CertainCloses(s, SMOOTH);
      var seen := [(Present(s), SMOOTH)];
      assert Disposals(s, seen) == Disposals(Disposed(s, Present(s), SMOOTH).0, []);
    }
  }

  /** A first disposal that leaves the descriptor unclosed has leaked it for good, whatever later disposals see,
      exactly when its `dup` was interrupted. */
  lemma LeaksExactly(s: Snapshot, d: Seen, g: Seen)
    requires Closable(s) && s.guard.None? && !s.guardRelease.Ambiguous? && Closable(Disposed(s, d, g).0)
    ensures var t := Disposed(s, d, g).0;
            (forall seen: seq<(Seen, Seen)> :: Closings(Disposals(t, seen).calls) <= Closings(t.calls))
            <==> s.Reads(Descriptor, d.before).No? && d.identity.Inode? && d.dup.Interrupted?
  {
    hide Closable, Doubtful, Disposed, Closings, Disposals;
    DoubtComesFromDup(s, d, g);
    ClosesUnlessDoubtful(Disposed(s, d, g).0);
  }

  /** What one number owes: until a close is dispatched the entry is there and ours; a verified
      release means it is gone. */
  ghost predicate Kept(t: Table, ours: set<Alloc>, closes: seq<Option<Alloc>>,
                       number: nat, a: Alloc, state: CleanupState)
  {
    && a in ours
    && (forall n <- t :: t[n] == a ==> n == number)
    && (state.OwnedOpen? || state.SafeToRetry? || state.TerminalComplete? ==>
          number in t && t[number] == a && Some(a) !in closes)
    && (state.VerifiedReleased? ==> Gone(t, a))
  }

  /** Nothing owed is touched by other threads, nor by our closing another entry. */
  lemma KeptByOthers(t: Table, u: Table, ours: set<Alloc>, closes: seq<Option<Alloc>>,
                     number: nat, a: Alloc, state: CleanupState)
    requires Kept(t, ours, closes, number, a, state) && Interferes(t, u, ours)
    ensures Kept(u, ours, closes, number, a, state)
  {
  }

  lemma KeptByClose(t: Table, u: Table, ours: set<Alloc>, closes: seq<Option<Alloc>>,
                    number: nat, a: Alloc, state: CleanupState, closed: Alloc)
    requires Kept(t, ours, closes, number, a, state) && Closes(t, u, ours, closed) && closed != a
    ensures Kept(u, ours, closes + [Some(closed)], number, a, state)
  {
  }

  lemma KeptByDup(t: Table, u: Table, ours: set<Alloc>, closes: seq<Option<Alloc>>,
                  number: nat, a: Alloc, state: CleanupState, added: nat)
    requires Kept(t, ours, closes, number, a, state) && added in u && u[added] !in ours
    requires Interferes(t, u - {added}, ours + {u[added]})
    ensures Kept(u, ours + {u[added]}, closes, number, a, state)
  {
    var v := u - {added};
    assert forall n <- u :: n == added || (n in v && v[n] == u[n]);
  }

  lemma FreshKept(t: Table, ours: set<Alloc>, closes: seq<Option<Alloc>>, number: nat)
    requires number in t && t[number] in ours && Some(t[number]) !in closes && Gone(t - {number}, t[number])
    ensures Kept(t, ours, closes, number, t[number], OwnedOpen)
  {
    var v := t - {number};
    assert forall n <- t :: n == number || (n in v && v[n] == t[n]);
  }

  class DescriptorState {
    const descriptor: Option<nat>
    var created: Option<nat>
    var guard: Option<nat>
    var descriptorRelease: CleanupState
    var guardRelease: CleanupState
    var descriptorReleased: bool
    var descriptorFailed: bool
    var descriptorUncertain: bool
    var guardReleased: bool
    var guardUncertain: bool
    /** The entries the two numbers were handed out for. */
    ghost const held: Alloc
    ghost var guardHeld: Alloc

    /** What the descriptor or the guard owes, before the uncertain flag is folded into its state. */
    ghost function Effective(role: Role): CleanupState
      reads this
    {
      if Uncertain(role) && Release(role).OwnedOpen? then Ambiguous else Release(role)
    }

    ghost predicate RoleKept(w: World, role: Role)
      reads this, w
    {
      Has(role) ==> Kept(w.table, w.ours, w.closes, Number(role), Entry(role), Effective(role))
    }

    /** The flags tell the truth, and the guard is closed only after the descriptor is known released. */
    ghost predicate Coherent(w: World)
      reads this, w
    {
      && (descriptor.Some? && created.Some? ==> created.value == held.inode)
      && (descriptor.Some? && (descriptorReleased || guardReleased) ==> descriptorRelease.VerifiedReleased?)
      && (guard.None? ==> !guardUncertain)
      && (guard.Some? ==>
            && descriptor.Some? && guardHeld != held
            && (guardReleased ==> guardRelease.VerifiedReleased?)
            && (Some(guardHeld) in w.closes ==> descriptorRelease.VerifiedReleased?))
    }

    ghost predicate Valid(w: World)
      reads this, w
    {
      w.Sane() && RoleKept(w, Descriptor) && RoleKept(w, Guard) && Coherent(w)
    }

    constructor (w: World, number: nat)
      requires w.Sane() && number in w.table && w.table[number] in w.ours && Some(w.table[number]) !in w.closes
      requires forall n <- w.table :: w.table[n] == w.table[number] ==> n == number
      ensures Valid(w) && descriptor == Some(number) && held == w.table[number]
      ensures descriptorRelease.OwnedOpen? && guardRelease.OwnedOpen? && guard.None? && !descriptorReleased && !guardReleased
    {
      descriptor, created, guard, held := Some(number), None, None, w.table[number];
      descriptorRelease, guardRelease := OwnedOpen, OwnedOpen;
      descriptorReleased, descriptorFailed, descriptorUncertain := false, false, false;
      guardReleased, guardUncertain := false, false;
    }

    predicate Has(role: Role)
      reads this
    {
      if role.Descriptor? then descriptor.Some? else guard.Some?
    }

    function Number(role: Role): nat
      requires Has(role)
      reads this
    {
      if role.Descriptor? then descriptor.value else guard.value
    }

    function Release(role: Role): CleanupState
      reads this
    {
      if role.Descriptor? then descriptorRelease else guardRelease
    }

    predicate Uncertain(role: Role)
      reads this
    {
      if role.Descriptor? then descriptorUncertain else guardUncertain
    }

    ghost function Entry(role: Role): Alloc
      reads this
    {
      if role.Descriptor? then held else guardHeld
    }

    ghost function View(w: World): Snapshot
      reads this, w
    {
      Snapshot(descriptor, created, guard, descriptorRelease, guardRelease, descriptorReleased, descriptorFailed,
               descriptorUncertain, guardReleased, guardUncertain, w.calls)
    }

    /** No close of this number was dispatched, as far as state and flag tell. */
    ghost predicate Settled(role: Role)
      reads this
    {
      var s := Effective(role);
      s.OwnedOpen? || s.SafeToRetry? || s.TerminalComplete?
    }

    ghost predicate NoGuardDoubt()
      reads this
    {
      !(guardUncertain && guardRelease.OwnedOpen?)
    }

    /** `_descriptor_current` negated, or `_fd_absent`. */
    method Absent(w: World, role: Role) returns (a: Answer, ghost shown: Stat)
      requires Valid(w) && Has(role)
      modifies w`table, w`history, w`calls
      ensures Valid(w)
      ensures View(w) == old(View(w)).Logged(Asked(Number(role), shown)) && a == old(View(w)).Reads(role, shown)
      ensures a.Yes? ==> Gone(w.table, Entry(role))
    {
      ghost var t := w.table;
      var held := w.Fstat(Number(role));
      assert RoleKept(w, Descriptor) && RoleKept(w, Guard) by {
        hide Kept, Interferes;
        if Has(Descriptor) {
          KeptByOthers(t, w.table, w.ours, w.closes, Number(Descriptor), this.held, Effective(Descriptor));
        }
        if Has(Guard) {
          KeptByOthers(t, w.table, w.ours, w.closes, Number(Guard), guardHeld, Effective(Guard));
        }
      }
      shown := held;
      match held
      case BadDescriptor => a := Yes;
      case StatFailed => a := Raises;
      case Inode(i) => a := if role.Guard? || created.None? || created.value == i then No else Yes;
    }

    method Identify(w: World) returns (identity: Stat)
      requires Valid(w) && descriptor.Some? && Settled(Descriptor)
      modifies this`created, w`table, w`history, w`calls
      ensures Valid(w)
      ensures forall e: Seen :: e.identity == identity ==> View(w) == Identified(old(View(w)), e)
    {
      ghost var t := w.table;
      identity := w.Fstat(descriptor.value);
      assert RoleKept(w, Descriptor) && RoleKept(w, Guard) by {
        hide Kept, Interferes;
        KeptByOthers(t, w.table, w.ours, w.closes, Number(Descriptor), held, Effective(Descriptor));
        if Has(Guard) {
          KeptByOthers(t, w.table, w.ours, w.closes, Number(Guard), guardHeld, Effective(Guard));
        }
      }
      if identity.Inode? && created.None? {
        created := Some(identity.inode);
      }
    }

    /** Taking the guard: its state is ambiguous while the opaque call is out. */
    method TakeGuard(w: World) returns (ghost dup: DupResult)
      requires Valid(w) && descriptor.Some? && !guardReleased
      modifies this`guard, this`guardRelease, this`guardHeld, w
      ensures Valid(w) && w.closes == old(w.closes)
      ensures forall e: Seen :: e.dup == dup ==> View(w) == Guarding(old(View(w)), e)
      ensures old(NoGuardDoubt()) ==> NoGuardDoubt()
      ensures old(guard).Some? ==> guardHeld == old(guardHeld)
    {
      dup := Interrupted;
      if guard.Some? || guardRelease.Ambiguous? {
        return;
      }
      guardRelease := Ambiguous;
      ghost var t, mine := w.table, w.ours;
      var result := w.Dup(descriptor.value);
      dup := result;
      hide Kept, Interferes;
      if !result.Fd? {
        KeptByOthers(t, w.table, w.ours, w.closes, Number(Descriptor), held, Effective(Descriptor));
        if result.NoAllocation? {
          guardRelease := VerifiedReleased;
        }
        return;
      }
      var n := result.number;
      KeptByDup(t, w.table, mine, w.closes, Number(Descriptor), held, Effective(Descriptor), n);
      guard, guardHeld, guardRelease := Some(n), w.table[n], OwnedOpen;
      assert RoleKept(w, Guard) by {
        FreshKept(w.table, w.ours, w.closes, n);
      }
    }

    /** Read-only work before the close: identify the descriptor and take a guard. `flushed` is the
        outcome of the caller's own preparation. */
    method Prepare(w: World, flushed: bool, ghost seen: Seen) returns (ok: bool, ghost e: Seen)
      requires Valid(w) && descriptor.Some? && Settled(Descriptor) && seen.flushed == flushed
      modifies this`created, this`guard, this`guardRelease, this`guardHeld, w
      ensures Valid(w) && w.closes == old(w.closes)
      ensures e.before == seen.before && e.flushed == flushed
      ensures (View(w), ok) == Prepared(old(View(w)), e)
      ensures Settled(Descriptor) && (old(NoGuardDoubt()) ==> NoGuardDoubt())
      ensures old(guard).Some? ==> guardHeld == old(guardHeld)
    {
      hide RoleKept, Identified, Guarding, World.Sane;
      ghost var s := View(w);
      var identity := Identify(w);
      e := seen.(identity := identity);
      ghost var t := View(w);
      assert t == Identified(s, e);
      if !identity.Inode? {
        return false, e;
      }
      ghost var dup := TakeGuard(w);
      e := e.(dup := dup);
      assert View(w) == Guarding(t, e);
      assert t == Identified(s, e) by { IdentifiedSees(s, e, seen.(identity := identity)); }
      return guard.Some? && flushed, e;
    }

    /** Moving a history that is not released yet: claiming nothing, or a release that is a fact. */
    method SetRelease(w: World, role: Role, state: CleanupState)
      requires Valid(w) && Has(role) && !Release(role).VerifiedReleased?
      requires state.Ambiguous? || state.ReleaseInProgress? || (state.SafeToRetry? && Settled(role))
               || (state.VerifiedReleased? && Gone(w.table, Entry(role)))
      modifies this`descriptorRelease, this`guardRelease
      ensures Valid(w) && View(w) == old(View(w)).With(role, state)
    {
      hide Gone;
      if role.Descriptor? {
        descriptorRelease := state;
      } else {
        guardRelease := state;
      }
    }

    /** The state is moved before the opaque close goes out. */
    method Dispatch(w: World, role: Role) returns (r: CloseOutcome)
      requires Valid(w) && Has(role) && Settled(role)
      requires role.Guard? ==> descriptorRelease.VerifiedReleased?
      modifies this`descriptorRelease, this`guardRelease, w
      ensures Valid(w) && Release(role).ReleaseInProgress?
      ensures r.Native? ==> Gone(w.table, Entry(role))
      ensures w.closes == old(w.closes) + [Some(Entry(role))]
      ensures old(NoGuardDoubt()) ==> NoGuardDoubt()
      ensures forall e: Seen :: e.close == r ==> View(w) == InFlight(old(View(w)), role, e)
    {
      ghost var t, closes := w.table, w.closes;
      SetRelease(w, role, ReleaseInProgress);
      r := w.Close(Number(role), Entry(role));
      assert RoleKept(w, role);
      hide Kept, Closes;
      var other := if role.Descriptor? then Guard else Descriptor;
      if Has(other) {
        KeptByClose(t, w.table, w.ours, closes, Number(other), Entry(other), Effective(other), Entry(role));
      }
    }

    /** After the close: believed when native, otherwise only on the absence of the entry. */
    method Conclude(w: World, role: Role, ghost seen: Seen, outcome: CloseOutcome) returns (raised: bool, ghost e: Seen)
      requires Valid(w) && Has(role) && Release(role).ReleaseInProgress? && seen.close == outcome
      requires outcome.Native? ==> Gone(w.table, Entry(role))
      modifies this`descriptorRelease, this`guardRelease, w`table, w`history, w`calls
      ensures Valid(w)
      ensures e == seen.(after := e.after, last := e.last)
      ensures old(NoGuardDoubt()) ==> NoGuardDoubt()
      ensures (View(w), raised) == Concluded(old(View(w)), role, e)
    {
      hide RoleKept, Coherent, World.Sane, Gone;
      e := seen;
      var verified := outcome.Native?;
      if outcome.Returned? {
        var after;
        ghost var shown;
        after, shown := Absent(w, role);
        e := e.(after := shown);
        verified := after.Yes?;
      }
      if verified {
        SetRelease(w, role, VerifiedReleased);
        return false, e;
      }
      SetRelease(w, role, Ambiguous);
      var last;
      ghost var shown;
      last, shown := Absent(w, role);
      e := e.(last := shown);
      if last.Yes? {
        SetRelease(w, role, VerifiedReleased);
      }
      return true, e;
    }

    /** One attempt at releasing one number. */
    method Run(w: World, role: Role, flushed: bool) returns (raised: bool, ghost e: Seen)
      requires Valid(w) && Has(role) && NoGuardDoubt() && !(Uncertain(role) && Release(role).OwnedOpen?)
      requires role.Guard? ==> descriptorRelease.VerifiedReleased?
      modifies this`created, this`guard, this`guardHeld, this`descriptorRelease, this`guardRelease, w
      ensures Valid(w) && NoGuardDoubt()
      ensures e.flushed == flushed
      ensures (View(w), raised) == Ran(old(View(w)), role, e)
      ensures w.closes == old(w.closes) || w.closes == old(w.closes) + [Some(Entry(role))]
      ensures old(guard).Some? ==> guardHeld == old(guardHeld)
    {
      hide Valid, Gone, Responding, Snapshot.Reads;
      e := Seen(StatFailed, StatFailed, Interrupted, flushed, Raised, StatFailed, StatFailed);
      if Release(role).VerifiedReleased? {
        return false, e;
      }
      var before;
      ghost var shown;
      before, shown := Absent(w, role);
      raised, e := Respond(w, role, flushed, before, e.(before := shown));
    }

    method Respond(w: World, role: Role, flushed: bool, before: Answer, ghost seen: Seen) returns (raised: bool, ghost e: Seen)
      requires Valid(w) && Has(role) && NoGuardDoubt() && !(Uncertain(role) && Release(role).OwnedOpen?)
      requires !Release(role).VerifiedReleased? && seen.flushed == flushed && (before.Yes? ==> Gone(w.table, Entry(role)))
      requires role.Guard? ==> descriptorRelease.VerifiedReleased?
      modifies this`created, this`guard, this`guardHeld, this`descriptorRelease, this`guardRelease, w
      ensures Valid(w) && NoGuardDoubt()
      ensures e.flushed == flushed && e.before == seen.before
      ensures (View(w), raised) == Responding(old(View(w)), role, before, e)
      ensures w.closes == old(w.closes) || w.closes == old(w.closes) + [Some(Entry(role))]
      ensures old(guard).Some? ==> guardHeld == old(guardHeld)
    {
      hide Valid, Gone, Dispatching;
      e := seen;
      if before.Yes? {
        SetRelease(w, role, VerifiedReleased);
        return false, e;
      }
      if Release(role).Ambiguous? || Release(role).ReleaseInProgress? {
        if before.No? {
          SetRelease(w, role, Ambiguous);
        }
        return true, e;
      }
      if before.Raises? {
        SetRelease(w, role, SafeToRetry);
        return true, e;
      }
      raised, e := RunPresent(w, role, flushed, e);
    }

    /** The rest of an attempt that found the entry present. */
    method RunPresent(w: World, role: Role, flushed: bool, ghost seen: Seen) returns (raised: bool, ghost e: Seen)
      requires Valid(w) && Has(role) && NoGuardDoubt() && Settled(role) && seen.flushed == flushed
      requires role.Guard? ==> descriptorRelease.VerifiedReleased?
      modifies this`created, this`guard, this`guardHeld, this`descriptorRelease, this`guardRelease, w
      ensures Valid(w) && NoGuardDoubt()
      ensures e.flushed == flushed && e.before == seen.before
      ensures (View(w), raised) == Dispatching(old(View(w)), role, e)
      ensures w.closes == old(w.closes) || w.closes == old(w.closes) + [Some(Entry(role))]
      ensures old(guard).Some? ==> guardHeld == old(guardHeld)
    {
      hide Valid, Gone, Identified, Guarding, Prepared, InFlight, Concluded, Snapshot.Reads;
      ghost var t := View(w);
      e := seen;
      var prepared := true;
      if role.Descriptor? {
        prepared, e := Prepare(w, flushed, e);
      }
      ghost var u := View(w);
      assert (u, prepared) == Readied(t, role, e);
      if !prepared {
        SetRelease(w, role, SafeToRetry);
        return true, e;
      }
      var outcome := Dispatch(w, role);
      ghost var f := e.(close := outcome);
      ghost var v := View(w);
      raised, f := Conclude(w, role, f, outcome);
      ReadiedSees(t, role, e, f);
      e := f;
      assert v == InFlight(u, role, e);
    }

    method SetGuardFlags(w: World)
      requires Valid(w) && guard.Some? && descriptorRelease.VerifiedReleased? && NoGuardDoubt()
      modifies this`guardReleased, this`guardUncertain
      ensures Valid(w) && NoGuardDoubt()
      ensures View(w) == old(View(w)).(guardUncertain := guardRelease.Ambiguous?, guardReleased := guardRelease.VerifiedReleased?)
    {
      hide Kept;
      guardUncertain := guardRelease.Ambiguous?;
      guardReleased := guardRelease.VerifiedReleased?;
    }

    /** `_release_guard`. */
    method ReleaseGuard(w: World) returns (raised: bool, ghost e: Seen)
      requires Valid(w) && NoGuardDoubt() && (descriptor.Some? ==> descriptorRelease.VerifiedReleased?)
      modifies this`created, this`guard, this`guardHeld, this`descriptorRelease, this`guardRelease,
               this`guardReleased, this`guardUncertain, w
      ensures Valid(w)
      ensures (View(w), raised) == GuardReleased(old(View(w)), e)
      ensures guardHeld == old(guardHeld)
      ensures w.closes == old(w.closes) || (guard.Some? && w.closes == old(w.closes) + [Some(guardHeld)])
    {
      e := Seen(StatFailed, StatFailed, Interrupted, true, Raised, StatFailed, StatFailed);
      if guard.None? || guardReleased {
        if guardRelease.Ambiguous? {
          return true, e;
        }
        guardReleased := true;
        return false, e;
      }
      ghost var s := View(w);
      hide Valid, Ran, Answers, Closings;
      raised, e := Run(w, Guard, true);
      RanOnGuard(s, e);
      SetGuardFlags(w);
    }

    method SetDescriptorFlags(w: World, raised: bool)
      requires Valid(w) && descriptor.Some? && !descriptorReleased && NoGuardDoubt()
      requires !descriptorRelease.OwnedOpen? && (!raised ==> descriptorRelease.VerifiedReleased?)
      modifies this`descriptorReleased, this`descriptorUncertain, this`descriptorFailed
      ensures Valid(w) && NoGuardDoubt()
      ensures View(w) == if raised then old(View(w)).(descriptorFailed := true, descriptorUncertain := descriptorRelease.Ambiguous?,
                                                       descriptorReleased := descriptorRelease.VerifiedReleased?)
                         else old(View(w)).(descriptorReleased := true)
    {
      hide Kept;
      if raised {
        descriptorFailed := true;
        descriptorUncertain := descriptorRelease.Ambiguous?;
        descriptorReleased := descriptorRelease.VerifiedReleased?;
      } else {
        descriptorReleased := true;
      }
    }

    /** The part of a disposal up to the descriptor's own release. */
    method ReleaseDescriptor(w: World, flushed: bool) returns (raised: bool, ghost e: Seen)
      requires Valid(w) && NoGuardDoubt() && !(descriptorUncertain && descriptorRelease.OwnedOpen?)
      modifies this, w
      ensures Valid(w) && NoGuardDoubt()
      ensures e.flushed == flushed
      ensures (View(w), raised) == DescriptorReleased(old(View(w)), e)
      ensures descriptor.Some? && descriptorReleased ==> descriptorRelease.VerifiedReleased?
      ensures w.closes == old(w.closes) || w.closes == old(w.closes) + [Some(held)]
    {
      e := Seen(StatFailed, StatFailed, Interrupted, flushed, Raised, StatFailed, StatFailed);
      if descriptor.None? || descriptorReleased {
        if descriptor.None? && descriptorRelease.Ambiguous? {
          return true, e;
        }
        descriptorReleased := true;
        return false, e;
      }
      ghost var s := View(w);
      hide Valid, Ran, Answers, Closings;
      raised, e := Run(w, Descriptor, flushed);
      RanIsAttempt(s, Descriptor, e);
      RaisedUnlessReleased(s.descriptorRelease, Answers(s, Descriptor, e));
      SetDescriptorFlags(w, raised);
    }

    method FoldFlags(w: World)
      requires Valid(w)
      modifies this`descriptorRelease, this`guardRelease
      ensures Valid(w) && NoGuardDoubt() && !(descriptorUncertain && descriptorRelease.OwnedOpen?)
      ensures View(w) == Folded(old(View(w)))
    {
      hide Kept;
      if descriptorUncertain && descriptorRelease.OwnedOpen? {
        descriptorRelease := Ambiguous;
      }
      if guardUncertain && guardRelease.OwnedOpen? {
        guardRelease := Ambiguous;
      }
    }

    method ClearFailed(w: World)
      requires Valid(w)
      modifies this`descriptorFailed
      ensures Valid(w) && View(w) == old(View(w)).(descriptorFailed := false)
    {
      hide Kept;
      descriptorFailed := false;
    }

    /** `_dispose_descriptor` on POSIX. `flushed` is the outcome of the caller's own preparation; `d` and
        `g` are what the system calls reported. Every close it dispatches hits its own descriptor or guard. */
    method Dispose(w: World, flushed: bool) returns (raised: bool, ghost d: Seen, ghost g: Seen)
      requires Valid(w)
      modifies this, w
      ensures Valid(w)
      ensures d.flushed == flushed
      ensures (View(w), raised) == Disposed(old(View(w)), d, g)
      ensures old(w.closes) <= w.closes
      ensures forall c <- w.closes[|old(w.closes)|..] :: c == Some(held) || (guard.Some? && c == Some(guardHeld))
      ensures !raised && descriptor.Some? ==> Gone(w.table, held)
      ensures !raised && guard.Some? ==> Gone(w.table, guardHeld)
    {
      hide Valid, Gone, DescriptorReleased, GuardReleased, Folded;
      g := Seen(StatFailed, StatFailed, Interrupted, true, Raised, StatFailed, StatFailed);
      ghost var s := View(w);
      FoldFlags(w);
      var begun := descriptor.Some? && !descriptorReleased;
      var unreturned := descriptor.None? && descriptorRelease.Ambiguous?;
      raised, d := ReleaseDescriptor(w, flushed);
      if !descriptorReleased || unreturned {
        return true, d, g;
      }
      var failed;
      failed, g := ReleaseGuard(w);
      raised := raised || failed;
      if !raised {
        if begun {
          ClearFailed(w);
        }
        DisposedIsComplete(s, d, g);
        TerminalMeansGone(w);
      }
    }

    /** A disposal whose fields report it complete leaves neither entry in the table. */
    lemma TerminalMeansGone(w: World)
      requires Valid(w) && View(w).StateOf().TerminalComplete?
      ensures descriptor.Some? ==> Gone(w.table, held)
      ensures guard.Some? ==> Gone(w.table, guardHeld)
    {
      assert descriptor.Some? ==> RoleKept(w, Descriptor);
      assert guard.Some? ==> RoleKept(w, Guard);
    }
  }

  lemma ReadiedSees(s: Snapshot, role: Role, e: Seen, f: Seen)
    requires s.Has(role) && e.identity == f.identity && e.dup == f.dup && e.flushed == f.flushed
    ensures Readied(s, role, e) == Readied(s, role, f)
  {
  }

  lemma IdentifiedSees(s: Snapshot, e: Seen, f: Seen)
    requires s.descriptor.Some? && e.identity == f.identity
    ensures Identified(s, e) == Identified(s, f)
  {
  }
}
