/** The debouncing dispatcher between filesystem events and the indexer: one worker thread, deadlines
    pushed back by every new event, and a stop that may flush. Time is what a monotone clock shows. */
module Dispatcher {
  import opened PathOrder
  import opened PythonText

  type Path = string

  type Deadlines = map<Path, real>

  // ----- the deadline queue

  ghost predicate ListsInOrder(r: seq<Path>, s: set<Path>) {
    && (forall p :: p in r <==> p in s)
    && forall i, j :: 0 <= i < j < |r| ==> Less(r[i], r[j])
  }

  function Added(d: Deadlines, paths: set<Path>, deadline: real): Deadlines {
    map p | p in d.Keys + paths :: if p in paths then deadline else d[p]
  }

  function Ready(d: Deadlines, now: real): set<Path> { set p | p in d && d[p] <= now }

  /** Python's `sorted`, on distinct paths. */
  method SortPaths(s: set<Path>) returns (r: seq<Path>)
    ensures ListsInOrder(r, s)
  {
    var keys := SortKeys(set p | p in s :: Key("", p));
    SortedIs(set p | p in s :: Key("", p));
    r := seq(|keys|, i requires 0 <= i < |keys| => keys[i].path);
    assert forall k <- keys :: k.fold == "" && k.path in s;
    forall i, j | 0 <= i < j < |r| ensures Less(r[i], r[j]) {
      assert Before(keys[i], keys[j]) && keys[i].fold == keys[j].fold;
      LessTotal("", "");
    }
    forall p ensures p in r <==> p in s {
      assert p in s ==> Key("", p) in keys;
      if p in s {
        var i :| 0 <= i < |keys| && keys[i] == Key("", p);
        assert r[i] == p;
      }
    }
  }

  class DebouncedPathQueue {
    const debounce: real
    var deadlines: Deadlines

    constructor (debounce: real)
      requires debounce > 0.0
      ensures this.debounce == debounce && deadlines == map[]
    {
      this.debounce := debounce;
      deadlines := map[];
    }

    method Add(paths: seq<Path>, now: real) returns (added: bool)
      modifies this
      ensures deadlines == Added(old(deadlines), SetOf(paths), now + debounce)
      ensures forall p :: p in deadlines <==> p in old(deadlines) || p in paths
      ensures forall p <- deadlines :: deadlines[p] == if p in paths then now + debounce else old(deadlines)[p]
      ensures added <==> exists p <- paths :: p !in old(deadlines)
    {
      added := false;
      var deadline := now + debounce;
      for i := 0 to |paths|
        invariant deadlines == Added(old(deadlines), SetOf(paths[..i]), deadline)
        invariant added <==> exists p <- paths[..i] :: p !in old(deadlines)
      {
        added := paths[i] !in deadlines || added;
        deadlines := deadlines[paths[i] := deadline];
        assert paths[..i + 1] == paths[..i] + [paths[i]];
      }
      assert paths[..|paths|] == paths;
    }

    method NextDeadline() returns (d: Option<real>)
      ensures d.None? <==> deadlines == map[]
      ensures d.Some? ==> (exists p <- deadlines :: deadlines[p] == d.value) && forall p <- deadlines :: d.value <= deadlines[p]
    {
      d := None;
      var rest := deadlines.Keys;
      while rest != {}
        invariant rest <= deadlines.Keys
        invariant d.None? <==> rest == deadlines.Keys
        invariant d.Some? ==> exists p <- deadlines :: deadlines[p] == d.value
        invariant d.Some? ==> forall p <- deadlines.Keys - rest :: d.value <= deadlines[p]
        decreases |rest|
      {
        var p :| p in rest;
        rest := rest - {p};
        if d.None? || deadlines[p] < d.value {
          d := Some(deadlines[p]);
        }
      }
    }

    method PopReady(now: real) returns (ready: seq<Path>)
      modifies this
      ensures ListsInOrder(ready, Ready(old(deadlines), now))
      ensures deadlines == old(deadlines) - Ready(old(deadlines), now)
      ensures forall p :: p in ready <==> p in old(deadlines) && old(deadlines)[p] <= now
      ensures forall p :: p in deadlines <==> p in old(deadlines) && old(deadlines)[p] > now
      ensures forall p <- deadlines :: deadlines[p] == old(deadlines)[p]
    {
      ready := SortPaths(Ready(deadlines, now));
      deadlines := deadlines - Ready(deadlines, now);
    }

    method PopAll() returns (paths: seq<Path>)
      modifies this
      ensures ListsInOrder(paths, old(deadlines).Keys) && deadlines == map[]
    {
      paths := SortPaths(deadlines.Keys);
      deadlines := map[];
    }
  }

  // ----- the dispatcher as a state machine

  /** Where the worker thread stands. `Handing` is the call to `dispatch`, outside the lock. */
  datatype Phase = Unstarted | Looping | Handing(paths: set<Path>, final: bool) | Ended

  /** Besides the object's fields: when each path was last accepted, the accepted paths not dispatched
      since (`owed`), those accepted after the worker took the paths it is handing over (`since`), and
      whether the worker's last turn flushed. */
  datatype State = State(
    debounce: real, now: real, deadlines: Deadlines, accepting: bool, stopping: bool, flush: bool, phase: Phase,
    accepted: map<Path, real>, owed: set<Path>, since: set<Path>, flushed: bool)

  function Initial(debounce: real, now: real): State {
    State(debounce, now, map[], false, false, false, Unstarted, map[], {}, {}, false)
  }

  datatype Event =
    | Tick(later: real)
    | Start
    | Submit(paths: set<Path>)
    | Stop(flush: bool)
    | Turn(later: real)
    | Handed

  ghost predicate Enabled(s: State, e: Event) {
    match e
    case Tick(later) => s.now <= later
    case Start => true
    case Submit(_) => true
    case Stop(_) => true
    case Turn(later) => s.phase.Looping? && s.now <= later
    case Handed => s.phase.Handing?
  }

  ghost predicate Due(d: Deadlines, now: real) { exists p <- d :: d[p] <= now }

  /** One turn of the worker's loop; `later` is what the clock shows when it takes the ready paths. */
  ghost function TurnOf(s: State, later: real): State {
    if s.stopping then
      s.(deadlines := if s.flush then map[] else s.deadlines, since := {}, flushed := s.flush,
         phase := Handing(if s.flush then s.deadlines.Keys else {}, true))
    else if !Due(s.deadlines, s.now) then s
    else
      s.(now := later, deadlines := s.deadlines - Ready(s.deadlines, later), since := {},
         phase := Handing(Ready(s.deadlines, later), false))
  }

  ghost function Apply(s: State, e: Event): State
    requires Enabled(s, e)
  {
    match e
    case Tick(later) => s.(now := later)
    case Start => if s.phase.Unstarted? then s.(accepting := true, phase := Looping) else s
    case Submit(paths) =>
      if !s.accepting then s
      else
        s.(deadlines := Added(s.deadlines, paths, s.now + s.debounce), accepted := Added(s.accepted, paths, s.now),
           owed := s.owed + paths, since := s.since + paths)
    case Stop(flush) =>
      if s.phase.Unstarted? then s else s.(accepting := false, stopping := true, flush := flush)
    case Turn(later) => TurnOf(s, later)
    case Handed =>
      s.(owed := s.owed - (s.phase.paths - s.since), phase := if s.phase.final then Ended else Looping)
  }

  ghost function InHand(s: State): set<Path> { if s.phase.Handing? then s.phase.paths else {} }

  /** Each queued path is due one debounce interval after it was last accepted. */
  ghost predicate Timed(s: State) {
    && s.debounce > 0.0
    && (forall p <- s.deadlines :: p in s.accepted && s.deadlines[p] == s.accepted[p] + s.debounce)
    && (forall p <- s.accepted :: s.accepted[p] <= s.now)
  }

  ghost predicate NothingLost(s: State) {
    s.owed <= s.deadlines.Keys + InHand(s) && s.since <= s.deadlines.Keys && s.owed <= s.accepted.Keys
  }

  /** What is handed over without a stop was quiet for a whole debounce interval. */
  ghost predicate Quiet(s: State) {
    s.phase.Handing? && !s.phase.final ==>
      s.phase.paths != {} &&
      forall p <- s.phase.paths - s.since :: p in s.accepted && s.accepted[p] + s.debounce <= s.now
  }

  ghost predicate Stopped(s: State) {
    && (s.accepting ==> !s.stopping)
    && (s.phase.Unstarted? ==> !s.accepting && !s.stopping && s.owed == {})
    && (s.phase.Ended? || (s.phase.Handing? && s.phase.final) ==> s.stopping && (s.flushed ==> s.deadlines == map[]))
  }

  ghost predicate Inv(s: State) { Timed(s) && NothingLost(s) && Quiet(s) && Stopped(s) }

  lemma SubmitKeeps(s: State, paths: set<Path>)
    requires Inv(s)
    ensures Inv(Apply(s, Submit(paths)))
  {
  }

  lemma TurnKeeps(s: State, later: real)
    requires Inv(s) && Enabled(s, Turn(later))
    ensures Inv(Apply(s, Turn(later)))
  {
    if !s.stopping && Due(s.deadlines, s.now) {
      var p :| p in s.deadlines && s.deadlines[p] <= s.now;
      assert p in Ready(s.deadlines, later);
    }
  }

  lemma StepKeeps(s: State, e: Event)
    requires Inv(s) && Enabled(s, e)
    ensures Inv(Apply(s, e))
  {
    match e
    case Submit(paths) => SubmitKeeps(s, paths);
    case Turn(later) => TurnKeeps(s, later);
    case Tick(_) =>
    case Start =>
    case Stop(_) =>
    case Handed =>
  }

  ghost predicate Legal(s: State, trace: seq<Event>)
    decreases |trace|
  {
    trace == [] || (Enabled(s, trace[0]) && Legal(Apply(s, trace[0]), trace[1..]))
  }

  ghost function Run(s: State, trace: seq<Event>): State
    requires Legal(s, trace)
    decreases |trace|
  {
    if trace == [] then s else Run(Apply(s, trace[0]), trace[1..])
  }

  lemma {:induction false} RunKeeps(s: State, trace: seq<Event>)
    requires Inv(s) && Legal(s, trace)
    ensures Inv(Run(s, trace))
    decreases |trace|
  {
    hide Apply, Inv, Enabled;
    if trace != [] {
      StepKeeps(s, trace[0]);
      RunKeeps(Apply(s, trace[0]), trace[1..]);
    }
  }

  /** In every interleaving: an accepted path not dispatched since is queued or being handed over; a path
      handed over without a stop, and not accepted again meanwhile, was quiet for a debounce interval;
      and once the worker ended after flushing, nothing accepted is left undispatched. */
  lemma EveryInterleaving(debounce: real, now: real, trace: seq<Event>)
    requires debounce > 0.0 && Legal(Initial(debounce, now), trace)
    ensures var s := Run(Initial(debounce, now), trace);
            && (forall p <- s.owed :: p in s.deadlines || p in InHand(s))
            && (s.phase.Handing? && !s.phase.final ==>
                  forall p <- s.phase.paths - s.since :: p in s.accepted && s.accepted[p] + debounce <= s.now)
            && (s.phase.Ended? && s.flushed ==> s.owed == {})
            && (s.stopping ==> !s.accepting)
  {
    var s := Initial(debounce, now);
    RunKeeps(s, trace);
    DebounceFixed(s, trace);
  }

  lemma {:induction false} DebounceFixed(s: State, trace: seq<Event>)
    requires Legal(s, trace)
    ensures Run(s, trace).debounce == s.debounce
    decreases |trace|
  {
    if trace != [] {
      DebounceFixed(Apply(s, trace[0]), trace[1..]);
    }
  }

  /** After a stop nothing is accepted ever again. */
  lemma {:induction false} NothingAcceptedAfterStop(s: State, trace: seq<Event>)
    requires Inv(s) && s.stopping && Legal(s, trace)
    ensures Run(s, trace).accepted == s.accepted && Run(s, trace).owed <= s.owed
    decreases |trace|
  {
    if trace != [] {
      StepKeeps(s, trace[0]);
      NothingAcceptedAfterStop(Apply(s, trace[0]), trace[1..]);
    }
  }

  // ----- the dispatcher object

  class DebouncedPathDispatcher {
    const queue: DebouncedPathQueue
    var accepting: bool
    var stopping: bool
    var flushOnStop: bool
    var phase: Phase
    ghost var now: real
    ghost var accepted: map<Path, real>
    ghost var owed: set<Path>
    ghost var since: set<Path>
    ghost var flushed: bool

    ghost function View(): State
      reads this, queue
    {
      State(queue.debounce, now, queue.deadlines, accepting, stopping, flushOnStop, phase, accepted, owed, since, flushed)
    }

    constructor (debounce: real, ghost now: real)
      requires debounce > 0.0
      ensures View() == Initial(debounce, now) && fresh(queue)
    {
      queue := new DebouncedPathQueue(debounce);
      accepting, stopping, flushOnStop, phase := false, false, false, Unstarted;
      this.now, accepted, owed, since, flushed := now, map[], {}, {}, false;
    }

    /** False is the exception for a second start. */
    method Start() returns (ok: bool)
      modifies this`accepting, this`phase
      ensures View() == Apply(old(View()), Event.Start)
      ensures ok <==> old(phase).Unstarted?
      ensures if ok then accepting && phase == Looping else accepting == old(accepting) && phase == old(phase)
    {
      if !phase.Unstarted? {
        return false;
      }
      accepting := true;
      phase := Looping;
      return true;
    }

    method Submit(paths: seq<Path>, clock: real) returns (added: bool)
      requires clock == now
      modifies this`accepted, this`owed, this`since, queue
      ensures View() == Apply(old(View()), Event.Submit(SetOf(paths)))
      ensures added <==> old(accepting) && exists p <- paths :: p !in old(queue.deadlines)
      ensures forall p :: p in queue.deadlines <==> p in old(queue.deadlines) || (accepting && p in paths)
      ensures forall p <- queue.deadlines ::
                queue.deadlines[p] == if accepting && p in paths then clock + queue.debounce else old(queue.deadlines)[p]
    {
      if paths == [] {
        assert SetOf(paths) == {};
        assert accepting ==> View() == Apply(View(), Event.Submit({}));
        return false;
      }
      if !accepting {
        return false;
      }
      added := queue.Add(paths, clock);
      accepted := Added(accepted, SetOf(paths), clock);
      owed, since := owed + SetOf(paths), since + SetOf(paths);
    }

    method Stop(flush: bool)
      modifies this`accepting, this`stopping, this`flushOnStop
      ensures View() == Apply(old(View()), Event.Stop(flush))
      ensures if phase.Unstarted? then accepting == old(accepting) && stopping == old(stopping) && flushOnStop == old(flushOnStop)
              else !accepting && stopping && flushOnStop == flush
    {
      if phase.Unstarted? {
        return;
      }
      accepting := false;
      stopping := true;
      flushOnStop := flush;
    }

    /** One turn of `_run` under the condition; the paths it returns are handed to `dispatch` afterwards.
        `clock` and `later` are its two clock readings. */
    method Turn(clock: real, later: real) returns (paths: seq<Path>)
      requires clock == now && Enabled(View(), Event.Turn(later))
      modifies this`phase, this`now, this`since, this`flushed, queue
      ensures View() == Apply(old(View()), Event.Turn(later))
      ensures phase.Handing? ==> ListsInOrder(paths, phase.paths)
      ensures !phase.Handing? ==> paths == []
      ensures stopping ==> && phase.Handing? && phase.final
                           && (forall p :: p in paths <==> flushOnStop && p in old(queue.deadlines))
                           && queue.deadlines == if flushOnStop then map[] else old(queue.deadlines)
      ensures !stopping ==> && (phase.Handing? <==> exists p <- old(queue.deadlines) :: old(queue.deadlines)[p] <= clock)
                            && (phase.Handing? ==> !phase.final)
                            && (forall p :: p in paths <==> phase.Handing? && p in old(queue.deadlines) && old(queue.deadlines)[p] <= later)
                            && queue.deadlines == map p | p in old(queue.deadlines) && p !in paths :: old(queue.deadlines)[p]
    {
      paths := [];
      if stopping {
        if flushOnStop {
          paths := queue.PopAll();
        }
        since, flushed := {}, flushOnStop;
        phase := Handing(SetOf(paths), true);
        assert SetOf(paths) == if flushOnStop then old(queue.deadlines).Keys else {};
        return;
      }
      var deadline := queue.NextDeadline();
      if deadline.None? || deadline.value - clock > 0.0 {
        return;
      }
      paths := queue.PopReady(later);
      now, since := later, {};
      phase := Handing(SetOf(paths), false);
      assert SetOf(paths) == Ready(old(queue.deadlines), later);
    }

    /** `dispatch` returned; it never raises, since the watcher's callback swallows its failures. */
    method Handed()
      requires phase.Handing?
      modifies this`phase, this`owed
      ensures View() == Apply(old(View()), Event.Handed)
      ensures phase == if old(phase).final then Ended else Looping
    {
      owed := owed - (phase.paths - since);
      phase := if phase.final then Ended else Looping;
    }
  }
}
