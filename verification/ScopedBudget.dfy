/** Request-local admission counters shared by the spaces of one federated read. */
module ScopedBudget {
  type SpaceId = string

  datatype Resource =
    | Paths | Entries | Directories | Probes | Aliases | DirectoryAliases | Bytes
    | Relationships | Comparisons | SemanticRows | SemanticBytes | SqliteSteps

  type Limits = map<Resource, (nat, nat)>

  /** (aggregate, per-space) ceilings. */
  function CEILING(name: Resource): (nat, nat) {
    match name
    case Paths => (20_000, 10_000)
    case Entries => (100_000, 25_000)
    case Directories => (10_000, 2_500)
    case Probes => (2_000_000, 500_000)
    case Aliases => (20_000, 10_000)
    case DirectoryAliases => (20_000, 10_000)
    case Bytes => (268_435_456, 268_435_456)
    case Relationships => (200_000, 50_000)
    case Comparisons => (320_000, 320_000)
    case SemanticRows => (100_000, 50_000)
    case SemanticBytes => (268_435_456, 268_435_456)
    case SqliteSteps => (10_000_000, 5_000_000)
  }

  const RESOURCES: set<Resource> :=
    {Paths, Entries, Directories, Probes, Aliases, DirectoryAliases, Bytes,
     Relationships, Comparisons, SemanticRows, SemanticBytes, SqliteSteps}

  /** `BudgetExhausted` of a resource, or a ValueError/RuntimeError that is no budget decision. */
  datatype Outcome<+T> = Ok(value: T) | Exhausted(resource: Resource) | Rejected {
    predicate IsFailure() { !Ok? }
    function PropagateFailure<U>(): Outcome<U>
      requires !Ok?
    {
      if Exhausted? then Exhausted(resource) else Rejected
    }
    function Extract(): T
      requires Ok?
    {
      value
    }
  }

  // ----- sums over spaces

  predicate Distinct<T(==)>(s: seq<T>) {
    forall i, j :: 0 <= i < j < |s| ==> s[i] != s[j]
  }

  function Sum(ids: seq<SpaceId>, m: map<SpaceId, nat>): nat
    requires forall sid <- ids :: sid in m
  {
    if ids == [] then 0 else m[ids[0]] + Sum(ids[1..], m)
  }

  lemma {:induction false} SumSame(ids: seq<SpaceId>, m: map<SpaceId, nat>, n: map<SpaceId, nat>)
    requires forall sid <- ids :: sid in m && sid in n && m[sid] == n[sid]
    ensures Sum(ids, m) == Sum(ids, n)
  {
    if ids != [] {
      SumSame(ids[1..], m, n);
    }
  }

  /** Changing one space's counter changes the sum by exactly that much. */
  lemma {:induction false} SumUpdate(ids: seq<SpaceId>, m: map<SpaceId, nat>, sid: SpaceId, v: nat)
    requires Distinct(ids) && sid in ids && forall s <- ids :: s in m
    ensures Sum(ids, m[sid := v]) == Sum(ids, m) - m[sid] + v
  {
    if ids[0] == sid {
      SumSame(ids[1..], m, m[sid := v]);
    } else {
      SumUpdate(ids[1..], m, sid, v);
    }
  }

  /** If every space stays within `share`, then the slack of one space is part of the total slack. */
  lemma {:induction false} SlackOfOne(ids: seq<SpaceId>, m: map<SpaceId, nat>, share: nat, sid: SpaceId)
    requires Distinct(ids) && sid in ids && forall s <- ids :: s in m && m[s] <= share
    ensures share - m[sid] <= |ids| * share - Sum(ids, m)
  {
    if |ids| > 1 {
      if ids[0] == sid {
        SumBounded(ids[1..], m, share);
      } else {
        SlackOfOne(ids[1..], m, share, sid);
      }
      Distribute(|ids|, share);
    }
  }

  lemma {:induction false} SumBounded(ids: seq<SpaceId>, m: map<SpaceId, nat>, share: nat)
    requires forall s <- ids :: s in m && m[s] <= share
    ensures Sum(ids, m) <= |ids| * share
  {
    if ids != [] {
      SumBounded(ids[1..], m, share);
      Distribute(|ids|, share);
    }
  }

  lemma Distribute(n: nat, share: nat)
    requires n > 0
    ensures n * share == (n - 1) * share + share
  {
  }

  lemma {:induction false} SumOfSum(ids: seq<SpaceId>, a: map<SpaceId, nat>, b: map<SpaceId, nat>, c: map<SpaceId, nat>)
    requires forall s <- ids :: s in a && s in b && s in c && c[s] == a[s] + b[s]
    ensures Sum(ids, c) == Sum(ids, a) + Sum(ids, b)
  {
    if ids != [] {
      SumOfSum(ids[1..], a, b, c);
    }
  }

  /** Equal shares never exceed the aggregate ceiling. */
  lemma ShareFits(n: nat, ceiling: (nat, nat))
    requires n > 0
    ensures n * Share(n, ceiling) <= ceiling.0
  {
    var q := ceiling.0 / n;
    assert n * q <= ceiling.0;
    if Share(n, ceiling) <= q {
      assert n * Share(n, ceiling) <= n * q by { Monotone(n, Share(n, ceiling), q); }
    }
  }

  /** A share is within the per-space ceiling, and it is the greatest that fits both ceilings. */
  lemma ShareIsGreatest(n: nat, ceiling: (nat, nat))
    requires n > 0
    ensures var s := Share(n, ceiling);
            s <= ceiling.1 && n * s <= ceiling.0 && (s == ceiling.1 || n * (s + 1) > ceiling.0)
  {
    ShareFits(n, ceiling);
    var q := ceiling.0 / n;
    assert ceiling.0 < n * (q + 1);
  }

  lemma Monotone(n: nat, a: nat, b: nat)
    requires a <= b
    ensures n * a <= n * b
  {
  }

  function Share(n: nat, ceiling: (nat, nat)): nat
    requires n > 0
  {
    if ceiling.1 <= ceiling.0 / n then ceiling.1 else ceiling.0 / n
  }

  lemma {:induction false} SumZero(ids: seq<SpaceId>, m: map<SpaceId, nat>)
    requires forall s <- ids :: s in m && m[s] == 0
    ensures Sum(ids, m) == 0
  {
    if ids != [] {
      SumZero(ids[1..], m);
    }
  }

  // ----- cleanup credits

  /** One reservation of 8 probes: what is left of it, until it is finished. */
  datatype Credit = Credit(sid: SpaceId, left: nat, live: bool)

  function HeldBy(c: Credit, sid: SpaceId): nat {
    if c.live && c.sid == sid then c.left else 0
  }

  function Held(ledger: seq<Credit>, sid: SpaceId): nat {
    if ledger == [] then 0 else HeldBy(ledger[0], sid) + Held(ledger[1..], sid)
  }

  lemma {:induction false} HeldAppend(ledger: seq<Credit>, entry: Credit, sid: SpaceId)
    ensures Held(ledger + [entry], sid) == Held(ledger, sid) + HeldBy(entry, sid)
  {
    if ledger == [] {
      assert ledger + [entry] == [entry];
    } else {
      assert (ledger + [entry])[1..] == ledger[1..] + [entry];
      HeldAppend(ledger[1..], entry, sid);
    }
  }

  lemma {:induction false} HeldUpdate(ledger: seq<Credit>, i: nat, c: Credit, sid: SpaceId)
    requires i < |ledger|
    ensures Held(ledger[i := c], sid) == Held(ledger, sid) - HeldBy(ledger[i], sid) + HeldBy(c, sid)
    ensures HeldBy(ledger[i], sid) <= Held(ledger, sid)
  {
    if i == 0 {
      assert ledger[i := c][1..] == ledger[1..];
    } else {
      assert ledger[i := c][1..] == ledger[1..][i - 1 := c];
      HeldUpdate(ledger[1..], i - 1, c, sid);
    }
  }

  // ----- the books

  /** What the constructor fixes: the spaces, the ceilings and every space's share of them. */
  datatype Plan = Plan(ids: seq<SpaceId>, ceilings: Limits, allocations: map<Resource, nat>) {
    ghost predicate Sound() {
      && ids != [] && Distinct(ids)
      && (forall n: Resource :: n in ceilings && n in allocations)
      && (forall n: Resource :: ceilings[n].0 <= CEILING(n).0 && ceilings[n].1 <= CEILING(n).1)
      && (forall n: Resource :: allocations[n] == Share(|ids|, ceilings[n]))
    }
  }

  datatype Books = Books(
    plan: Plan,
    total: map<Resource, nat>,
    used: map<Resource, map<SpaceId, nat>>,
    reserved: map<SpaceId, nat>,
    readCount: nat,
    candidateReads: map<SpaceId, nat>,
    incomingReads: set<(SpaceId, string)>,
    parseProbes: nat,
    spaceParseProbes: map<SpaceId, nat>,
    relationshipSources: set<(SpaceId, string)>,
    sourceBytes: map<SpaceId, nat>,
    ledger: seq<Credit>)
  {
    ghost predicate Tables() {
      && plan.Sound()
      && (forall n: Resource :: n in total && n in used)
      && (forall n: Resource, s :: s in plan.ids ==> s in used[n])
      && (forall s <- plan.ids :: s in reserved && s in candidateReads && s in spaceParseProbes && s in sourceBytes)
    }

    /** What one space holds of one resource: its use and, for probes, its reservation. */
    function Taken(sid: SpaceId, n: Resource): nat
      requires n in used && sid in used[n] && sid in reserved
    {
      used[n][sid] + if n == Probes then reserved[sid] else 0
    }

    ghost predicate Admissions()
      requires Tables()
    {
      && (forall n: Resource :: total[n] == Sum(plan.ids, used[n]))
      && (forall n: Resource, s :: s in plan.ids ==> Taken(s, n) <= plan.allocations[n])
    }

    ghost predicate Reads()
      requires Tables()
    {
      && readCount == Sum(plan.ids, candidateReads) + |incomingReads|
      && |incomingReads| <= 16
      && forall s <- plan.ids :: candidateReads[s] <= plan.allocations[Paths]
    }

    /** Live credits' leftovers sum exactly to each space's reservation, and none holds more than 8. */
    ghost predicate Credits()
      requires Tables()
    {
      && (forall s <- plan.ids :: reserved[s] == Held(ledger, s))
      && (forall c <- ledger :: c.sid in plan.ids && c.left <= 8)
    }

    ghost predicate Parsing()
      requires Tables()
    {
      && parseProbes == Sum(plan.ids, spaceParseProbes)
      && forall s <- plan.ids :: sourceBytes[s] <= used[Bytes][s]
    }

    ghost predicate Valid() {
      Tables() && Admissions() && Reads() && Credits() && Parsing()
    }

    /** `remaining` as the source computes it: the tighter of the aggregate and the local slack. */
    function Remaining(sid: SpaceId, n: Resource): int
      requires n in plan.ceilings && n in plan.allocations && n in total && n in used
      requires sid in used[n] && sid in reserved && forall s <- plan.ids :: s in reserved
    {
      var held := if n == Probes then Sum(plan.ids, reserved) else 0;
      var own := if n == Probes then reserved[sid] else 0;
      var aggregate := plan.ceilings[n].0 as int - total[n] - held;
      var local := plan.allocations[n] as int - used[n][sid] - own;
      if aggregate <= local then aggregate else local
    }
  }

  /** Whatever the other spaces did, a space's remaining budget is its own share less its own takings. */
  lemma RemainingIsLocal(b: Books, sid: SpaceId, n: Resource)
    requires b.Tables() && b.Admissions() && sid in b.plan.ids
    ensures b.Remaining(sid, n) == b.plan.allocations[n] - b.Taken(sid, n) >= 0
  {
    var ids, p := b.plan.ids, b.plan;
    var taken := map s | s in ids :: b.Taken(s, n);
    SlackOfOne(ids, taken, p.allocations[n], sid);
    ShareFits(|ids|, p.ceilings[n]);
    if n == Probes {
      SumOfSum(ids, b.used[n], b.reserved, taken);
    } else {
      SumSame(ids, taken, b.used[n]);
    }
  }

  // ----- operations that succeed

  function WithCharge(b: Books, sid: SpaceId, n: Resource, count: nat): Books
    requires n in b.total && n in b.used && sid in b.used[n]
  {
    var row: map<SpaceId, nat> := b.used[n][sid := b.used[n][sid] + count];
    b.(total := b.total[n := b.total[n] + count], used := b.used[n := row])
  }

  function WithReservation(b: Books, sid: SpaceId): Books
    requires sid in b.reserved
  {
    b.(reserved := b.reserved[sid := b.reserved[sid] + 8], ledger := b.ledger + [Credit(sid, 8, true)])
  }

  /** Credit i gives up what it holds beyond `c`. */
  function WithCredit(b: Books, i: nat, c: Credit): Books
    requires i < |b.ledger| && c.sid in b.reserved
    requires HeldBy(c, c.sid) <= HeldBy(b.ledger[i], c.sid) <= b.reserved[c.sid]
  {
    var freed := HeldBy(b.ledger[i], c.sid) - HeldBy(c, c.sid);
    b.(reserved := b.reserved[c.sid := b.reserved[c.sid] - freed], ledger := b.ledger[i := c])
  }

  function WithRead(b: Books, sid: SpaceId, path: string, incoming: bool): Books
    requires sid in b.candidateReads
  {
    if incoming then b.(readCount := b.readCount + 1, incomingReads := b.incomingReads + {(sid, path)})
    else b.(readCount := b.readCount + 1, candidateReads := b.candidateReads[sid := b.candidateReads[sid] + 1])
  }

  function WithSource(b: Books, sid: SpaceId, path: string, bytes: nat): Books
    requires sid in b.sourceBytes
  {
    b.(relationshipSources := b.relationshipSources + {(sid, path)},
       sourceBytes := b.sourceBytes[sid := b.sourceBytes[sid] + bytes])
  }

  function WithParse(b: Books, sid: SpaceId, count: nat): Books
    requires sid in b.spaceParseProbes
  {
    b.(parseProbes := b.parseProbes + count,
       spaceParseProbes := b.spaceParseProbes[sid := b.spaceParseProbes[sid] + count])
  }

  lemma ChargeKeepsTables(b: Books, sid: SpaceId, n: Resource, count: nat)
    requires b.Tables() && sid in b.plan.ids
    ensures WithCharge(b, sid, n, count).Tables()
  {
    hide b.plan.Sound, CEILING, Share;
  }

  lemma ChargeKeepsTotals(b: Books, sid: SpaceId, n: Resource, count: nat, m: Resource)
    requires b.Tables() && sid in b.plan.ids && b.total[m] == Sum(b.plan.ids, b.used[m])
    ensures m in WithCharge(b, sid, n, count).used && forall s <- b.plan.ids :: s in WithCharge(b, sid, n, count).used[m]
    ensures WithCharge(b, sid, n, count).total[m] == Sum(b.plan.ids, WithCharge(b, sid, n, count).used[m])
  {
    hide Sum, Share, CEILING;
    SumUpdate(b.plan.ids, b.used[n], sid, b.used[n][sid] + count);
  }

  lemma ChargeTakes(b: Books, sid: SpaceId, n: Resource, count: nat, s: SpaceId, m: Resource)
    requires b.Tables() && sid in b.plan.ids && s in b.plan.ids
    ensures var next := WithCharge(b, sid, n, count);
            next.Tables() && next.Taken(s, m) == b.Taken(s, m) + if s == sid && m == n then count else 0
  {
    hide Sum, Share, CEILING;
    ChargeKeepsTables(b, sid, n, count);
  }

  lemma ChargeKeepsAdmissions(b: Books, sid: SpaceId, n: Resource, count: nat)
    requires b.Tables() && b.Admissions() && sid in b.plan.ids && count <= b.plan.allocations[n] - b.Taken(sid, n)
    ensures WithCharge(b, sid, n, count).Tables() && WithCharge(b, sid, n, count).Admissions()
  {
    hide Sum, Share, Distinct, CEILING, WithCharge;
    ChargeKeepsTables(b, sid, n, count);
    var next := WithCharge(b, sid, n, count);
    assert next.plan == b.plan by { WithChargeFrame(b, sid, n, count); }
    forall m: Resource ensures next.total[m] == Sum(b.plan.ids, next.used[m]) {
      ChargeKeepsTotals(b, sid, n, count, m);
    }
    forall m: Resource, s | s in b.plan.ids ensures next.Taken(s, m) <= b.plan.allocations[m] {
      ChargeTakes(b, sid, n, count, s, m);
    }
  }

  lemma WithChargeFrame(b: Books, sid: SpaceId, n: Resource, count: nat)
    requires b.Tables() && sid in b.plan.ids
    ensures WithCharge(b, sid, n, count).plan == b.plan
  {
  }

  // ----- each operation keeps the books; each part of the books depends on few columns

  lemma TablesFrame(b: Books, c: Books)
    requires b.Tables() && c.plan == b.plan && c.total == b.total && c.used == b.used
    requires forall s <- b.plan.ids :: s in c.reserved && s in c.candidateReads && s in c.spaceParseProbes && s in c.sourceBytes
    ensures c.Tables()
  {
    hide Share, CEILING, Distinct, Plan.Sound;
  }

  lemma AdmissionsFrame(b: Books, c: Books)
    requires b.Tables() && c.Tables() && b.Admissions() && c.plan == b.plan
    requires c.total == b.total && c.used == b.used && c.reserved == b.reserved
    ensures c.Admissions()
  {
    hide Sum, Share, CEILING, Distinct;
    forall n: Resource, s | s in b.plan.ids ensures c.Taken(s, n) <= c.plan.allocations[n] {
      assert c.Taken(s, n) == b.Taken(s, n);
    }
  }

  lemma ReadsFrame(b: Books, c: Books)
    requires b.Tables() && c.Tables() && b.Reads() && c.plan == b.plan
    requires c.readCount == b.readCount && c.candidateReads == b.candidateReads && c.incomingReads == b.incomingReads
    ensures c.Reads()
  {
    hide Sum, Share, CEILING, Distinct;
  }

  lemma CreditsFrame(b: Books, c: Books)
    requires b.Tables() && c.Tables() && b.Credits() && c.plan == b.plan && c.reserved == b.reserved && c.ledger == b.ledger
    ensures c.Credits()
  {
    hide Held, Share, CEILING, Distinct, Plan.Sound;
  }

  lemma ParsingFrame(b: Books, c: Books)
    requires b.Tables() && c.Tables() && b.Parsing() && c.plan == b.plan
    requires c.parseProbes == b.parseProbes && c.spaceParseProbes == b.spaceParseProbes && c.sourceBytes == b.sourceBytes
    requires forall s <- b.plan.ids :: c.used[Bytes][s] >= b.used[Bytes][s]
    ensures c.Parsing()
  {
    hide Sum, Share, CEILING, Distinct, Plan.Sound;
  }

  lemma ChargeKeeps(b: Books, sid: SpaceId, n: Resource, count: nat)
    requires b.Valid() && sid in b.plan.ids && count <= b.plan.allocations[n] - b.Taken(sid, n)
    ensures WithCharge(b, sid, n, count).Valid()
  {
    hide Sum, Held, Share, CEILING, Distinct, Plan.Sound, Books.Admissions, Books.Reads, Books.Credits, Books.Parsing;
    ChargeKeepsAdmissions(b, sid, n, count);
    var next := WithCharge(b, sid, n, count);
    ReadsFrame(b, next);
    CreditsFrame(b, next);
    ParsingFrame(b, next);
  }

  lemma ReservationKeeps(b: Books, sid: SpaceId)
    requires b.Valid() && sid in b.plan.ids && 8 <= b.plan.allocations[Probes] - b.Taken(sid, Probes)
    ensures WithReservation(b, sid).Valid()
  {
    hide Sum, Held, Share, CEILING, Distinct, Plan.Sound, Books.Tables, Books.Admissions, Books.Reads, Books.Credits, Books.Parsing;
    TablesParts(b, sid);
    var next := WithReservation(b, sid);
    TablesFrame(b, next);
    ReservedKeepsAdmissions(b, next, sid);
    ReservedKeepsCredits(b, next, sid);
    ReadsFrame(b, next);
    ParsingFrame(b, next);
  }

  lemma TablesParts(b: Books, sid: SpaceId)
    requires b.Tables() && sid in b.plan.ids
    ensures forall s <- b.plan.ids :: s in b.reserved && s in b.candidateReads && s in b.spaceParseProbes && s in b.sourceBytes
    ensures Bytes in b.used && forall s <- b.plan.ids :: s in b.used[Bytes]
    ensures Paths in b.plan.allocations && Probes in b.plan.allocations && Probes in b.used && sid in b.used[Probes]
  {
  }

  /** Only one space's reservation changes, and it still fits that space's share. */
  lemma ReservedKeepsAdmissions(b: Books, c: Books, sid: SpaceId)
    requires b.Tables() && c.Tables() && b.Admissions() && sid in b.plan.ids
    requires c.plan == b.plan && c.total == b.total && c.used == b.used
    requires forall s <- b.plan.ids :: s != sid ==> c.reserved[s] == b.reserved[s]
    requires c.Taken(sid, Probes) <= b.plan.allocations[Probes]
    ensures c.Admissions()
  {
    hide Sum, Share, CEILING, Distinct;
    forall n: Resource, s | s in b.plan.ids ensures c.Taken(s, n) <= c.plan.allocations[n] {
      if s != sid || n != Probes {
        assert c.Taken(s, n) == b.Taken(s, n);
      }
    }
  }

  lemma ReservedKeepsCredits(b: Books, c: Books, sid: SpaceId)
    requires b.Tables() && c.Tables() && b.Credits() && sid in b.plan.ids && c.plan == b.plan
    requires c.reserved == b.reserved[sid := b.reserved[sid] + 8] && c.ledger == b.ledger + [Credit(sid, 8, true)]
    ensures c.Credits()
  {
    hide Held, Share, CEILING, Distinct, Plan.Sound;
    forall s <- b.plan.ids ensures c.reserved[s] == Held(c.ledger, s) {
      HeldAppend(b.ledger, Credit(sid, 8, true), s);
    }
    assert forall d <- c.ledger :: d in b.ledger || d == Credit(sid, 8, true);
  }

  lemma CreditCovered(b: Books, i: nat)
    requires b.Valid() && i < |b.ledger|
    ensures var c := b.ledger[i];
            c.sid in b.plan.ids && c.left <= 8 && HeldBy(c, c.sid) <= b.reserved[c.sid]
  {
    hide Held, Sum, Share, CEILING, Distinct, Plan.Sound, Books.Admissions, Books.Reads, Books.Parsing;
    HeldUpdate(b.ledger, i, b.ledger[i], b.ledger[i].sid);
  }

  lemma CreditKeepsCredits(b: Books, i: nat, c: Credit)
    requires b.Tables() && b.Credits() && i < |b.ledger| && c.sid == b.ledger[i].sid && c.left <= 8
    requires c.sid in b.plan.ids && HeldBy(c, c.sid) <= HeldBy(b.ledger[i], c.sid) <= b.reserved[c.sid]
    ensures WithCredit(b, i, c).Tables() && WithCredit(b, i, c).Credits()
  {
    hide Held, Share, CEILING, Distinct, Plan.Sound;
    var next := WithCredit(b, i, c);
    forall s <- b.plan.ids ensures next.reserved[s] == Held(next.ledger, s) {
      HeldUpdate(b.ledger, i, c, s);
    }
    assert forall d <- next.ledger :: d in b.ledger || d == c;
  }

  lemma CreditKeeps(b: Books, i: nat, c: Credit)
    requires b.Valid() && i < |b.ledger| && c.sid == b.ledger[i].sid && c.left <= 8
    requires HeldBy(c, c.sid) <= HeldBy(b.ledger[i], c.sid)
    ensures c.sid in b.plan.ids && HeldBy(b.ledger[i], c.sid) <= b.reserved[c.sid]
    ensures WithCredit(b, i, c).Valid()
  {
    hide Sum, Held, Share, CEILING, Distinct, Plan.Sound, Books.Tables, Books.Admissions, Books.Reads, Books.Credits, Books.Parsing;
    CreditCovered(b, i);
    TablesParts(b, c.sid);
    CreditKeepsCredits(b, i, c);
    var next := WithCredit(b, i, c);
    TakenFits(b, c.sid);
    ReservedKeepsAdmissions(b, next, c.sid);
    ReadsFrame(b, next);
    ParsingFrame(b, next);
  }

  lemma TakenFits(b: Books, sid: SpaceId)
    requires b.Tables() && b.Admissions() && sid in b.plan.ids
    ensures b.Taken(sid, Probes) <= b.plan.allocations[Probes]
  {
  }

  /** The local guards of `admit_read`. */
  ghost predicate MayRead(b: Books, sid: SpaceId, path: string, incoming: bool)
    requires b.Tables() && sid in b.plan.ids
  {
    if incoming then (sid, path) !in b.incomingReads && |b.incomingReads| < 16
    else b.candidateReads[sid] < b.plan.allocations[Paths]
  }

  /** The global guard of 20,016 reads never refuses what the local guards admit. */
  lemma GlobalReadGuardIsSlack(b: Books, sid: SpaceId, path: string, incoming: bool)
    requires b.Valid() && sid in b.plan.ids
    ensures b.readCount <= 20_016
    ensures MayRead(b, sid, path, incoming) ==> b.readCount < 20_016
  {
    hide Held, Books.Admissions, Books.Credits, Books.Parsing;
    SlackOfOne(b.plan.ids, b.candidateReads, b.plan.allocations[Paths], sid);
    ShareFits(|b.plan.ids|, b.plan.ceilings[Paths]);
  }

  lemma ReadKeepsReads(b: Books, sid: SpaceId, path: string, incoming: bool)
    requires b.Tables() && b.Reads() && sid in b.plan.ids && MayRead(b, sid, path, incoming)
    ensures WithRead(b, sid, path, incoming).Tables() && WithRead(b, sid, path, incoming).Reads()
  {
    hide Sum, Share, CEILING;
    var next := WithRead(b, sid, path, incoming);
    TablesFrame(b, next);
    if !incoming {
      SumUpdate(b.plan.ids, b.candidateReads, sid, b.candidateReads[sid] + 1);
    }
  }

  lemma ReadKeeps(b: Books, sid: SpaceId, path: string, incoming: bool)
    requires b.Valid() && sid in b.plan.ids && MayRead(b, sid, path, incoming)
    ensures WithRead(b, sid, path, incoming).Valid()
  {
    hide Sum, Held, Share, CEILING, Distinct, Plan.Sound, Books.Tables, Books.Admissions, Books.Reads, Books.Credits, Books.Parsing;
    TablesParts(b, sid);
    ReadKeepsReads(b, sid, path, incoming);
    var next := WithRead(b, sid, path, incoming);
    AdmissionsFrame(b, next);
    CreditsFrame(b, next);
    ParsingFrame(b, next);
  }

  lemma SourceKeepsParsing(b: Books, sid: SpaceId, path: string, bytes: nat)
    requires b.Tables() && b.Parsing() && sid in b.plan.ids && bytes + b.sourceBytes[sid] <= b.used[Bytes][sid]
    ensures WithSource(b, sid, path, bytes).Tables() && WithSource(b, sid, path, bytes).Parsing()
  {
    hide Sum, Share, CEILING, Distinct, Plan.Sound;
  }

  lemma SourceKeeps(b: Books, sid: SpaceId, path: string, bytes: nat)
    requires b.Valid() && sid in b.plan.ids && bytes + b.sourceBytes[sid] <= b.used[Bytes][sid]
    ensures WithSource(b, sid, path, bytes).Valid()
  {
    hide Sum, Held, Share, CEILING, Distinct, Plan.Sound, Books.Tables, Books.Admissions, Books.Reads, Books.Credits, Books.Parsing;
    TablesParts(b, sid);
    SourceKeepsParsing(b, sid, path, bytes);
    var next := WithSource(b, sid, path, bytes);
    AdmissionsFrame(b, next);
    ReadsFrame(b, next);
    CreditsFrame(b, next);
  }

  lemma ParseKeepsParsing(b: Books, sid: SpaceId, count: nat)
    requires b.Tables() && b.Parsing() && sid in b.plan.ids
    ensures WithParse(b, sid, count).Tables() && WithParse(b, sid, count).Parsing()
  {
    hide Sum, Share, CEILING;
    var next := WithParse(b, sid, count);
    TablesFrame(b, next);
    SumUpdate(b.plan.ids, b.spaceParseProbes, sid, b.spaceParseProbes[sid] + count);
  }

  lemma ParseKeeps(b: Books, sid: SpaceId, count: nat)
    requires b.Valid() && sid in b.plan.ids
    ensures WithParse(b, sid, count).Valid()
  {
    hide Sum, Held, Share, CEILING, Distinct, Plan.Sound, Books.Tables, Books.Admissions, Books.Reads, Books.Credits, Books.Parsing;
    TablesParts(b, sid);
    ParseKeepsParsing(b, sid, count);
    var next := WithParse(b, sid, count);
    AdmissionsFrame(b, next);
    ReadsFrame(b, next);
    CreditsFrame(b, next);
  }

  // ----- every run of every request

  /** One request: its books and the parse credit left in each space's one relationship view. */
  datatype Request = Request(books: Books, views: map<SpaceId, nat>) {
    ghost predicate Valid() {
      && books.Valid()
      && forall s <- books.plan.ids ::
           s in views && books.spaceParseProbes[s] + views[s] <= 16 * books.sourceBytes[s]
    }
  }

  datatype Op =
    | Charge(sid: SpaceId, resource: Resource, count: nat)
    | ReserveCleanup(sid: SpaceId)
    | SpendCredit(credit: nat)
    | FinishCredit(credit: nat)
    | AdmitRead(sid: SpaceId, path: string, incoming: bool)
    | CreditSource(sid: SpaceId, path: string, bytes: nat)
    | Parse(sid: SpaceId, count: nat)
    | AdmitOccurrence(sid: SpaceId)

  ghost predicate Applies(r: Request, op: Op)
    requires r.Valid()
  {
    if op.SpendCredit? || op.FinishCredit? then op.credit < |r.books.ledger| else op.sid in r.books.plan.ids
  }

  function Spent(c: Credit): Credit
    requires c.left > 0
  {
    c.(left := c.left - 1)
  }

  /** The effect of one operation; a refused one changes nothing. */
  ghost function Apply(r: Request, op: Op): Request
    requires r.Valid() && Applies(r, op)
  {
    var b := r.books;
    match op
    case Charge(sid, n, count) =>
      RemainingIsLocal(b, sid, n);
      if count <= b.Remaining(sid, n) then r.(books := WithCharge(b, sid, n, count)) else r
    case ReserveCleanup(sid) =>
      if b.Remaining(sid, Probes) >= 8 then r.(books := WithReservation(b, sid)) else r
    case SpendCredit(i) =>
      var c := b.ledger[i];
      CreditCovered(b, i);
      if c.live && c.left > 0 then r.(books := WithCharge(WithCredit(b, i, Spent(c)), c.sid, Probes, 1)) else r
    case FinishCredit(i) =>
      CreditCovered(b, i);
      r.(books := WithCredit(b, i, b.ledger[i].(live := false)))
    case AdmitRead(sid, path, incoming) =>
      if b.readCount < 20_016 && MayRead(b, sid, path, incoming) then r.(books := WithRead(b, sid, path, incoming)) else r
    case CreditSource(sid, path, bytes) =>
      if (sid, path) !in b.relationshipSources && bytes + b.sourceBytes[sid] <= b.used[Bytes][sid]
      then Request(WithSource(b, sid, path, bytes), r.views[sid := 16 * bytes])
      else r
    case Parse(sid, count) =>
      if count <= r.views[sid] then Request(WithParse(b, sid, count), r.views[sid := r.views[sid] - count]) else r
    case AdmitOccurrence(sid) =>
      if r.views[sid] > 0 && b.Remaining(sid, Relationships) >= 1
      then r.(books := WithCharge(b, sid, Relationships, 1)) else r
  }

  /** A live credit that still holds probes can spend one: its charge never exhausts the budget. */
  lemma CreditAlwaysSpends(b: Books, i: nat)
    requires b.Valid() && i < |b.ledger| && b.ledger[i].live && b.ledger[i].left > 0
    ensures var c := b.ledger[i];
            && c.sid in b.plan.ids && HeldBy(c, c.sid) <= b.reserved[c.sid]
            && var freed := WithCredit(b, i, Spent(c));
               freed.Valid() && freed.Remaining(c.sid, Probes) >= 1 && freed.Taken(c.sid, Probes) == b.Taken(c.sid, Probes) - 1
  {
    hide Sum, Held;
    var c := b.ledger[i];
    CreditCovered(b, i);
    CreditKeeps(b, i, Spent(c));
    var freed := WithCredit(b, i, Spent(c));
    assert freed.Taken(c.sid, Probes) == b.Taken(c.sid, Probes) - 1;
    RemainingIsLocal(freed, c.sid, Probes);
  }

  lemma SpendKeeps(b: Books, i: nat)
    requires b.Valid() && i < |b.ledger| && b.ledger[i].live && b.ledger[i].left > 0
    ensures var c := b.ledger[i];
            && c.sid in b.plan.ids && HeldBy(c, c.sid) <= b.reserved[c.sid]
            && var freed := WithCredit(b, i, Spent(c));
               freed.Valid() && WithCharge(freed, c.sid, Probes, 1).Valid()
  {
    hide Sum, Held, Share, CEILING, Distinct, Books.Admissions, Books.Reads, Books.Credits, Books.Parsing, Plan.Sound, WithCharge;
    CreditAlwaysSpends(b, i);
    var c := b.ledger[i];
    RemainingIsLocal(WithCredit(b, i, Spent(c)), c.sid, Probes);
    ChargeKeeps(WithCredit(b, i, Spent(c)), c.sid, Probes, 1);
  }

  lemma ApplyKeeps(r: Request, op: Op)
    requires r.Valid() && Applies(r, op)
    ensures Apply(r, op).Valid() && Apply(r, op).books.plan == r.books.plan
  {
    hide Sum, Held, Share, CEILING, Distinct, Books.Admissions, Books.Reads, Books.Credits, Books.Parsing;
    var b := r.books;
    match op {
      case Charge(sid, n, count) =>
        RemainingIsLocal(b, sid, n);
        if count <= b.Remaining(sid, n) { ChargeKeeps(b, sid, n, count); }
      case ReserveCleanup(sid) =>
        RemainingIsLocal(b, sid, Probes);
        if b.Remaining(sid, Probes) >= 8 { ReservationKeeps(b, sid); }
      case SpendCredit(i) =>
        if b.ledger[i].live && b.ledger[i].left > 0 {
          SpendKeeps(b, i);
        }
      case FinishCredit(i) =>
        CreditCovered(b, i);
        CreditKeeps(b, i, b.ledger[i].(live := false));
      case AdmitRead(sid, path, incoming) =>
        if b.readCount < 20_016 && MayRead(b, sid, path, incoming) { ReadKeeps(b, sid, path, incoming); }
      case CreditSource(sid, path, bytes) =>
        if bytes + b.sourceBytes[sid] <= b.used[Bytes][sid] { SourceKeeps(b, sid, path, bytes); }
      case Parse(sid, count) => ParseKeeps(b, sid, count);
      case AdmitOccurrence(sid) =>
        RemainingIsLocal(b, sid, Relationships);
        if b.Remaining(sid, Relationships) >= 1 { ChargeKeeps(b, sid, Relationships, 1); }
    }
  }

  /** A run applies its operations in order; one that names no space or credit of the request is skipped. */
  ghost function Run(r: Request, ops: seq<Op>): Request
    requires r.Valid()
    decreases |ops|
  {
    hide Apply, Applies;
    if ops == [] then r
    else if Applies(r, ops[0]) then
      ApplyKeeps(r, ops[0]);
      Run(Apply(r, ops[0]), ops[1..])
    else Run(r, ops[1..])
  }

  /** A limit may only lower its ceiling. */
  predicate Lowers(name: Resource, pair: (int, int)) {
    0 <= pair.0 <= CEILING(name).0 && 0 <= pair.1 <= CEILING(name).1
  }

  predicate MayOpen(ids: seq<SpaceId>, limits: map<Resource, (int, int)>) {
    ids != [] && Distinct(ids) && forall n <- limits :: Lowers(n, limits[n])
  }

  function CeilingsOf(limits: map<Resource, (int, int)>): Limits
    requires forall n <- limits :: Lowers(n, limits[n])
  {
    map n | n in RESOURCES ::
      if n in limits then
        assert Lowers(n, limits[n]);
        (limits[n].0 as nat, limits[n].1 as nat)
      else CEILING(n)
  }

  function PlanOf(ids: seq<SpaceId>, limits: map<Resource, (int, int)>): Plan
    requires MayOpen(ids, limits)
  {
    var ceilings := CeilingsOf(limits);
    Plan(ids, ceilings, map n | n in RESOURCES :: Share(|ids|, ceilings[n]))
  }

  /** What a plan's entry for one resource is. */
  ghost predicate Fair(ids: seq<SpaceId>, limits: map<Resource, (int, int)>, n: Resource, ceiling: (nat, nat), share: nat) {
    && (if n in limits then ceiling.0 == limits[n].0 && ceiling.1 == limits[n].1 else ceiling == CEILING(n))
    && share <= ceiling.1 && |ids| * share <= ceiling.0 && (share == ceiling.1 || |ids| * (share + 1) > ceiling.0)
  }

  lemma PlanIsFair(ids: seq<SpaceId>, limits: map<Resource, (int, int)>, n: Resource)
    requires MayOpen(ids, limits)
    ensures var plan := PlanOf(ids, limits);
            n in plan.ceilings && n in plan.allocations && Fair(ids, limits, n, plan.ceilings[n], plan.allocations[n])
  {
    hide CEILING, Share, Distinct, Lowers;
    AllResources();
    CeilingEntry(limits, n);
    ShareIsGreatest(|ids|, CeilingsOf(limits)[n]);
    hide CeilingsOf;
  }

  lemma CeilingEntry(limits: map<Resource, (int, int)>, n: Resource)
    requires forall m <- limits :: Lowers(m, limits[m])
    ensures n in CeilingsOf(limits)
    ensures var c := CeilingsOf(limits)[n];
            if n in limits then c.0 == limits[n].0 && c.1 == limits[n].1 else c == CEILING(n)
  {
    AllResources();
    hide CEILING;
  }

  lemma PlanIsSound(ids: seq<SpaceId>, limits: map<Resource, (int, int)>)
    requires MayOpen(ids, limits)
    ensures PlanOf(ids, limits).Sound()
  {
    AllResources();
  }

  function Opening(plan: Plan): Request
  {
    var zero: map<SpaceId, nat> := map s | s in plan.ids :: 0;
    Request(Books(plan, map n | n in RESOURCES :: 0, map n | n in RESOURCES :: zero, zero, 0, zero, {}, 0, zero, {}, zero, []),
            zero)
  }

  lemma AllResources()
    ensures forall n: Resource :: n in RESOURCES
  {
    forall n: Resource ensures n in RESOURCES {
      match n
      case Paths => case Entries => case Directories => case Probes => case Aliases => case DirectoryAliases =>
      case Bytes => case Relationships => case Comparisons => case SemanticRows => case SemanticBytes => case SqliteSteps =>
    }
  }

  lemma OpeningIsValid(plan: Plan)
    requires plan.Sound()
    ensures Opening(plan).Valid()
  {
    hide Share, CEILING, Distinct;
    AllResources();
    SumZero(plan.ids, map s | s in plan.ids :: 0);
  }

  /** Nothing is taken yet. */
  lemma OpensFull(plan: Plan)
    requires plan.Sound()
    ensures var b := Opening(plan).books;
            b.Tables() && forall n: Resource, sid :: sid in plan.ids ==> b.Taken(sid, n) == 0
  {
    AllResources();
    OpeningIsValid(plan);
    hide Share, CEILING, Sum, Held, Distinct;
  }

  /** Every run: the books balance, the parse bound of 16 probes per byte holds and nobody overdraws. */
  lemma {:induction false} RunKeeps(r: Request, ops: seq<Op>)
    requires r.Valid()
    ensures Run(r, ops).Valid() && Run(r, ops).books.plan == r.books.plan
    decreases |ops|
  {
    hide Apply, Applies;
    if ops != [] {
      if Applies(r, ops[0]) {
        ApplyKeeps(r, ops[0]);
        RunKeeps(Apply(r, ops[0]), ops[1..]);
      } else {
        RunKeeps(r, ops[1..]);
      }
    }
  }

  /** In every run of every request, for every space: the source's `remaining` is the space's own share
      less its own takings, and these stay within both ceilings; the share is the greatest that all spaces can have;
      the global read bound holds; parse work stays within 16 per byte charged. */
  lemma EveryRunStaysInBounds(plan: Plan, ops: seq<Op>, sid: SpaceId)
    requires plan.Sound() && sid in plan.ids
    ensures Opening(plan).Valid()
    ensures var r := Run(Opening(plan), ops);
            && r.Valid() && r.books.plan == plan
            && (forall n: Resource :: r.books.Remaining(sid, n) == plan.allocations[n] - r.books.Taken(sid, n) >= 0)
            && (forall n: Resource :: r.books.total[n] <= plan.ceilings[n].0 && r.books.Taken(sid, n) <= plan.ceilings[n].1)
            && (forall n: Resource :: plan.allocations[n] == plan.ceilings[n].1
                                      || |plan.ids| * (plan.allocations[n] + 1) > plan.ceilings[n].0)
            && r.books.readCount == Sum(plan.ids, r.books.candidateReads) + |r.books.incomingReads| <= 20_016
            && r.books.reserved[sid] == Held(r.books.ledger, sid)
            && r.books.spaceParseProbes[sid] + r.views[sid] <= 16 * r.books.sourceBytes[sid] <= 16 * r.books.used[Bytes][sid]
  {
    hide Sum, Held, Share, CEILING, Distinct, Run, Opening;
    AllResources();
    OpeningPlan(plan);
    OpeningIsValid(plan);
    RunKeeps(Opening(plan), ops);
    var r := Run(Opening(plan), ops);
    forall n: Resource
      ensures r.books.Remaining(sid, n) == plan.allocations[n] - r.books.Taken(sid, n) >= 0
      ensures r.books.total[n] <= plan.ceilings[n].0 && r.books.Taken(sid, n) <= plan.ceilings[n].1
      ensures plan.allocations[n] == plan.ceilings[n].1 || |plan.ids| * (plan.allocations[n] + 1) > plan.ceilings[n].0
    {
      RemainingIsLocal(r.books, sid, n);
      TotalFits(r.books, n);
      ShareIsGreatest(|plan.ids|, plan.ceilings[n]);
    }
    GlobalReadGuardIsSlack(r.books, sid, "", true);
  }

  lemma OpeningPlan(plan: Plan)
    requires plan.Sound()
    ensures Opening(plan).books.plan == plan
  {
  }

  lemma TotalFits(b: Books, n: Resource)
    requires b.Tables() && b.Admissions()
    ensures b.total[n] <= b.plan.ceilings[n].0
  {
    hide Sum, Share, CEILING, Distinct;
    assert forall s <- b.plan.ids :: b.used[n][s] <= b.Taken(s, n);
    SumBounded(b.plan.ids, b.used[n], b.plan.allocations[n]);
    ShareFits(|b.plan.ids|, b.plan.ceilings[n]);
  }

  function Actor(r: Request, op: Op): SpaceId
    requires op.SpendCredit? || op.FinishCredit? ==> op.credit < |r.books.ledger|
  {
    if op.SpendCredit? || op.FinishCredit? then r.books.ledger[op.credit].sid else op.sid
  }

  /** No operation of another space changes what a space has left, of any resource. */
  lemma Isolation(r: Request, op: Op, sid: SpaceId, n: Resource)
    requires r.Valid() && Applies(r, op) && sid in r.books.plan.ids && sid != Actor(r, op)
    ensures Apply(r, op).Valid() && Apply(r, op).books.plan == r.books.plan
    ensures Apply(r, op).books.Remaining(sid, n) == r.books.Remaining(sid, n)
  {
    hide Sum, Held, Share, CEILING, Distinct;
    ApplyKeeps(r, op);
    OthersKeepTheirTakings(r, op, Apply(r, op), sid, n);
    hide Apply, Applies;
    RemainingIsLocal(r.books, sid, n);
    RemainingIsLocal(Apply(r, op).books, sid, n);
  }

  ghost predicate SameTakings(b: Books, next: Books, sid: SpaceId, n: Resource)
    requires n in b.used && sid in b.used[n] && sid in b.reserved
  {
    sid in next.reserved && n in next.used && sid in next.used[n] && next.Taken(sid, n) == b.Taken(sid, n)
  }

  lemma OthersKeepWhenCharged(b: Books, s: SpaceId, m: Resource, count: nat, sid: SpaceId, n: Resource)
    requires b.Tables() && s in b.plan.ids && sid in b.plan.ids && sid != s
    ensures SameTakings(b, WithCharge(b, s, m, count), sid, n)
  {
    hide Plan.Sound, Books.Taken;
    ChargeTakes(b, s, m, count, sid, n);
  }

  lemma OthersKeepWhenSpent(b: Books, i: nat, sid: SpaceId, n: Resource)
    requires b.Valid() && i < |b.ledger| && b.ledger[i].live && b.ledger[i].left > 0
    requires sid in b.plan.ids && sid != b.ledger[i].sid
    ensures var c := b.ledger[i];
            && c.sid in b.plan.ids && HeldBy(c, c.sid) <= b.reserved[c.sid]
            && var freed := WithCredit(b, i, Spent(c));
               freed.Tables() && SameTakings(b, WithCharge(freed, c.sid, Probes, 1), sid, n)
  {
    hide Sum, Held, Share, CEILING, Distinct, WithCharge, Books.Admissions, Books.Reads, Books.Credits, Books.Parsing, Plan.Sound;
    CreditAlwaysSpends(b, i);
    OthersKeepWhenCharged(WithCredit(b, i, Spent(b.ledger[i])), b.ledger[i].sid, Probes, 1, sid, n);
  }

  lemma OthersKeepWhenCharging(r: Request, op: Op, sid: SpaceId, n: Resource)
    requires r.Valid() && Applies(r, op) && sid in r.books.plan.ids && sid != Actor(r, op)
    requires op.Charge? || op.AdmitOccurrence?
    ensures n in r.books.used && sid in r.books.used[n] && sid in r.books.reserved
    ensures SameTakings(r.books, Apply(r, op).books, sid, n)
  {
    hide Sum, Held, Share, CEILING, Distinct, WithCharge, Plan.Sound, Books.Taken, Books.Remaining, MayRead;
    ValidParts(r.books, sid, n);
    match op {
      case Charge(s, m, count) => OthersKeepWhenCharged(r.books, s, m, count, sid, n);
      case AdmitOccurrence(s) => OthersKeepWhenCharged(r.books, s, Relationships, 1, sid, n);
    }
  }

  lemma OthersKeepWhenSpending(r: Request, i: nat, sid: SpaceId, n: Resource)
    requires r.Valid() && Applies(r, SpendCredit(i)) && sid in r.books.plan.ids && sid != Actor(r, SpendCredit(i))
    ensures n in r.books.used && sid in r.books.used[n] && sid in r.books.reserved
    ensures SameTakings(r.books, Apply(r, SpendCredit(i)).books, sid, n)
  {
    hide Sum, Held, Share, CEILING, Distinct, WithCharge, WithCredit, Plan.Sound, Books.Taken, Books.Remaining, MayRead;
    ValidParts(r.books, sid, n);
    if r.books.ledger[i].live && r.books.ledger[i].left > 0 {
      OthersKeepWhenSpent(r.books, i, sid, n);
    }
  }

  lemma OthersKeepOtherwise(r: Request, op: Op, sid: SpaceId, n: Resource)
    requires r.Valid() && Applies(r, op) && sid in r.books.plan.ids && sid != Actor(r, op)
    requires !op.Charge? && !op.AdmitOccurrence? && !op.SpendCredit?
    ensures n in r.books.used && sid in r.books.used[n] && sid in r.books.reserved
    ensures SameTakings(r.books, Apply(r, op).books, sid, n)
  {
    hide Sum, Held, Share, CEILING, Distinct, WithCharge, Plan.Sound, Books.Remaining, MayRead;
    hide Books.Admissions, Books.Reads, Books.Credits, Books.Parsing, Books.Tables;
    ValidParts(r.books, sid, n);
    if op.FinishCredit? {
      CreditCovered(r.books, op.credit);
    }
  }

  lemma OthersKeepTheirTakings(r: Request, op: Op, next: Request, sid: SpaceId, n: Resource)
    requires r.Valid() && Applies(r, op) && sid in r.books.plan.ids && sid != Actor(r, op)
    requires next == Apply(r, op)
    ensures sid in next.books.reserved && n in next.books.used && sid in next.books.used[n]
    ensures next.books.Taken(sid, n) == r.books.Taken(sid, n)
  {
    hide Apply, Books.Valid, Books.Taken;
    if op.Charge? || op.AdmitOccurrence? {
      OthersKeepWhenCharging(r, op, sid, n);
    } else if op.SpendCredit? {
      OthersKeepWhenSpending(r, op.credit, sid, n);
    } else {
      OthersKeepOtherwise(r, op, sid, n);
    }
  }

  lemma ValidParts(b: Books, sid: SpaceId, n: Resource)
    requires b.Valid() && sid in b.plan.ids
    ensures b.Tables() && b.Admissions() && n in b.total && n in b.used && sid in b.used[n] && sid in b.reserved
    ensures n in b.plan.allocations
  {
  }

  // ----- the mutable counters

  class Budget {
    const plan: Plan
    var total: map<Resource, nat>
    /** By resource, then by space. */
    var used: map<Resource, map<SpaceId, nat>>
    var reserved: map<SpaceId, nat>
    var readCount: nat
    var candidateReads: map<SpaceId, nat>
    var incomingReads: set<(SpaceId, string)>
    var parseProbes: nat
    var spaceParseProbes: map<SpaceId, nat>
    var relationshipSources: set<(SpaceId, string)>
    var sourceBytes: map<SpaceId, nat>
    /** The credits ever reserved, in order. */
    ghost var ledger: seq<Credit>

    ghost function View(): Books
      reads this
    {
      Books(plan, total, used, reserved, readCount, candidateReads, incomingReads, parseProbes,
            spaceParseProbes, relationshipSources, sourceBytes, ledger)
    }

    constructor (plan: Plan)
      requires plan.Sound()
      ensures View() == Opening(plan).books
    {
      var zero: map<SpaceId, nat> := map s | s in plan.ids :: 0;
      this.plan := plan;
      total, used := map n | n in RESOURCES :: 0, map n | n in RESOURCES :: zero;
      reserved, candidateReads, spaceParseProbes, sourceBytes := zero, zero, zero, zero;
      readCount, incomingReads, parseProbes, relationshipSources, ledger := 0, {}, 0, {}, [];
    }

    /** The constructor's own checks: no space, a space twice, or a limit that raises a ceiling is refused. Otherwise
        every limit replaces its ceiling, and each space's share is the greatest that all of them can have. */
    static method ForRequest(ids: seq<SpaceId>, limits: map<Resource, (int, int)>) returns (r: Outcome<Budget>)
      ensures r.Ok? || r == Rejected
      ensures r.Ok? <==> ids != [] && (forall i, j :: 0 <= i < j < |ids| ==> ids[i] != ids[j])
                         && forall n <- limits :: 0 <= limits[n].0 <= CEILING(n).0 && 0 <= limits[n].1 <= CEILING(n).1
      ensures r.Ok? ==> fresh(r.value) && r.value.View().Valid() && r.value.plan.ids == ids
      ensures r.Ok? ==> forall n: Resource ::
                Fair(ids, limits, n, r.value.plan.ceilings[n], r.value.plan.allocations[n])
                && forall sid <- ids :: r.value.Remaining(sid, n) == r.value.plan.allocations[n]
    {
      if !MayOpen(ids, limits) {
        return Rejected;
      }
      var plan := PlanOf(ids, limits);
      PlanIsSound(ids, limits);
      OpeningIsValid(plan);
      OpensFull(plan);
      OpeningPlan(plan);
      assert plan.ids == ids;
      hide PlanOf, Fair, MayOpen, CEILING, Share, Distinct, Books.Admissions, Books.Reads, Books.Credits, Books.Parsing,
           Books.Taken, Books.Remaining, Sum, Held, Opening, Plan.Sound;
      forall n: Resource ensures n in plan.ceilings && n in plan.allocations
                             && Fair(ids, limits, n, plan.ceilings[n], plan.allocations[n]) {
        PlanIsFair(ids, limits, n);
      }
      var budget := new Budget(plan);
      r := Ok(budget);
    }

    function Remaining(sid: SpaceId, n: Resource): (r: int)
      reads this
      requires View().Tables() && View().Admissions() && sid in plan.ids
      ensures r == plan.allocations[n] - View().Taken(sid, n) >= 0
    {
      RemainingIsLocal(View(), sid, n);
      var held := if n == Probes then Sum(plan.ids, reserved) else 0;
      var own := if n == Probes then reserved[sid] else 0;
      var aggregate := plan.ceilings[n].0 as int - total[n] - held;
      var space := plan.allocations[n] as int - used[n][sid] - own;
      if aggregate <= space then aggregate else space
    }

    method ReserveCleanup(sid: SpaceId) returns (r: Outcome<CleanupCredit>)
      requires View().Valid() && sid in plan.ids
      modifies this`reserved, this`ledger
      ensures View().Valid()
      ensures r.Ok? || r == Exhausted(Probes)
      ensures r.Ok? <==> old(Remaining(sid, Probes)) >= 8
      ensures View() == if r.Ok? then WithReservation(old(View()), sid) else old(View())
      ensures r.Ok? ==> fresh(r.value) && r.value.owner == this && r.value.Tracked() && r.value.live && r.value.left == 8
    {
      hide Sum, Held, Share, CEILING, Distinct, Books.Admissions, Books.Reads, Books.Credits, Books.Parsing, Plan.Sound;
      if Remaining(sid, Probes) < 8 {
        return Exhausted(Probes);
      }
      ReservationKeeps(View(), sid);
      reserved := reserved[sid := reserved[sid] + 8];
      ledger := ledger + [Credit(sid, 8, true)];
      var credit := new CleanupCredit(this, sid, |ledger| - 1);
      r := Ok(credit);
    }

    /** A charge succeeds exactly within the space's own slack. */
    method Charge(sid: SpaceId, n: Resource, count: int) returns (r: Outcome<()>)
      requires View().Valid() && sid in plan.ids
      modifies this`total, this`used
      ensures View().Valid()
      ensures r == if count < 0 then Rejected
                   else if count > old(Remaining(sid, n)) then Exhausted(n)
                   else Ok(())
      ensures View() == if r.Ok? then WithCharge(old(View()), sid, n, count) else old(View())
    {
      hide Sum, Held, Share, CEILING, Distinct, Plan.Sound, WithCharge, Books.Valid, Books.Tables, Books.Admissions;
      hide Books.Reads, Books.Credits, Books.Parsing, Books.Taken, Books.Remaining;
      ValidParts(View(), sid, n);
      if count < 0 {
        return Rejected;
      }
      if count > Remaining(sid, n) {
        return Exhausted(n);
      }
      ChargeKeeps(View(), sid, n, count);
      Spend(sid, n, count);
      r := Ok(());
    }

    method Spend(sid: SpaceId, n: Resource, count: nat)
      requires n in total && n in used && sid in used[n]
      modifies this`total, this`used
      ensures View() == WithCharge(old(View()), sid, n, count)
    {
      total := total[n := total[n] + count];
      var row: map<SpaceId, nat> := used[n][sid := used[n][sid] + count];
      used := used[n := row];
    }

    /** The global read guard never refuses what the local guards admit. */
    method AdmitRead(sid: SpaceId, path: string, incoming: bool) returns (r: Outcome<()>)
      requires View().Valid() && sid in plan.ids
      modifies this`readCount, this`candidateReads, this`incomingReads
      ensures View().Valid()
      ensures r == if old(MayRead(View(), sid, path, incoming)) then Ok(()) else Exhausted(Bytes)
      ensures r.Ok? <==> if incoming then (sid, path) !in old(incomingReads) && |old(incomingReads)| < 16
                         else old(candidateReads)[sid] < plan.allocations[Paths]
      ensures r.Ok? ==> if incoming then incomingReads == old(incomingReads) + {(sid, path)} && candidateReads == old(candidateReads)
                        else candidateReads == old(candidateReads)[sid := old(candidateReads)[sid] + 1]
                             && incomingReads == old(incomingReads)
      ensures View() == if r.Ok? then WithRead(old(View()), sid, path, incoming) else old(View())
    {
      hide Sum, Held, Share, CEILING, Distinct, Books.Admissions, Books.Credits, Books.Parsing;
      GlobalReadGuardIsSlack(View(), sid, path, incoming);
      if readCount >= 20_016 {
        return Exhausted(Bytes);
      }
      if incoming {
        if (sid, path) in incomingReads || |incomingReads| == 16 {
          return Exhausted(Bytes);
        }
        ReadKeeps(View(), sid, path, incoming);
        incomingReads := incomingReads + {(sid, path)};
      } else {
        if candidateReads[sid] == plan.allocations[Paths] {
          return Exhausted(Bytes);
        }
        ReadKeeps(View(), sid, path, incoming);
        candidateReads := candidateReads[sid := candidateReads[sid] + 1];
      }
      readCount := readCount + 1;
      r := Ok(());
    }
  }

  /** Pre-admitted metadata work for one resource disposal attempt. */
  class CleanupCredit {
    const owner: Budget
    const sid: SpaceId
    /** Where the owner's ledger records this credit. */
    ghost const index: nat
    /** False once finished: the source then drops its reference to the budget. */
    var live: bool
    var left: nat

    ghost predicate Tracked()
      reads this, owner
    {
      owner.View().Valid() && index < |owner.ledger| && owner.ledger[index] == Credit(sid, left, live)
    }

    constructor (owner: Budget, sid: SpaceId, ghost index: nat)
      ensures this.owner == owner && this.sid == sid && this.index == index && live && left == 8
    {
      this.owner, this.sid, this.index, live, left := owner, sid, index, true, 8;
    }

    /** Up to its bound of 8 a live credit always spends: exhaustion is not an outcome. */
    method Probe() returns (r: Outcome<()>)
      requires Tracked()
      modifies this`left, owner`reserved, owner`total, owner`used, owner`ledger
      ensures Tracked() && live == old(live)
      ensures r == if live && old(left) == 0 then Rejected else Ok(())
      ensures left == old(left) - if live && r.Ok? then 1 else 0
      ensures !(live && r.Ok?) ==> owner.View() == old(owner.View())
      ensures live && r.Ok? ==>
                var b := old(owner.View());
                && sid in b.reserved && HeldBy(b.ledger[index], sid) <= b.reserved[sid] && sid in b.used[Probes]
                && owner.View() == WithCharge(WithCredit(b, index, Credit(sid, left, true)), sid, Probes, 1)
    {
      hide Sum, Held, Share, CEILING, Distinct, Books.Admissions, Books.Reads, Books.Credits, Books.Parsing, Plan.Sound;
      if !live {
        return Ok(());
      }
      if left == 0 {
        return Rejected;
      }
      CreditAlwaysSpends(owner.View(), index);
      left := left - 1;
      owner.reserved := owner.reserved[sid := owner.reserved[sid] - 1];
      owner.ledger := owner.ledger[index := Credit(sid, left, live)];
      RemainingIsLocal(owner.View(), sid, Probes);
      r := owner.Charge(sid, Probes, 1);
    }

    method Finish()
      requires Tracked()
      modifies this`live, owner`reserved, owner`ledger
      ensures Tracked() && !live && left == old(left)
      ensures var b := old(owner.View());
              && sid in b.reserved && HeldBy(b.ledger[index], sid) <= b.reserved[sid]
              && owner.View() == WithCredit(b, index, Credit(sid, left, false))
    {
      hide Sum, Held, Share, CEILING, Distinct, Books.Admissions, Books.Reads, Books.Parsing, Plan.Sound;
      CreditCovered(owner.View(), index);
      CreditKeeps(owner.View(), index, Credit(sid, left, false));
      if live {
        owner.reserved := owner.reserved[sid := owner.reserved[sid] - left];
        live := false;
        owner.ledger := owner.ledger[index := Credit(sid, left, live)];
      }
    }
  }

  /** The parse credit of one space; the books balance when each space has one view. */
  class RelationshipView {
    const owner: Budget
    const sid: SpaceId
    var parseLeft: nat

    ghost predicate Valid()
      reads this, owner
    {
      && owner.View().Valid() && sid in owner.plan.ids
      && owner.spaceParseProbes[sid] + parseLeft <= 16 * owner.sourceBytes[sid]
    }

    constructor (owner: Budget, sid: SpaceId)
      requires owner.View().Valid() && sid in owner.plan.ids
      requires owner.spaceParseProbes[sid] <= 16 * owner.sourceBytes[sid]
      ensures Valid() && this.owner == owner && this.sid == sid && parseLeft == 0
    {
      this.owner, this.sid, parseLeft := owner, sid, 0;
    }

    /** `available` asks whether this is positive: the occurrences this space may still admit. */
    function Admissible(): (r: nat)
      requires Valid()
      reads this, owner
      ensures r == owner.plan.allocations[Relationships] - owner.used[Relationships][sid]
    {
      owner.Remaining(sid, Relationships)
    }

    method Source(path: string, byteLength: int) returns (r: Outcome<()>)
      requires Valid()
      modifies this`parseLeft, owner`relationshipSources, owner`sourceBytes
      ensures Valid()
      ensures r.Ok? || r == Rejected
      ensures r.Ok? <==> && byteLength >= 0 && (sid, path) !in old(owner.relationshipSources)
                         && byteLength + old(owner.sourceBytes[sid]) <= owner.used[Bytes][sid]
      ensures owner.View() == if r.Ok? then WithSource(old(owner.View()), sid, path, byteLength) else old(owner.View())
      ensures parseLeft == if r.Ok? then 16 * byteLength else old(parseLeft)
    {
      hide Sum, Held, Share, CEILING, Distinct, Books.Admissions, Books.Reads, Books.Credits, Books.Parsing, Plan.Sound;
      if byteLength < 0 || (sid, path) in owner.relationshipSources {
        return Rejected;
      }
      if byteLength + owner.sourceBytes[sid] > owner.used[Bytes][sid] {
        return Rejected;
      }
      SourceKeeps(owner.View(), sid, path, byteLength);
      owner.relationshipSources := owner.relationshipSources + {(sid, path)};
      owner.sourceBytes := owner.sourceBytes[sid := owner.sourceBytes[sid] + byteLength];
      parseLeft := 16 * byteLength;
      r := Ok(());
    }

    /** A probe is all or nothing, and moves credit to the spent side one for one. */
    method Probe(count: nat) returns (r: Outcome<()>)
      requires Valid()
      modifies this`parseLeft, owner`parseProbes, owner`spaceParseProbes
      ensures Valid()
      ensures r == if count > old(parseLeft) then Exhausted(Relationships) else Ok(())
      ensures parseLeft == old(parseLeft) - if r.Ok? then count else 0
      ensures owner.spaceParseProbes[sid] + parseLeft == old(owner.spaceParseProbes[sid] + parseLeft)
    {
      hide Sum, Held, Share, CEILING, Distinct, Books.Admissions, Books.Reads, Books.Credits, Books.Parsing, Plan.Sound;
      if count > parseLeft {
        return Exhausted(Relationships);
      }
      var todo := count;
      while todo > 0
        invariant Valid() && 0 <= todo <= parseLeft
        invariant parseLeft - todo == old(parseLeft) - count
        invariant owner.spaceParseProbes[sid] + parseLeft == old(owner.spaceParseProbes[sid] + parseLeft)
      {
        var batch := if todo < 1024 then todo else 1024;
        ParseKeeps(owner.View(), sid, batch);
        parseLeft := parseLeft - batch;
        owner.parseProbes := owner.parseProbes + batch;
        owner.spaceParseProbes := owner.spaceParseProbes[sid := owner.spaceParseProbes[sid] + batch];
        todo := todo - batch;
      }
      r := Ok(());
    }

    /** Admission needs parse credit left over as well as an occurrence to spend. */
    method TryAdmit() returns (r: Outcome<()>)
      requires Valid()
      modifies owner`total, owner`used
      ensures Valid()
      ensures r == if parseLeft == 0 || old(Admissible()) == 0 then Exhausted(Relationships) else Ok(())
      ensures Admissible() == old(Admissible()) - if r.Ok? then 1 else 0
    {
      hide Sum, Held, Share, CEILING, Distinct, Books.Admissions, Books.Reads, Books.Credits, Books.Parsing, Plan.Sound;
      if parseLeft == 0 {
        return Exhausted(Relationships);
      }
      r := owner.Charge(sid, Relationships, 1);
    }
  }
}
