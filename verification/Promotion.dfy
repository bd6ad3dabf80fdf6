/** Promotion of agreed practices: the ledger of reported outcomes, per-agent trust
    priors, and the periodic pass that turns agreed groups into durable rows and
    raises the priors of the agents behind them. Averages are exact; passes do not
    overlap and statements do not fail. */
module Promotion {

  import opened Common

  datatype Outcome = Worked | Failed | Mixed | Prefer | Avoid | SupersededByPeer

  datatype Report = Report(
    agent: string, project: Option<int>, taskKind: string, approach: string, outcome: Outcome, confidence: real)

  datatype Group = Group(approach: string, taskKind: string, outcome: Outcome, project: Option<int>)

  datatype Scope = Workspace | Project

  datatype Key = Key(scope: Scope, project: Option<int>, polarity: string, imperative: string)

  datatype Practice = Practice(key: Key, target: string)

  datatype Db = Db(ledger: seq<Report>, trust: map<string, real>, durables: seq<Practice>)

  datatype Config = Config(minAgents: int, minConfidence: real, threshold: real, workspacePromotion: int)

  // --------------------------------------------------------------- recording

  function Clamp(x: real): (r: real)
    ensures 0.0 <= r <= 1.0 && (0.0 <= x <= 1.0 ==> r == x)
  {
    if x < 0.0 then 0.0 else if x > 1.0 then 1.0 else x
  }

  /** A report goes into the ledger, and its agent into the trust table if new. */
  function Recorded(db: Db, r: Report): Db {
    Db(db.ledger + [r.(confidence := Clamp(r.confidence))],
       if r.agent in db.trust then db.trust else db.trust[r.agent := 0.5],
       db.durables)
  }

  // ----------------------------------------------------------------- grouping

  function GroupOf(r: Report): Group { Group(r.approach, r.taskKind, r.outcome, r.project) }

  function Size(ledger: seq<Report>, g: Group): nat {
    if ledger == [] then 0
    else Size(ledger[..|ledger| - 1], g) + if GroupOf(ledger[|ledger| - 1]) == g then 1 else 0
  }

  function Confidence(ledger: seq<Report>, g: Group): real {
    if ledger == [] then 0.0
    else
      Confidence(ledger[..|ledger| - 1], g) +
        if GroupOf(ledger[|ledger| - 1]) == g then ledger[|ledger| - 1].confidence else 0.0
  }

  /** How many of the group's reports come from an agent with a trust row. */
  function Trusted(ledger: seq<Report>, trust: map<string, real>, g: Group): nat {
    if ledger == [] then 0
    else
      var r := ledger[|ledger| - 1];
      Trusted(ledger[..|ledger| - 1], trust, g) + if GroupOf(r) == g && r.agent in trust then 1 else 0
  }

  function Priors(ledger: seq<Report>, trust: map<string, real>, g: Group): real {
    if ledger == [] then 0.0
    else
      var r := ledger[|ledger| - 1];
      Priors(ledger[..|ledger| - 1], trust, g) + if GroupOf(r) == g && r.agent in trust then trust[r.agent] else 0.0
  }

  function Agents(ledger: seq<Report>, g: Group): set<string> {
    set i | 0 <= i < |ledger| && GroupOf(ledger[i]) == g :: ledger[i].agent
  }

  function MeanConfidence(db: Db, g: Group): real
    requires Size(db.ledger, g) > 0
  {
    Confidence(db.ledger, g) / Size(db.ledger, g) as real
  }

  /** Rows without a trust entry do not count; with none at all the prior is 0.5. */
  function MeanPrior(db: Db, g: Group): real {
    var n := Trusted(db.ledger, db.trust, g);
    if n == 0 then 0.5 else Priors(db.ledger, db.trust, g) / n as real
  }

  predicate Qualifies(db: Db, g: Group, cfg: Config) {
    && Size(db.ledger, g) > 0
    && |Agents(db.ledger, g)| >= cfg.minAgents
    && MeanConfidence(db, g) >= cfg.minConfidence
    && MeanConfidence(db, g) * MeanPrior(db, g) >= cfg.threshold
  }

  // ------------------------------------------------------------------ routing

  function Polarity(o: Outcome): Option<string> {
    match o
    case Worked | Prefer => Some("prefer")
    case Failed | Avoid => Some("avoid")
    case SupersededByPeer => Some("correction")
    case Mixed => None
  }

  function Span(ledger: seq<Report>, approach: string, taskKind: string): nat {
    |set i | 0 <= i < |ledger| && ledger[i].approach == approach && ledger[i].taskKind == taskKind
             && ledger[i].project.Some? :: ledger[i].project.value|
  }

  function KeyOf(ledger: seq<Report>, g: Group, cfg: Config): Option<Key> {
    var p := Polarity(g.outcome);
    if p.None? then None
    else if Span(ledger, g.approach, g.taskKind) >= cfg.workspacePromotion
    then Some(Key(Workspace, None, p.value, g.approach))
    else Some(Key(Project, g.project, p.value, g.approach))
  }

  // -------------------------------------------------------------------- a pass

  function Keys(durables: seq<Practice>): set<Key> { set i | 0 <= i < |durables| :: durables[i].key }

  function Contributors(ledger: seq<Report>, approach: string, taskKind: string): set<string> {
    set i | 0 <= i < |ledger| && ledger[i].approach == approach && ledger[i].taskKind == taskKind :: ledger[i].agent
  }

  function Raised(p: real): real { if p + 0.05 < 1.0 then p + 0.05 else 1.0 }

  function Bumped(trust: map<string, real>, agents: set<string>): map<string, real> {
    map a | a in trust :: if a in agents then Raised(trust[a]) else trust[a]
  }

  function PromoteOne(db: Db, g: Group, cfg: Config): Db {
    var key := KeyOf(db.ledger, g, cfg);
    if key.None? || key.value in Keys(db.durables) then db
    else
      Db(db.ledger,
         Bumped(db.trust, Contributors(db.ledger, g.approach, g.taskKind)),
         db.durables + [Practice(key.value, g.taskKind)])
  }

  function Pass(db: Db, rows: seq<Group>, cfg: Config): Db {
    if rows == [] then db else PromoteOne(Pass(db, rows[..|rows| - 1], cfg), rows[|rows| - 1], cfg)
  }

  /** The rows the selection returns, in whatever order. */
  ghost predicate Listing(rows: seq<Group>, db: Db, cfg: Config) {
    forall g :: g in rows <==> Qualifies(db, g, cfg)
  }

  // ---------------------------------------------------------------- invariants

  ghost predicate Valid(db: Db) {
    && (forall i | 0 <= i < |db.ledger| :: 0.0 <= db.ledger[i].confidence <= 1.0)
    && (forall a | a in db.trust :: 0.0 <= db.trust[a] <= 1.0)
  }

  /** Reports and durable rows are never lost, no prior falls, and every new durable
      row has a key that no row before it has. */
  ghost predicate Grows(a: Db, b: Db) {
    && a.ledger <= b.ledger && a.durables <= b.durables
    && a.trust.Keys <= b.trust.Keys
    && (forall x | x in a.trust :: a.trust[x] <= b.trust[x])
    && forall i, j | 0 <= i < j < |b.durables| && |a.durables| <= j :: b.durables[i].key != b.durables[j].key
  }

  lemma PromoteOneSafe(db: Db, g: Group, cfg: Config)
    requires Valid(db)
    ensures var after := PromoteOne(db, g, cfg);
      && Valid(after) && Grows(db, after) && after.ledger == db.ledger && after.trust.Keys == db.trust.Keys
  {
  }

  lemma {:induction false} PassSafe(db: Db, rows: seq<Group>, cfg: Config)
    requires Valid(db)
    ensures var after := Pass(db, rows, cfg);
      && Valid(after) && Grows(db, after) && after.ledger == db.ledger && after.trust.Keys == db.trust.Keys
    decreases |rows|
  {
    if rows != [] {
      PassSafe(db, rows[..|rows| - 1], cfg);
      PromoteOneSafe(Pass(db, rows[..|rows| - 1], cfg), rows[|rows| - 1], cfg);
    }
  }

  lemma RecordSafe(db: Db, r: Report)
    requires Valid(db)
    ensures Valid(Recorded(db, r)) && Grows(db, Recorded(db, r))
  {
  }

  // -------------------------------------------------- what a pass has inserted

  /** The keys the given groups are routed to. */
  function Routed(ledger: seq<Report>, rows: seq<Group>, cfg: Config): set<Key> {
    set i | 0 <= i < |rows| && KeyOf(ledger, rows[i], cfg).Some? :: KeyOf(ledger, rows[i], cfg).value
  }

  /** After a pass exactly the keys of its rows are there besides the old ones. */
  lemma {:induction false} PassKeys(db: Db, rows: seq<Group>, cfg: Config)
    ensures Pass(db, rows, cfg).ledger == db.ledger
    ensures Keys(Pass(db, rows, cfg).durables) == Keys(db.durables) + Routed(db.ledger, rows, cfg)
    decreases |rows|
  {
    if rows != [] {
      var n := |rows| - 1;
      var before := Pass(db, rows[..n], cfg);
      PassKeys(db, rows[..n], cfg);
      var key := KeyOf(db.ledger, rows[n], cfg);
      RoutedSnoc(db.ledger, rows, cfg);
      if key.Some? && key.value !in Keys(before.durables) {
        KeysSnoc(before.durables, Practice(key.value, rows[n].taskKind));
      }
    }
  }

  lemma KeysSnoc(durables: seq<Practice>, p: Practice)
    ensures Keys(durables + [p]) == Keys(durables) + {p.key}
  {
    assert (durables + [p])[|durables|] == p;
    assert forall i | 0 <= i < |durables| :: (durables + [p])[i] == durables[i];
  }

  lemma RoutedSnoc(ledger: seq<Report>, rows: seq<Group>, cfg: Config)
    requires rows != []
    ensures var key := KeyOf(ledger, rows[|rows| - 1], cfg);
      Routed(ledger, rows, cfg) == Routed(ledger, rows[..|rows| - 1], cfg) + if key.Some? then {key.value} else {}
  {
    var front := rows[..|rows| - 1];
    assert forall i | 0 <= i < |front| :: front[i] == rows[i];
  }

  /** A pass that has nothing new to insert changes nothing, priors included. */
  lemma {:induction false} IdlePass(db: Db, rows: seq<Group>, cfg: Config)
    requires Routed(db.ledger, rows, cfg) <= Keys(db.durables)
    ensures Pass(db, rows, cfg) == db
    decreases |rows|
  {
    if rows != [] {
      RoutedSnoc(db.ledger, rows, cfg);
      IdlePass(db, rows[..|rows| - 1], cfg);
    }
  }

  // -------------------------------------------------------------- monotonicity

  lemma {:induction false} PriorsRise(
    ledger: seq<Report>, before: map<string, real>, after: map<string, real>, g: Group)
    requires before.Keys == after.Keys && forall a | a in before :: before[a] <= after[a]
    ensures Trusted(ledger, after, g) == Trusted(ledger, before, g)
    ensures Priors(ledger, before, g) <= Priors(ledger, after, g)
    decreases |ledger|
  {
    if ledger != [] { PriorsRise(ledger[..|ledger| - 1], before, after, g); }
  }

  lemma {:induction false} ConfidenceNotNegative(ledger: seq<Report>, g: Group)
    requires forall i | 0 <= i < |ledger| :: 0.0 <= ledger[i].confidence <= 1.0
    ensures 0.0 <= Confidence(ledger, g)
    decreases |ledger|
  {
    if ledger != [] { ConfidenceNotNegative(ledger[..|ledger| - 1], g); }
  }

  lemma DivisionMonotone(x: real, y: real, n: real)
    requires x <= y && n > 0.0
    ensures x / n <= y / n
  {
  }

  lemma ProductMonotone(c: real, x: real, y: real)
    requires c >= 0.0 && x <= y
    ensures c * x <= c * y
  {
  }

  /** With the ledger unchanged a group that qualifies keeps qualifying. */
  lemma QualifiesForever(db: Db, after: Db, g: Group, cfg: Config)
    requires Valid(db) && Grows(db, after) && after.ledger == db.ledger && after.trust.Keys == db.trust.Keys
    requires Qualifies(db, g, cfg)
    ensures Qualifies(after, g, cfg)
  {
    PriorsRise(db.ledger, db.trust, after.trust, g);
    ConfidenceNotNegative(db.ledger, g);
    var n := Trusted(db.ledger, db.trust, g);
    if n > 0 {
      DivisionMonotone(Priors(db.ledger, db.trust, g), Priors(db.ledger, after.trust, g), n as real);
    }
    DivisionMonotone(0.0, Confidence(db.ledger, g), Size(db.ledger, g) as real);
    ProductMonotone(MeanConfidence(db, g), MeanPrior(db, g), MeanPrior(after, g));
  }

  // --------------------------------------------------------------- convergence

  /** Every qualifying group that carries a polarity has its durable row. */
  ghost predicate Settled(db: Db, cfg: Config) {
    forall g | Qualifies(db, g, cfg) ::
      KeyOf(db.ledger, g, cfg).Some? ==> KeyOf(db.ledger, g, cfg).value in Keys(db.durables)
  }

  /** A pass changes nothing exactly on a settled database, whatever the row order. */
  lemma IdleIffSettled(db: Db, rows: seq<Group>, cfg: Config)
    requires Listing(rows, db, cfg)
    ensures Pass(db, rows, cfg) == db <==> Settled(db, cfg)
  {
    if Settled(db, cfg) {
      forall k | k in Routed(db.ledger, rows, cfg) ensures k in Keys(db.durables) {
        var i :| 0 <= i < |rows| && KeyOf(db.ledger, rows[i], cfg) == Some(k);
        assert rows[i] in rows;
      }
      IdlePass(db, rows, cfg);
    } else {
      var g :| Qualifies(db, g, cfg) && KeyOf(db.ledger, g, cfg).Some?
        && KeyOf(db.ledger, g, cfg).value !in Keys(db.durables);
      PassKeys(db, rows, cfg);
      var i :| 0 <= i < |rows| && rows[i] == g;
      assert KeyOf(db.ledger, rows[i], cfg).value in Routed(db.ledger, rows, cfg);
    }
  }

  lemma {:induction false} SizeWitness(ledger: seq<Report>, g: Group) returns (i: nat)
    requires Size(ledger, g) > 0
    ensures i < |ledger| && GroupOf(ledger[i]) == g
    decreases |ledger|
  {
    var n := |ledger| - 1;
    if GroupOf(ledger[n]) == g {
      i := n;
    } else {
      i := SizeWitness(ledger[..n], g);
    }
  }

  function Groups(ledger: seq<Report>): set<Group> { set i | 0 <= i < |ledger| :: GroupOf(ledger[i]) }

  function Image(f: Group -> Option<Key>, groups: set<Group>): set<Key> {
    set g | g in groups && f(g).Some? :: f(g).value
  }

  lemma {:induction false} ImageAtMost(f: Group -> Option<Key>, groups: set<Group>)
    ensures |Image(f, groups)| <= |groups|
    decreases groups
  {
    if groups == {} {
      assert Image(f, groups) == {};
    } else {
      var g :| g in groups;
      ImageAtMost(f, groups - {g});
      var more := if f(g).Some? then {f(g).value} else {};
      assert Image(f, groups) == Image(f, groups - {g}) + more;
    }
  }

  /** Every key some group of the ledger is routed to. */
  function AllKeys(db: Db, cfg: Config): set<Key> { Image(g => KeyOf(db.ledger, g, cfg), Groups(db.ledger)) }

  lemma KeysAtMostGroups(db: Db, cfg: Config)
    ensures |AllKeys(db, cfg)| <= |Groups(db.ledger)|
  {
    ImageAtMost(g => KeyOf(db.ledger, g, cfg), Groups(db.ledger));
  }

  lemma QualifyingKeyIsReachable(db: Db, g: Group, cfg: Config)
    requires Qualifies(db, g, cfg) && KeyOf(db.ledger, g, cfg).Some?
    ensures KeyOf(db.ledger, g, cfg).value in AllKeys(db, cfg)
  {
    var i := SizeWitness(db.ledger, g);
    assert GroupOf(db.ledger[i]) in Groups(db.ledger);
  }

  /** The reachable keys that have a durable row. */
  function Done(db: Db, cfg: Config): set<Key> { Keys(db.durables) * AllKeys(db, cfg) }

  lemma SettledWhenAllDone(db: Db, cfg: Config)
    requires |Done(db, cfg)| >= |AllKeys(db, cfg)|
    ensures Settled(db, cfg)
  {
    SubsetOfSameSize(Done(db, cfg), AllKeys(db, cfg));
    forall g | Qualifies(db, g, cfg) && KeyOf(db.ledger, g, cfg).Some?
      ensures KeyOf(db.ledger, g, cfg).value in Keys(db.durables)
    {
      QualifyingKeyIsReachable(db, g, cfg);
    }
  }

  lemma SubsetOfSameSize(a: set<Key>, b: set<Key>)
    requires a <= b && |a| >= |b|
    ensures a == b
  {
    assert |b - a| == |b| - |a|;
  }

  /** A pass over an unsettled database completes a key. */
  lemma PassProgresses(db: Db, rows: seq<Group>, cfg: Config)
    requires Listing(rows, db, cfg)
    ensures Settled(db, cfg) || |Done(Pass(db, rows, cfg), cfg)| > |Done(db, cfg)|
  {
    if !Settled(db, cfg) {
      var g :| Qualifies(db, g, cfg) && KeyOf(db.ledger, g, cfg).Some?
        && KeyOf(db.ledger, g, cfg).value !in Keys(db.durables);
      QualifyingKeyIsReachable(db, g, cfg);
      var j :| 0 <= j < |rows| && rows[j] == g;
      PassKeys(db, rows, cfg);
      var key := KeyOf(db.ledger, g, cfg).value;
      assert key in Routed(db.ledger, rows, cfg) && key in Done(Pass(db, rows, cfg), cfg);
      ProperSubset(Done(db, cfg), Done(Pass(db, rows, cfg), cfg), key);
    }
  }

  lemma ProperSubset(a: set<Key>, b: set<Key>, x: Key)
    requires a <= b && x in b && x !in a
    ensures |a| < |b|
  {
    assert |b - a| == |b| - |a| && x in b - a;
  }

  function Passes(db: Db, lists: seq<seq<Group>>, cfg: Config): Db {
    if lists == [] then db else Pass(Passes(db, lists[..|lists| - 1], cfg), lists[|lists| - 1], cfg)
  }

  /** Each pass works through the rows its own selection returned. */
  ghost predicate Faithful(db: Db, lists: seq<seq<Group>>, cfg: Config) {
    forall k | 0 <= k < |lists| :: Listing(lists[k], Passes(db, lists[..k], cfg), cfg)
  }

  lemma {:induction false} PassesProgress(db: Db, lists: seq<seq<Group>>, cfg: Config)
    requires Faithful(db, lists, cfg)
    ensures Settled(Passes(db, lists, cfg), cfg) || |Done(Passes(db, lists, cfg), cfg)| >= |Done(db, cfg)| + |lists|
    decreases |lists|
  {
    if lists != [] {
      var n := |lists| - 1;
      var before := Passes(db, lists[..n], cfg);
      assert Faithful(db, lists[..n], cfg) by {
        forall k | 0 <= k < n ensures Listing(lists[..n][k], Passes(db, lists[..n][..k], cfg), cfg) {
          assert lists[..n][..k] == lists[..k];
          assert Listing(lists[k], Passes(db, lists[..k], cfg), cfg);
        }
      }
      PassesProgress(db, lists[..n], cfg);
      assert Listing(lists[n], before, cfg);
      if Settled(before, cfg) {
        IdleIffSettled(before, lists[n], cfg);
      } else {
        PassProgresses(before, lists[n], cfg);
      }
    }
  }

  lemma {:induction false} PassesKeepLedger(db: Db, lists: seq<seq<Group>>, cfg: Config)
    ensures Passes(db, lists, cfg).ledger == db.ledger
    decreases |lists|
  {
    if lists != [] {
      PassesKeepLedger(db, lists[..|lists| - 1], cfg);
      PassKeys(Passes(db, lists[..|lists| - 1], cfg), lists[|lists| - 1], cfg);
    }
  }

  /** With no new reports, as many passes as there are keys still without a durable
      row, so at most one per group, reach a fixed point that no further pass
      changes, whatever order each pass took its rows in. */
  lemma PassesConverge(db: Db, lists: seq<seq<Group>>, more: seq<Group>, cfg: Config)
    requires Faithful(db, lists, cfg) && Listing(more, Passes(db, lists, cfg), cfg)
    requires |lists| >= |AllKeys(db, cfg)| - |Done(db, cfg)|
    ensures Pass(Passes(db, lists, cfg), more, cfg) == Passes(db, lists, cfg)
  {
    var end := Passes(db, lists, cfg);
    PassesKeepLedger(db, lists, cfg);
    PassesProgress(db, lists, cfg);
    if |Done(end, cfg)| >= |AllKeys(end, cfg)| { SettledWhenAllDone(end, cfg); }
    IdleIffSettled(end, more, cfg);
  }

  // ------------------------------------------- a pass foreseen from the tables

  /** The rows a pass inserts: one for the first group of each key that is not
      durable yet. */
  function Inserted(db: Db, rows: seq<Group>, cfg: Config): seq<Practice> {
    if rows == [] then []
    else
      var g := rows[|rows| - 1];
      Inserted(db, rows[..|rows| - 1], cfg) +
        if InsertsLast(db, rows, cfg) then [Practice(KeyOf(db.ledger, g, cfg).value, g.taskKind)] else []
  }

  /** The row at the end of a list is inserted if its key is new. */
  predicate InsertsLast(db: Db, rows: seq<Group>, cfg: Config)
    requires rows != []
  {
    var key := KeyOf(db.ledger, rows[|rows| - 1], cfg);
    key.Some? && key.value !in Keys(db.durables) + Routed(db.ledger, rows[..|rows| - 1], cfg)
  }

  lemma PassStep(db: Db, rows: seq<Group>, cfg: Config)
    requires rows != []
    ensures var before, g := Pass(db, rows[..|rows| - 1], cfg), rows[|rows| - 1];
      Pass(db, rows, cfg) ==
        if InsertsLast(db, rows, cfg)
        then Db(db.ledger, Bumped(before.trust, Contributors(db.ledger, g.approach, g.taskKind)),
                before.durables + [Practice(KeyOf(db.ledger, g, cfg).value, g.taskKind)])
        else before
  {
    PassKeys(db, rows[..|rows| - 1], cfg);
  }

  lemma {:induction false} PassInserts(db: Db, rows: seq<Group>, cfg: Config)
    ensures Pass(db, rows, cfg).durables == db.durables + Inserted(db, rows, cfg)
    decreases |rows|
  {
    if rows != [] {
      PassInserts(db, rows[..|rows| - 1], cfg);
      PassStep(db, rows, cfg);
    }
  }

  /** How many of the given rows the agent contributed to. */
  function Credits(ledger: seq<Report>, added: seq<Practice>, agent: string): nat {
    if added == [] then 0
    else
      var p := added[|added| - 1];
      Credits(ledger, added[..|added| - 1], agent)
      + if agent in Contributors(ledger, p.key.imperative, p.target) then 1 else 0
  }

  lemma CreditsSnoc(ledger: seq<Report>, added: seq<Practice>, p: Practice, agent: string)
    ensures Credits(ledger, added + [p], agent) == Credits(ledger, added, agent) +
      if agent in Contributors(ledger, p.key.imperative, p.target) then 1 else 0
  {
    assert (added + [p])[..|added|] == added;
  }

  function Capped(x: real): real { if x < 1.0 then x else 1.0 }

  lemma CappedStep(x: real, n: nat)
    ensures Raised(Capped(x + 0.05 * n as real)) == Capped(x + 0.05 * (n + 1) as real)
  {
  }

  /** 0.05 for each of the given rows the agent contributed to, up to 1. */
  function Earned(db: Db, added: seq<Practice>, agent: string): real
    requires agent in db.trust
  {
    Capped(db.trust[agent] + 0.05 * Credits(db.ledger, added, agent) as real)
  }

  lemma EarnedSnoc(db: Db, added: seq<Practice>, p: Practice, agent: string)
    requires agent in db.trust
    ensures Earned(db, added + [p], agent) ==
      if agent in Contributors(db.ledger, p.key.imperative, p.target)
      then Raised(Earned(db, added, agent)) else Earned(db, added, agent)
  {
    CreditsSnoc(db.ledger, added, p, agent);
    CappedStep(db.trust[agent], Credits(db.ledger, added, agent));
  }

  /** A pass raises a prior by what the agent earned with the rows it inserted, and
      by nothing else. */
  lemma {:induction false} PriorsAreEarned(db: Db, rows: seq<Group>, cfg: Config, agent: string)
    requires Valid(db) && agent in db.trust
    ensures agent in Pass(db, rows, cfg).trust
    ensures Pass(db, rows, cfg).trust[agent] == Earned(db, Inserted(db, rows, cfg), agent)
    decreases |rows|
  {
    if rows != [] {
      var front, g := rows[..|rows| - 1], rows[|rows| - 1];
      PriorsAreEarned(db, front, cfg, agent);
      PassStep(db, rows, cfg);
      if InsertsLast(db, rows, cfg) {
        var p := Practice(KeyOf(db.ledger, g, cfg).value, g.taskKind);
        EarnedSnoc(db, Inserted(db, front, cfg), p, agent);
        assert p.key.imperative == g.approach && p.target == g.taskKind;
      } else {
        assert Inserted(db, rows, cfg) == Inserted(db, front, cfg);
      }
    }
  }

  /** The priors a pass over these rows leaves behind. */
  function RaisedTrust(db: Db, rows: seq<Group>, cfg: Config): map<string, real> {
    var added := Inserted(db, rows, cfg);
    map a | a in db.trust :: Earned(db, added, a)
  }

  /** A pass does what can be told from the tables and its rows beforehand. */
  lemma PassForeseen(db: Db, rows: seq<Group>, cfg: Config)
    requires Valid(db)
    ensures Pass(db, rows, cfg) ==
      Db(db.ledger, RaisedTrust(db, rows, cfg), db.durables + Inserted(db, rows, cfg))
  {
    var once := Pass(db, rows, cfg);
    PassSafe(db, rows, cfg);
    PassInserts(db, rows, cfg);
    forall a | a in db.trust ensures once.trust[a] == RaisedTrust(db, rows, cfg)[a] {
      PriorsAreEarned(db, rows, cfg, a);
    }
    assert once.trust == RaisedTrust(db, rows, cfg);
  }

  // ------------------------------------------------------------ idempotence

  /** With the priors its own pass will leave behind, a group qualifies. */
  predicate Lifted(db: Db, rows: seq<Group>, g: Group, cfg: Config) {
    Qualifies(db.(trust := RaisedTrust(db, rows, cfg)), g, cfg)
  }

  lemma QualifiesByLedgerAndTrust(a: Db, b: Db, g: Group, cfg: Config)
    requires a.ledger == b.ledger && a.trust == b.trust
    ensures Qualifies(a, g, cfg) <==> Qualifies(b, g, cfg)
  {
  }

  lemma LiftedQualifies(db: Db, rows: seq<Group>, g: Group, cfg: Config)
    requires Valid(db)
    ensures Qualifies(Pass(db, rows, cfg), g, cfg) <==> Lifted(db, rows, g, cfg)
  {
    PassForeseen(db, rows, cfg);
    QualifiesByLedgerAndTrust(Pass(db, rows, cfg), db.(trust := RaisedTrust(db, rows, cfg)), g, cfg);
  }

  /** The group's key is durable already or taken by one of the rows. */
  predicate Served(db: Db, rows: seq<Group>, g: Group, cfg: Config) {
    var key := KeyOf(db.ledger, g, cfg);
    key.Some? ==> key.value in Keys(db.durables) + Routed(db.ledger, rows, cfg)
  }

  lemma ListedAreServed(db: Db, rows: seq<Group>, g: Group, cfg: Config)
    requires g in rows
    ensures Served(db, rows, g, cfg)
  {
    var i :| 0 <= i < |rows| && rows[i] == g;
    assert KeyOf(db.ledger, rows[i], cfg).Some? ==>
      KeyOf(db.ledger, rows[i], cfg).value in Routed(db.ledger, rows, cfg);
  }

  /** Repeating a pass changes nothing exactly when the priors that its rows will
      raise lift no group over the thresholds whose key is not served. All of this
      can be told before the first pass. */
  lemma RepeatIdleIff(db: Db, rows: seq<Group>, again: seq<Group>, cfg: Config)
    requires Valid(db) && Listing(rows, db, cfg) && Listing(again, Pass(db, rows, cfg), cfg)
    ensures Pass(Pass(db, rows, cfg), again, cfg) == Pass(db, rows, cfg) <==>
      forall g | Lifted(db, rows, g, cfg) && !Qualifies(db, g, cfg) :: Served(db, rows, g, cfg)
  {
    var once := Pass(db, rows, cfg);
    IdleIffSettled(once, again, cfg);
    PassKeys(db, rows, cfg);
    forall g ensures Qualifies(once, g, cfg) <==> Lifted(db, rows, g, cfg) {
      LiftedQualifies(db, rows, g, cfg);
    }
    forall g | Qualifies(db, g, cfg) ensures Served(db, rows, g, cfg) {
      ListedAreServed(db, rows, g, cfg);
    }
  }

  const Echo := Config(1, 0.0, 0.5, 2)

  function EchoReport(approach: string, confidence: real): Report {
    Report("a", Some(1), "t", approach, Worked, confidence)
  }

  function EchoDb(prior: real, durables: seq<Practice>): Db {
    Db([EchoReport("x", 1.0), EchoReport("y", 0.95)], map["a" := prior], durables)
  }

  lemma EchoQualifies(prior: real, durables: seq<Practice>, g: Group)
    requires 0.5 <= prior <= 0.6
    ensures var db := EchoDb(prior, durables);
      Qualifies(db, g, Echo) <==>
      g == GroupOf(EchoReport("x", 1.0)) || (g == GroupOf(EchoReport("y", 0.95)) && 0.95 * prior >= 0.5)
  {
    var db := EchoDb(prior, durables);
    var x, y := EchoReport("x", 1.0), EchoReport("y", 0.95);
    assert "x"[0] != "y"[0];
    assert db.ledger[..1] == [x] && [x][..0] == [];
    assert Size([x], g) == (if GroupOf(x) == g then 1 else 0);
    assert Confidence([x], g) == (if GroupOf(x) == g then 1.0 else 0.0);
    assert Trusted([x], db.trust, g) == (if GroupOf(x) == g then 1 else 0);
    assert Priors([x], db.trust, g) == (if GroupOf(x) == g then prior else 0.0);
    if GroupOf(x) == g {
      assert db.ledger[0].agent in Agents(db.ledger, g);
    } else if GroupOf(y) == g {
      assert db.ledger[1].agent in Agents(db.ledger, g);
    }
    assert Agents(db.ledger, g) <= {"a"};
    assert GroupOf(x) == g || GroupOf(y) == g ==> Agents(db.ledger, g) == {"a"};
  }

  /** The promise of an idempotent pass fails: the first pass promotes one practice,
      the prior it raises lets a second one through in the next pass. */
  lemma RepeatCanInsert() returns (db: Db, rows: seq<Group>, again: seq<Group>)
    ensures Valid(db) && Listing(rows, db, Echo) && Listing(again, Pass(db, rows, Echo), Echo)
    ensures Pass(Pass(db, rows, Echo), again, Echo) != Pass(db, rows, Echo)
  {
    var x, y := GroupOf(EchoReport("x", 1.0)), GroupOf(EchoReport("y", 0.95));
    db, rows, again := EchoDb(0.5, []), [x], [x, y];
    forall g ensures g in rows <==> Qualifies(db, g, Echo) { EchoQualifies(0.5, [], g); }
    var once := Pass(db, rows, Echo);
    EchoPass();
    forall g ensures g in again <==> Qualifies(once, g, Echo) { EchoQualifies(0.55, once.durables, g); }
    EchoUnserved();
    assert y in again && !Settled(once, Echo);
    IdleIffSettled(once, again, Echo);
  }

  lemma EchoUnserved()
    ensures var db, x, y := EchoDb(0.5, []), GroupOf(EchoReport("x", 1.0)), GroupOf(EchoReport("y", 0.95));
      && x != y && KeyOf(db.ledger, y, Echo).Some?
      && KeyOf(db.ledger, y, Echo).value !in Keys(Pass(db, [x], Echo).durables)
  {
    var db, rows := EchoDb(0.5, []), [GroupOf(EchoReport("x", 1.0))];
    PassKeys(db, rows, Echo);
    assert "x"[0] != "y"[0];
  }

  lemma EchoPass()
    ensures var once := Pass(EchoDb(0.5, []), [GroupOf(EchoReport("x", 1.0))], Echo);
      once == EchoDb(0.55, once.durables)
  {
    var db, g := EchoDb(0.5, []), GroupOf(EchoReport("x", 1.0));
    assert [g][..0] == [];
    assert KeyOf(db.ledger, g, Echo).Some? && Keys(db.durables) == {};
    assert db.ledger[0].agent in Contributors(db.ledger, g.approach, g.taskKind);
    assert Bumped(db.trust, Contributors(db.ledger, g.approach, g.taskKind)) == map["a" := 0.55];
  }

  // ------------------------------------------------- what being agreed means

  predicate About(r: Report, g: Group) {
    r.approach == g.approach && r.taskKind == g.taskKind && r.outcome == g.outcome && r.project == g.project
  }

  /** The reports about a practice, for one outcome and project. */
  function ReportsOn(ledger: seq<Report>, g: Group): seq<Report> {
    if ledger == [] then []
    else
      var rest, r := ReportsOn(ledger[..|ledger| - 1], g), ledger[|ledger| - 1];
      if About(r, g) then rest + [r] else rest
  }

  function AgentsOf(rs: seq<Report>): set<string> { set r | r in rs :: r.agent }

  function ConfidenceSum(rs: seq<Report>): real {
    if rs == [] then 0.0 else ConfidenceSum(rs[..|rs| - 1]) + rs[|rs| - 1].confidence
  }

  /** The priors of those reports' agents that have one, in order. */
  function PriorsOf(rs: seq<Report>, trust: map<string, real>): seq<real> {
    if rs == [] then []
    else
      var rest, a := PriorsOf(rs[..|rs| - 1], trust), rs[|rs| - 1].agent;
      if a in trust then rest + [trust[a]] else rest
  }

  function Sum(xs: seq<real>): real {
    if xs == [] then 0.0 else Sum(xs[..|xs| - 1]) + xs[|xs| - 1]
  }

  /** Enough different agents reported it, with enough confidence on average, also when
      weighted by their average prior. */
  predicate Agreed(db: Db, g: Group, cfg: Config) {
    var rs := ReportsOn(db.ledger, g);
    var ps := PriorsOf(rs, db.trust);
    && rs != [] && |AgentsOf(rs)| >= cfg.minAgents
    && var mean := ConfidenceSum(rs) / |rs| as real;
    && var prior := if ps == [] then 0.5 else Sum(ps) / |ps| as real;
    && mean >= cfg.minConfidence && mean * prior >= cfg.threshold
  }

  lemma {:induction false} ReportsOnSums(ledger: seq<Report>, trust: map<string, real>, g: Group)
    ensures Size(ledger, g) == |ReportsOn(ledger, g)|
    ensures Confidence(ledger, g) == ConfidenceSum(ReportsOn(ledger, g))
    decreases |ledger|
  {
    if ledger != [] {
      var front, r := ledger[..|ledger| - 1], ledger[|ledger| - 1];
      ReportsOnSums(front, trust, g);
      var rs := ReportsOn(front, g);
      assert (rs + [r])[..|rs|] == rs;
    }
  }

  lemma {:induction false} ReportsOnPriors(ledger: seq<Report>, trust: map<string, real>, g: Group)
    ensures Trusted(ledger, trust, g) == |PriorsOf(ReportsOn(ledger, g), trust)|
    ensures Priors(ledger, trust, g) == Sum(PriorsOf(ReportsOn(ledger, g), trust))
    decreases |ledger|
  {
    if ledger != [] {
      var front, r := ledger[..|ledger| - 1], ledger[|ledger| - 1];
      ReportsOnPriors(front, trust, g);
      var rs := ReportsOn(front, g);
      var ps := PriorsOf(rs, trust);
      assert (rs + [r])[..|rs|] == rs;
      if r.agent in trust { assert (ps + [trust[r.agent]])[..|ps|] == ps; }
    }
  }

  lemma {:induction false} ReportsOnMembers(ledger: seq<Report>, g: Group, r: Report)
    ensures r in ReportsOn(ledger, g) <==> r in ledger && About(r, g)
    decreases |ledger|
  {
    if ledger != [] {
      ReportsOnMembers(ledger[..|ledger| - 1], g, r);
      assert ledger == ledger[..|ledger| - 1] + [ledger[|ledger| - 1]];
    }
  }

  lemma AgentsAgree(ledger: seq<Report>, g: Group)
    ensures AgentsOf(ReportsOn(ledger, g)) == Agents(ledger, g)
  {
    forall a ensures a in AgentsOf(ReportsOn(ledger, g)) <==> a in Agents(ledger, g) {
      if a in AgentsOf(ReportsOn(ledger, g)) {
        var r :| r in ReportsOn(ledger, g) && r.agent == a;
        ReportsOnMembers(ledger, g, r);
        var i :| 0 <= i < |ledger| && ledger[i] == r;
      }
      if a in Agents(ledger, g) {
        var i :| 0 <= i < |ledger| && GroupOf(ledger[i]) == g && ledger[i].agent == a;
        ReportsOnMembers(ledger, g, ledger[i]);
      }
    }
  }

  /** The selection's grouped averages say just that. */
  lemma QualifiesIffAgreed(db: Db, g: Group, cfg: Config)
    ensures Qualifies(db, g, cfg) <==> Agreed(db, g, cfg)
  {
    ReportsOnSums(db.ledger, db.trust, g);
    ReportsOnPriors(db.ledger, db.trust, g);
    AgentsAgree(db.ledger, g);
  }

  /** The projects in which anything was reported about an approach for a task kind. */
  function Projects(ledger: seq<Report>, approach: string, taskKind: string): set<int> {
    set r | r in ledger && r.approach == approach && r.taskKind == taskKind && r.project.Some? :: r.project.value
  }

  lemma SpanIsProjects(ledger: seq<Report>, approach: string, taskKind: string)
    ensures Span(ledger, approach, taskKind) == |Projects(ledger, approach, taskKind)|
  {
    var byIndex := set i | 0 <= i < |ledger| && ledger[i].approach == approach && ledger[i].taskKind == taskKind
                           && ledger[i].project.Some? :: ledger[i].project.value;
    forall x ensures x in byIndex <==> x in Projects(ledger, approach, taskKind) {
      if x in Projects(ledger, approach, taskKind) {
        var r :| r in ledger && r.approach == approach && r.taskKind == taskKind && r.project == Some(x);
        var i :| 0 <= i < |ledger| && ledger[i] == r;
      }
    }
    assert byIndex == Projects(ledger, approach, taskKind);
  }

  /** How a group's durable row reads: success is preferred, failure avoided, a peer's
      better way is a correction; the workspace takes what enough projects reported. */
  predicate Reads(ledger: seq<Report>, g: Group, cfg: Config, key: Key) {
    && key.imperative == g.approach
    && (g.outcome in {Worked, Prefer} ==> key.polarity == "prefer")
    && (g.outcome in {Failed, Avoid} ==> key.polarity == "avoid")
    && (g.outcome == SupersededByPeer ==> key.polarity == "correction")
    && g.outcome != Mixed
    && if |Projects(ledger, g.approach, g.taskKind)| >= cfg.workspacePromotion
       then key.scope == Workspace && key.project == None
       else key.scope == Project && key.project == g.project
  }

  lemma RouteReads(ledger: seq<Report>, g: Group, cfg: Config)
    ensures KeyOf(ledger, g, cfg).None? <==> g.outcome == Mixed
    ensures KeyOf(ledger, g, cfg).Some? ==> Reads(ledger, g, cfg, KeyOf(ledger, g, cfg).value)
  {
    SpanIsProjects(ledger, g.approach, g.taskKind);
  }

  ghost predicate Justified(db: Db, g: Group, cfg: Config, p: Practice) {
    Agreed(db, g, cfg) && Reads(db.ledger, g, cfg, p.key) && p.target == g.taskKind
  }

  lemma {:induction false} InsertedFromRows(db: Db, rows: seq<Group>, cfg: Config, p: Practice) returns (g: Group)
    requires p in Inserted(db, rows, cfg)
    ensures g in rows && KeyOf(db.ledger, g, cfg) == Some(p.key) && p.target == g.taskKind
    decreases |rows|
  {
    var front := rows[..|rows| - 1];
    if p in Inserted(db, front, cfg) {
      g := InsertedFromRows(db, front, cfg, p);
    } else {
      g := rows[|rows| - 1];
    }
  }

  /** Every row a pass inserts is justified by a group that was agreed on before it. */
  lemma InsertedAreJustified(db: Db, rows: seq<Group>, cfg: Config, p: Practice) returns (g: Group)
    requires Listing(rows, db, cfg) && p in Inserted(db, rows, cfg)
    ensures Justified(db, g, cfg, p)
  {
    g := InsertedFromRows(db, rows, cfg, p);
    QualifiesIffAgreed(db, g, cfg);
    RouteReads(db.ledger, g, cfg);
  }

  ghost predicate IsJustified(db: Db, cfg: Config, p: Practice) { exists g :: Justified(db, g, cfg, p) }

  lemma PassIsJustified(db: Db, rows: seq<Group>, cfg: Config, i: nat)
    requires Listing(rows, db, cfg) && |db.durables| <= i < |Pass(db, rows, cfg).durables|
    ensures IsJustified(db, cfg, Pass(db, rows, cfg).durables[i])
  {
    PassInserts(db, rows, cfg);
    var p := Pass(db, rows, cfg).durables[i];
    assert p == Inserted(db, rows, cfg)[i - |db.durables|];
    var g := InsertedAreJustified(db, rows, cfg, p);
  }

  /** Every group that is agreed on and not mixed has its durable row after a pass. */
  lemma AgreedBecomeDurable(db: Db, rows: seq<Group>, cfg: Config, g: Group) returns (key: Key)
    requires Listing(rows, db, cfg) && Agreed(db, g, cfg) && g.outcome != Mixed
    ensures Reads(db.ledger, g, cfg, key) && key in Keys(Pass(db, rows, cfg).durables)
  {
    QualifiesIffAgreed(db, g, cfg);
    RouteReads(db.ledger, g, cfg);
    key := KeyOf(db.ledger, g, cfg).value;
    ListedAreServed(db, rows, g, cfg);
    PassKeys(db, rows, cfg);
  }

  /** An agent is credited with a row exactly if it reported on its approach and task
      kind, with whatever outcome and in whatever project. */
  lemma CreditedIff(ledger: seq<Report>, p: Practice, agent: string)
    ensures agent in Contributors(ledger, p.key.imperative, p.target) <==>
      exists r | r in ledger :: r.agent == agent && r.approach == p.key.imperative && r.taskKind == p.target
  {
    if r :| r in ledger && r.agent == agent && r.approach == p.key.imperative && r.taskKind == p.target {
      var i :| 0 <= i < |ledger| && ledger[i] == r;
    }
  }

  // --------------------------------------------------------------------- runs

  datatype Op = Record(report: Report) | RunPass(rows: seq<Group>)

  function After(db: Db, ops: seq<Op>, cfg: Config): Db {
    if ops == [] then db
    else
      var before := After(db, ops[..|ops| - 1], cfg);
      match ops[|ops| - 1]
      case Record(r) => Recorded(before, r)
      case RunPass(rows) => Pass(before, rows, cfg)
  }

  /** Over every mix of reports and passes no key is promoted twice, priors stay in
      range and never fall, and nothing is lost. */
  lemma {:induction false} RunSafe(db: Db, ops: seq<Op>, cfg: Config)
    requires Valid(db)
    ensures Valid(After(db, ops, cfg)) && Grows(db, After(db, ops, cfg))
    decreases |ops|
  {
    if ops != [] {
      var before := After(db, ops[..|ops| - 1], cfg);
      RunSafe(db, ops[..|ops| - 1], cfg);
      match ops[|ops| - 1]
      case Record(r) => RecordSafe(before, r);
      case RunPass(rows) => PassSafe(before, rows, cfg);
    }
  }

  // ------------------------------------------------------ the pass as written

  class PracticeStore {
    var ledger: seq<Report>
    var trust: map<string, real>
    var durables: seq<Practice>

    function Tables(): Db
      reads this
    {
      Db(ledger, trust, durables)
    }

    method RecordOutcome(r: Report)
      modifies this`ledger, this`trust
      ensures Tables() == Recorded(old(Tables()), r)
      ensures |ledger| == |old(ledger)| + 1 && old(ledger) <= ledger
      ensures ledger[|old(ledger)|] == r.(confidence := ledger[|old(ledger)|].confidence)
      ensures 0.0 <= ledger[|old(ledger)|].confidence <= 1.0
      ensures 0.0 <= r.confidence <= 1.0 ==> ledger[|old(ledger)|].confidence == r.confidence
      ensures r.agent in trust && (r.agent !in old(trust) ==> trust[r.agent] == 0.5)
      ensures forall a | a in old(trust) :: a in trust && trust[a] == old(trust)[a]
    {
      ledger := ledger + [r.(confidence := Clamp(r.confidence))];
      if r.agent !in trust {
        trust := trust[r.agent := 0.5];
      }
    }

    /** The selection, here in the order the groups first appear in the ledger. */
    method AgreedGroups(cfg: Config) returns (rows: seq<Group>)
      ensures Listing(rows, Tables(), cfg)
    {
      rows := [];
      for i := 0 to |ledger|
        invariant forall g | g in rows :: Qualifies(Tables(), g, cfg)
        invariant forall j | 0 <= j < i :: Qualifies(Tables(), GroupOf(ledger[j]), cfg) ==> GroupOf(ledger[j]) in rows
      {
        var g := GroupOf(ledger[i]);
        if g !in rows && Qualifies(Tables(), g, cfg) {
          rows := rows + [g];
        }
      }
      forall g | Qualifies(Tables(), g, cfg) ensures g in rows {
        var j := SizeWitness(ledger, g);
      }
    }

    method PromoteAgreed(cfg: Config) returns (promoted: nat)
      modifies this`trust, this`durables
      ensures exists rows :: Listing(rows, old(Tables()), cfg) && Tables() == Pass(old(Tables()), rows, cfg)
      ensures |durables| == |old(durables)| + promoted && old(durables) <= durables
      ensures forall i | |old(durables)| <= i < |durables| :: IsJustified(old(Tables()), cfg, durables[i])
      ensures promoted == 0 <==> Settled(old(Tables()), cfg)
    {
      var rows := AgreedGroups(cfg);
      promoted := 0;
      for i := 0 to |rows|
        invariant Tables() == Pass(old(Tables()), rows[..i], cfg)
        invariant ledger == old(ledger) && |durables| == |old(durables)| + promoted
        invariant promoted == 0 ==> Tables() == old(Tables())
      {
        assert rows[..i + 1][..i] == rows[..i];
        var key := KeyOf(ledger, rows[i], cfg);
        if key.None? || key.value in Keys(durables) {
          continue;
        }
        durables := durables + [Practice(key.value, rows[i].taskKind)];
        trust := Bumped(trust, Contributors(ledger, rows[i].approach, rows[i].taskKind));
        promoted := promoted + 1;
      }
      assert rows[..|rows|] == rows;
      IdleIffSettled(old(Tables()), rows, cfg);
      PassInserts(old(Tables()), rows, cfg);
      forall i | |old(durables)| <= i < |durables| ensures IsJustified(old(Tables()), cfg, durables[i]) {
        PassIsJustified(old(Tables()), rows, cfg, i);
      }
    }
  }
}
