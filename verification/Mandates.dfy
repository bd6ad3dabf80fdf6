/** Session mandates and their promotion to durable ones. Each statement or
    transaction is one step; marking near duplicates is two statements with other
    callers' steps in between. Case folding and edit distance are parameters.
    Session deletion and failing statements are outside the model. */
module Mandates {

  import opened Common

  datatype Status = Active | Superseded | Retired | Promoted

  datatype Mandate = Mandate(
    polarity: string, imperative: string, target: Option<string>, cwd: Option<string>, tier: char, salience: real)

  datatype Row = Row(session: string, prompt: int, mandate: Mandate, status: Status, count: nat)

  datatype Durable = Durable(
    scope: string, project: Option<int>, polarity: string, imperative: string, target: Option<string>,
    source: Option<nat>, filePath: Option<string>)

  /** Row ids are positions. A batch holds the ids one near-duplicate search has
      selected and not yet marked. */
  datatype Db = Db(rows: seq<Row>, durables: seq<Durable>, batches: seq<set<nat>>)

  const EMPTY := Db([], [], [])

  datatype Outcome = Ok(durable: nat) | NoSuchRow | OtherScope | OtherFile | NotActive

  datatype Op =
    | Upsert(session: string, prompt: int, mandate: Mandate)
    | Select(session: string, keeper: nat, polarity: string, imperative: string)
    | Finish(batch: nat)
    | Retire(id: nat)
    | Promote(id: nat, scope: string, project: Option<int>, path: Option<string>)
    | AddPractice(durable: Durable)

  // ------------------------------------------------------------------- upsert

  /** The columns of the unique index. */
  function Key(session: string, m: Mandate, lower: string -> string): (string, string, string) {
    (session, m.polarity, lower(m.imperative))
  }

  function RowKey(row: Row, lower: string -> string): (string, string, string) {
    Key(row.session, row.mandate, lower)
  }

  function Find(rows: seq<Row>, n: nat, key: (string, string, string), lower: string -> string): (at: Option<nat>)
    requires n <= |rows|
    ensures at.Some? ==> at.value < n && RowKey(rows[at.value], lower) == key
    ensures at.None? ==> forall i | 0 <= i < n :: RowKey(rows[i], lower) != key
  {
    if n == 0 then None
    else if RowKey(rows[n - 1], lower) == key then Some(n - 1)
    else Find(rows, n - 1, key, lower)
  }

  function Reinforced(row: Row, prompt: int, m: Mandate): Row {
    var was := row.mandate;
    Row(row.session, prompt,
        Mandate(was.polarity, was.imperative, Coalesce(m.target, was.target), Coalesce(m.cwd, was.cwd),
                if m.tier < was.tier then m.tier else was.tier,
                if m.salience > was.salience then m.salience else was.salience),
        row.status, row.count + 1)
  }

  function Upserted(db: Db, session: string, prompt: int, m: Mandate, lower: string -> string): Db {
    var at := Find(db.rows, |db.rows|, Key(session, m, lower), lower);
    if at.Some? then db.(rows := db.rows[at.value := Reinforced(db.rows[at.value], prompt, m)])
    else db.(rows := db.rows + [Row(session, prompt, m, Active, 1)])
  }

  // --------------------------------------------------------- near duplicates

  /** An active mandate of the session with the same polarity and another wording
      close to the new one, and not the one to keep. */
  predicate NearDuplicate(
    row: Row, id: nat, session: string, keeper: nat, polarity: string, imperative: string,
    lower: string -> string, near: (string, string) -> bool)
  {
    && row.session == session && row.status == Active && id != keeper
    && row.mandate.polarity == polarity && lower(row.mandate.imperative) != lower(imperative)
    && near(row.mandate.imperative, imperative)
  }

  function Selected(
    rows: seq<Row>, session: string, keeper: nat, polarity: string, imperative: string,
    lower: string -> string, near: (string, string) -> bool): set<nat>
  {
    set id: nat | id < |rows| && NearDuplicate(rows[id], id, session, keeper, polarity, imperative, lower, near)
  }

  function Marked(rows: seq<Row>, batch: set<nat>): seq<Row> {
    seq(|rows|, i requires 0 <= i < |rows| => if i in batch then rows[i].(status := Superseded) else rows[i])
  }

  function IdSet(ids: seq<nat>): set<nat> { set id | id in ids }

  lemma MarkedOneMore(rows: seq<Row>, ids: seq<nat>, i: nat)
    requires i < |ids|
    ensures var before, after := Marked(rows, IdSet(ids[..i])), Marked(rows, IdSet(ids[..i + 1]));
      after == if ids[i] < |rows| then before[ids[i] := before[ids[i]].(status := Superseded)] else before
  {
    assert ids[..i + 1] == ids[..i] + [ids[i]];
  }

  function Finished(db: Db, k: nat): Db {
    if k >= |db.batches| then db
    else Db(Marked(db.rows, db.batches[k]), db.durables, db.batches[..k] + db.batches[k + 1..])
  }

  // ---------------------------------------------------------------- promotion

  function SetStatus(db: Db, id: nat, status: Status): Db {
    if id < |db.rows| then db.(rows := db.rows[id := db.rows[id].(status := status)]) else db
  }

  /** The first of the durable rows from n on whose source is id. */
  function Existing(durables: seq<Durable>, n: nat, id: nat): (at: Option<nat>)
    requires n <= |durables|
    ensures at.Some? ==> n <= at.value < |durables| && durables[at.value].source == Some(id)
    ensures forall d | n <= d < (if at.Some? then at.value else |durables|) :: durables[d].source != Some(id)
    decreases |durables| - n
  {
    if n == |durables| then None
    else if durables[n].source == Some(id) then Some(n)
    else Existing(durables, n + 1, id)
  }

  function DurableOf(db: Db, id: nat): Option<nat> { Existing(db.durables, 0, id) }

  function Answer(db: Db, id: nat, scope: string, project: Option<int>, path: Option<string>): Outcome {
    if id >= |db.rows| then NoSuchRow
    else
      var at := DurableOf(db, id);
      if at.Some? then
        var row := db.durables[at.value];
        if row.scope != scope || row.project != project then OtherScope
        else if row.filePath.Some? && path.Some? && row.filePath != path then OtherFile
        else Ok(at.value)
      else if db.rows[id].status != Active then NotActive
      else Ok(|db.durables|)
  }

  /** The tables after a promotion; a refused one is rolled back. */
  function PromotedDb(db: Db, id: nat, scope: string, project: Option<int>, path: Option<string>): Db {
    if !Answer(db, id, scope, project, path).Ok? then db
    else
      var at := DurableOf(db, id);
      if at.Some? then
        var row := db.durables[at.value];
        var filled := row.(filePath := Coalesce(row.filePath, path));
        SetStatus(db.(durables := db.durables[at.value := filled]), id, Promoted)
      else
        var m := db.rows[id].mandate;
        SetStatus(db.(durables := db.durables +
                      [Durable(scope, project, m.polarity, m.imperative, m.target, Some(id), path)]), id, Promoted)
  }

  // --------------------------------------------------------------------- runs

  function Apply(db: Db, op: Op, lower: string -> string, near: (string, string) -> bool): Db {
    match op
    case Upsert(session, prompt, m) => Upserted(db, session, prompt, m, lower)
    case Select(session, keeper, polarity, imperative) =>
      db.(batches := db.batches + [Selected(db.rows, session, keeper, polarity, imperative, lower, near)])
    case Finish(k) => Finished(db, k)
    case Retire(id) => SetStatus(db, id, Retired)
    case Promote(id, scope, project, path) => PromotedDb(db, id, scope, project, path)
    case AddPractice(durable) => db.(durables := db.durables + [durable.(source := None)])
  }

  function After(ops: seq<Op>, lower: string -> string, near: (string, string) -> bool): Db {
    if ops == [] then EMPTY else Apply(After(ops[..|ops| - 1], lower, near), ops[|ops| - 1], lower, near)
  }

  // --------------------------------------------------------------- invariants

  ghost predicate KeysUnique(db: Db, lower: string -> string) {
    forall i, j | 0 <= i < j < |db.rows| :: RowKey(db.rows[i], lower) != RowKey(db.rows[j], lower)
  }

  ghost predicate OnePerSource(db: Db) {
    forall c, d | 0 <= c < d < |db.durables| ::
      db.durables[c].source.Some? ==> db.durables[c].source != db.durables[d].source
  }

  /** A sourced durable row says what its session row says, and that row has left
      the active state. */
  predicate Faithful(rows: seq<Row>, d: Durable) {
    d.source.Some? ==>
      && d.source.value < |rows|
      && rows[d.source.value].status != Active
      && rows[d.source.value].mandate.polarity == d.polarity
      && rows[d.source.value].mandate.imperative == d.imperative
  }

  ghost predicate AllFaithful(db: Db) {
    forall d | 0 <= d < |db.durables| :: Faithful(db.rows, db.durables[d])
  }

  ghost predicate PromotedHaveDurable(db: Db) {
    forall id | 0 <= id < |db.rows| :: db.rows[id].status == Promoted ==> DurableOf(db, id).Some?
  }

  ghost predicate Inv(db: Db, lower: string -> string) {
    KeysUnique(db, lower) && OnePerSource(db) && AllFaithful(db) && PromotedHaveDurable(db)
  }

  /** What no step may undo. */
  predicate RowKeeps(before: Row, after: Row) {
    && before.session == after.session
    && before.mandate.polarity == after.mandate.polarity
    && before.mandate.imperative == after.mandate.imperative
    && before.count <= after.count
    && (before.status != Active ==> after.status != Active)
  }

  predicate DurableKeeps(before: Durable, after: Durable) {
    after == before.(filePath := after.filePath) && (before.filePath.Some? ==> after.filePath == before.filePath)
  }

  ghost predicate RowsKeep(before: seq<Row>, after: seq<Row>) {
    |before| <= |after| && forall i | 0 <= i < |before| :: RowKeeps(before[i], after[i])
  }

  ghost predicate DurablesKeep(before: seq<Durable>, after: seq<Durable>) {
    |before| <= |after| && forall d | 0 <= d < |before| :: DurableKeeps(before[d], after[d])
  }

  /** A row that left the active state without a durable row never gets one. */
  ghost predicate StaysSessionOnly(before: Db, after: Db) {
    forall id | 0 <= id < |before.rows| ::
      before.rows[id].status != Active && DurableOf(before, id).None? ==> DurableOf(after, id).None?
  }

  ghost predicate Keeps(before: Db, after: Db) {
    && RowsKeep(before.rows, after.rows)
    && DurablesKeep(before.durables, after.durables)
    && StaysSessionOnly(before, after)
  }

  // ------------------------------------------------- every step keeps them all

  lemma KeepsTransitive(a: Db, b: Db, c: Db)
    requires Keeps(a, b) && Keeps(b, c)
    ensures Keeps(a, c)
  {
    assert forall id | 0 <= id < |a.rows| :: RowKeeps(a.rows[id], b.rows[id]);
  }

  /** A step that leaves the durable rows alone. */
  lemma RowsOnly(db: Db, after: Db, lower: string -> string)
    requires Inv(db, lower) && after.durables == db.durables && KeysUnique(after, lower)
    requires RowsKeep(db.rows, after.rows)
    requires forall i | 0 <= i < |after.rows| ::
      after.rows[i].status == Promoted ==> i < |db.rows| && db.rows[i].status == Promoted
    ensures Inv(after, lower) && Keeps(db, after)
  {
    forall d | 0 <= d < |after.durables| ensures Faithful(after.rows, after.durables[d]) {
      assert Faithful(db.rows, db.durables[d]);
      if db.durables[d].source.Some? {
        assert RowKeeps(db.rows[db.durables[d].source.value], after.rows[db.durables[d].source.value]);
      }
    }
  }

  lemma SameKeys(db: Db, after: Db, lower: string -> string)
    requires KeysUnique(db, lower) && |after.rows| == |db.rows| && RowsKeep(db.rows, after.rows)
    ensures KeysUnique(after, lower)
  {
    forall i, j | 0 <= i < j < |after.rows| ensures RowKey(after.rows[i], lower) != RowKey(after.rows[j], lower) {
      assert RowKeeps(db.rows[i], after.rows[i]) && RowKeeps(db.rows[j], after.rows[j]);
    }
  }

  lemma UpsertSafe(db: Db, session: string, prompt: int, m: Mandate, lower: string -> string)
    requires Inv(db, lower)
    ensures var after := Upserted(db, session, prompt, m, lower); Inv(after, lower) && Keeps(db, after)
  {
    var after := Upserted(db, session, prompt, m, lower);
    if Find(db.rows, |db.rows|, Key(session, m, lower), lower).Some? {
      SameKeys(db, after, lower);
    }
    RowsOnly(db, after, lower);
  }

  lemma FinishSafe(db: Db, k: nat, lower: string -> string)
    requires Inv(db, lower)
    ensures Inv(Finished(db, k), lower) && Keeps(db, Finished(db, k))
  {
    SameKeys(db, Finished(db, k), lower);
    RowsOnly(db, Finished(db, k), lower);
  }

  lemma RetireSafe(db: Db, id: nat, lower: string -> string)
    requires Inv(db, lower)
    ensures Inv(SetStatus(db, id, Retired), lower) && Keeps(db, SetStatus(db, id, Retired))
  {
    SameKeys(db, SetStatus(db, id, Retired), lower);
    RowsOnly(db, SetStatus(db, id, Retired), lower);
  }

  /** Durable rows that keep their sources answer for the same ids as before. */
  lemma SameDurable(before: seq<Durable>, after: seq<Durable>, id: nat)
    requires DurablesKeep(before, after)
    requires forall d | |before| <= d < |after| :: after[d].source != Some(id)
    ensures Existing(after, 0, id) == Existing(before, 0, id)
  {
    assert forall d | 0 <= d < |before| :: DurableKeeps(before[d], after[d]) && after[d].source == before[d].source;
  }

  lemma PromoteGrows(db: Db, id: nat, scope: string, project: Option<int>, path: Option<string>)
    requires OnePerSource(db) && Answer(db, id, scope, project, path).Ok?
    ensures var after := PromotedDb(db, id, scope, project, path);
      && OnePerSource(after) && |after.rows| == |db.rows|
      && RowsKeep(db.rows, after.rows) && DurablesKeep(db.durables, after.durables)
  {
  }

  lemma PromoteAdds(db: Db, id: nat, scope: string, project: Option<int>, path: Option<string>, i: nat)
    requires OnePerSource(db) && Answer(db, id, scope, project, path).Ok?
    ensures DurableOf(PromotedDb(db, id, scope, project, path), i).Some? <==> DurableOf(db, i).Some? || i == id
  {
    PromoteGrows(db, id, scope, project, path);
    var after := PromotedDb(db, id, scope, project, path);
    if i == id && DurableOf(db, id).None? {
      assert after.durables[|db.durables|].source == Some(id);
    } else {
      SameDurable(db.durables, after.durables, i);
    }
  }

  lemma PromoteSafe(db: Db, id: nat, scope: string, project: Option<int>, path: Option<string>, lower: string -> string)
    requires Inv(db, lower)
    ensures var after := PromotedDb(db, id, scope, project, path); Inv(after, lower) && Keeps(db, after)
  {
    if Answer(db, id, scope, project, path).Ok? {
      var after := PromotedDb(db, id, scope, project, path);
      PromoteGrows(db, id, scope, project, path);
      SameKeys(db, after, lower);
      PromoteFaithful(db, id, scope, project, path, lower);
      forall i | 0 <= i < |db.rows| ensures DurableOf(after, i).Some? <==> DurableOf(db, i).Some? || i == id {
        PromoteAdds(db, id, scope, project, path, i);
      }
      assert PromotedHaveDurable(after);
    }
  }

  lemma PromoteFaithful(
    db: Db, id: nat, scope: string, project: Option<int>, path: Option<string>, lower: string -> string)
    requires Inv(db, lower) && Answer(db, id, scope, project, path).Ok?
    ensures AllFaithful(PromotedDb(db, id, scope, project, path))
  {
    var after := PromotedDb(db, id, scope, project, path);
    forall d | 0 <= d < |after.durables| ensures Faithful(after.rows, after.durables[d]) {
      if d < |db.durables| {
        assert Faithful(db.rows, db.durables[d]);
      }
    }
  }

  lemma PracticeSafe(db: Db, durable: Durable, lower: string -> string)
    requires Inv(db, lower)
    ensures var after := db.(durables := db.durables + [durable.(source := None)]);
      Inv(after, lower) && Keeps(db, after)
  {
    var after := db.(durables := db.durables + [durable.(source := None)]);
    forall i | 0 <= i < |db.rows| ensures DurableOf(after, i) == DurableOf(db, i) {
      SameDurable(db.durables, after.durables, i);
    }
  }

  lemma StepSafe(db: Db, op: Op, lower: string -> string, near: (string, string) -> bool)
    requires Inv(db, lower)
    ensures Inv(Apply(db, op, lower, near), lower) && Keeps(db, Apply(db, op, lower, near))
  {
    match op
    case Upsert(session, prompt, m) => UpsertSafe(db, session, prompt, m, lower);
    case Select(_, _, _, _) => RowsOnly(db, Apply(db, op, lower, near), lower);
    case Finish(k) => FinishSafe(db, k, lower);
    case Retire(id) => RetireSafe(db, id, lower);
    case Promote(id, scope, project, path) => PromoteSafe(db, id, scope, project, path, lower);
    case AddPractice(durable) => PracticeSafe(db, durable, lower);
  }

  /** Over every run and every interleaving: one row per key, one durable row per
      source, and nothing a step established is undone later. */
  lemma {:induction false} RunSafe(ops: seq<Op>, k: nat, lower: string -> string, near: (string, string) -> bool)
    requires k <= |ops|
    ensures Inv(After(ops, lower, near), lower)
    ensures Keeps(After(ops[..k], lower, near), After(ops, lower, near))
    decreases |ops|
  {
    if k == |ops| {
      assert ops[..k] == ops;
    }
    if ops != [] {
      var earlier := ops[..|ops| - 1];
      RunSafe(earlier, if k < |ops| then k else 0, lower, near);
      StepSafe(After(earlier, lower, near), ops[|ops| - 1], lower, near);
      if k < |ops| {
        assert ops[..k] == earlier[..k];
        KeepsTransitive(After(ops[..k], lower, near), After(earlier, lower, near), After(ops, lower, near));
      }
    }
  }

  // ------------------------------------------------------ what promotion means

  ghost predicate Succeeds(db: Db, op: Op, id: nat) {
    op.Promote? && op.id == id && Answer(db, id, op.scope, op.project, op.path).Ok?
  }

  lemma StepDurable(db: Db, op: Op, id: nat, lower: string -> string, near: (string, string) -> bool)
    requires Inv(db, lower)
    ensures DurableOf(Apply(db, op, lower, near), id).Some? <==> DurableOf(db, id).Some? || Succeeds(db, op, id)
  {
    if op.Promote? && Answer(db, op.id, op.scope, op.project, op.path).Ok? {
      PromoteAdds(db, op.id, op.scope, op.project, op.path, id);
    } else if op.AddPractice? {
      SameDurable(db.durables, Apply(db, op, lower, near).durables, id);
    }
  }

  ghost predicate PromotedAt(ops: seq<Op>, k: nat, id: nat, lower: string -> string, near: (string, string) -> bool)
    requires k < |ops|
  {
    Succeeds(After(ops[..k], lower, near), ops[k], id)
  }

  ghost predicate EverPromoted(ops: seq<Op>, id: nat, lower: string -> string, near: (string, string) -> bool) {
    exists k | 0 <= k < |ops| :: PromotedAt(ops, k, id, lower, near)
  }

  lemma EverPromotedStep(ops: seq<Op>, id: nat, lower: string -> string, near: (string, string) -> bool)
    requires ops != []
    ensures EverPromoted(ops, id, lower, near) <==>
      EverPromoted(ops[..|ops| - 1], id, lower, near) || PromotedAt(ops, |ops| - 1, id, lower, near)
  {
    var n := |ops| - 1;
    forall k | 0 <= k < n ensures PromotedAt(ops, k, id, lower, near) == PromotedAt(ops[..n], k, id, lower, near) {
      assert ops[..k] == ops[..n][..k];
    }
  }

  /** A mandate is durable exactly when some promotion of it has succeeded. */
  lemma {:induction false} DurableIffPromoted(
    ops: seq<Op>, id: nat, lower: string -> string, near: (string, string) -> bool)
    ensures DurableOf(After(ops, lower, near), id).Some? <==> EverPromoted(ops, id, lower, near)
    decreases |ops|
  {
    if ops != [] {
      var earlier := ops[..|ops| - 1];
      DurableIffPromoted(earlier, id, lower, near);
      EverPromotedStep(ops, id, lower, near);
      RunSafe(earlier, 0, lower, near);
      StepDurable(After(earlier, lower, near), ops[|ops| - 1], id, lower, near);
    }
  }

  /** What a successful promotion leaves behind. */
  lemma PromotedRow(db: Db, op: Op, lower: string -> string, near: (string, string) -> bool)
    requires op.Promote? && Inv(db, lower) && Answer(db, op.id, op.scope, op.project, op.path).Ok?
    ensures var after, d := Apply(db, op, lower, near), Answer(db, op.id, op.scope, op.project, op.path).durable;
      && d < |after.durables| && op.id < |after.rows|
      && after.durables[d].source == Some(op.id)
      && after.durables[d].scope == op.scope && after.durables[d].project == op.project
      && (op.path.Some? ==> after.durables[d].filePath == op.path)
      && after.durables[d].polarity == db.rows[op.id].mandate.polarity
      && after.durables[d].imperative == db.rows[op.id].mandate.imperative
      && (DurableOf(db, op.id).None? ==> after.durables[d].target == db.rows[op.id].mandate.target)
      && after.rows[op.id] == db.rows[op.id].(status := Promoted)
  {
    var at := DurableOf(db, op.id);
    assert at.Some? ==> Faithful(db.rows, db.durables[at.value]);
  }

  // ------------------------------------------------- what single steps mean

  /** The row an upsert is about: same session, same polarity, same wording up to
      case. */
  predicate SameMandate(row: Row, session: string, m: Mandate, lower: string -> string) {
    && row.session == session && row.mandate.polarity == m.polarity
    && lower(row.mandate.imperative) == lower(m.imperative)
  }

  /** Without such a row an upsert adds an active one and nothing else. */
  lemma UpsertInserts(db: Db, session: string, prompt: int, m: Mandate, lower: string -> string)
    requires forall i | 0 <= i < |db.rows| :: !SameMandate(db.rows[i], session, m, lower)
    ensures Upserted(db, session, prompt, m, lower) == db.(rows := db.rows + [Row(session, prompt, m, Active, 1)])
  {
  }

  /** With one, it reinforces that row, whatever its status, and nothing else. */
  lemma UpsertReinforces(db: Db, session: string, prompt: int, m: Mandate, lower: string -> string, i: nat)
    requires KeysUnique(db, lower) && i < |db.rows| && SameMandate(db.rows[i], session, m, lower)
    ensures var after := Upserted(db, session, prompt, m, lower);
      && after == db.(rows := after.rows) && |after.rows| == |db.rows|
      && after.rows[i].status == db.rows[i].status && after.rows[i].count == db.rows[i].count + 1
      && forall j | 0 <= j < |db.rows| && j != i :: after.rows[j] == db.rows[j]
  {
    var at := Find(db.rows, |db.rows|, Key(session, m, lower), lower);
    assert RowKey(db.rows[i], lower) == Key(session, m, lower);
  }

  /** Marking near duplicates: the active mandates of that session and polarity, other
      than the one kept, whose wording is near the given one but not the same up to
      case, become superseded. */
  lemma MarkingMeans(
    db: Db, session: string, keeper: nat, polarity: string, imperative: string,
    lower: string -> string, near: (string, string) -> bool, i: nat)
    requires i < |db.rows|
    ensures var selected := Apply(db, Select(session, keeper, polarity, imperative), lower, near);
      var after := Apply(selected, Finish(|db.batches|), lower, near);
      var row := db.rows[i];
      && after == db.(rows := after.rows) && |after.rows| == |db.rows|
      && (row.session != session || row.mandate.polarity != polarity || i == keeper ==> after.rows[i] == row)
      && (lower(row.mandate.imperative) == lower(imperative) || row.status != Active ==> after.rows[i] == row)
      && (!near(row.mandate.imperative, imperative) ==> after.rows[i] == row)
      && (row.session == session && row.mandate.polarity == polarity && i != keeper && row.status == Active
          && lower(row.mandate.imperative) != lower(imperative) && near(row.mandate.imperative, imperative) ==>
            after.rows[i] == row.(status := Superseded))
  {
    var selected := Apply(db, Select(session, keeper, polarity, imperative), lower, near);
    var k := |db.batches|;
    assert selected.batches[..k] + selected.batches[k + 1..] == db.batches;
  }

  ghost predicate HasDurable(db: Db, d: nat, id: nat) { d < |db.durables| && db.durables[d].source == Some(id) }

  /** Which promotion is refused, and why. */
  lemma PromotionAnswers(db: Db, id: nat, scope: string, project: Option<int>, path: Option<string>, d: nat)
    requires OnePerSource(db)
    ensures var answer := Answer(db, id, scope, project, path);
      && (id >= |db.rows| ==> answer == NoSuchRow)
      && (id < |db.rows| && HasDurable(db, d, id) ==>
            var row := db.durables[d];
            && (row.scope != scope || row.project != project <==> answer == OtherScope)
            && (row.scope == scope && row.project == project ==>
                  answer == if row.filePath.Some? && path.Some? && row.filePath != path then OtherFile else Ok(d)))
      && (id < |db.rows| && (forall e :: !HasDurable(db, e, id)) ==>
            answer == if db.rows[id].status == Active then Ok(|db.durables|) else NotActive)
  {
    var at := DurableOf(db, id);
    if at.Some? { assert HasDurable(db, at.value, id); }
    if HasDurable(db, d, id) { assert at == Some(d); }
  }

  /** A refused promotion changes nothing; a granted one only the mandate's status and
      its own durable row, adding that row if there was none. */
  lemma PromotionTouchesOnly(db: Db, id: nat, scope: string, project: Option<int>, path: Option<string>)
    ensures var after, answer := PromotedDb(db, id, scope, project, path), Answer(db, id, scope, project, path);
      && (!answer.Ok? ==> after == db)
      && (answer.Ok? ==>
            && after.batches == db.batches && |after.rows| == |db.rows|
            && (forall j | 0 <= j < |db.rows| && j != id :: after.rows[j] == db.rows[j])
            && |after.durables| == (if answer.durable < |db.durables| then |db.durables| else |db.durables| + 1)
            && answer.durable < |after.durables|
            && forall e | 0 <= e < |db.durables| && e != answer.durable :: after.durables[e] == db.durables[e])
  {
  }

  /** With its durable row in place, a promotion is granted for that row exactly if
      scope, project and file agree. */
  lemma PromoteAgain(db: Db, again: Op, d: nat, lower: string -> string, near: (string, string) -> bool)
    requires again.Promote? && OnePerSource(db) && again.id < |db.rows| && HasDurable(db, d, again.id)
    ensures var row, next := db.durables[d], Answer(db, again.id, again.scope, again.project, again.path);
      && (next.Ok? <==>
            && again.scope == row.scope && again.project == row.project
            && (again.path.Some? && row.filePath.Some? ==> again.path == row.filePath))
      && (next.Ok? ==>
            var after := Apply(db, again, lower, near);
            && next == Ok(d) && |after.rows| == |db.rows| && |after.durables| == |db.durables|
            && after.rows[again.id].status == Promoted
            && (again.path.Some? ==> after.durables[d].filePath == again.path))
  {
    PromotionAnswers(db, again.id, again.scope, again.project, again.path, d);
  }

  /** What a promotion at step k established still holds at the end. */
  lemma PromotionStays(ops: seq<Op>, k: nat, lower: string -> string, near: (string, string) -> bool)
    requires k < |ops| && ops[k].Promote? && PromotedAt(ops, k, ops[k].id, lower, near)
    ensures var op, db := ops[k], After(ops, lower, near);
      var first := Answer(After(ops[..k], lower, near), op.id, op.scope, op.project, op.path).durable;
      && OnePerSource(db) && op.id < |db.rows| && HasDurable(db, first, op.id)
      && db.durables[first].scope == op.scope && db.durables[first].project == op.project
  {
    var before, then_ := After(ops[..k], lower, near), After(ops[..k + 1], lower, near);
    RunSafe(ops, k + 1, lower, near);
    RunSafe(ops[..k], 0, lower, near);
    assert ops[..k + 1][..k] == ops[..k];
    PromotedRow(before, ops[k], lower, near);
    var first := Answer(before, ops[k].id, ops[k].scope, ops[k].project, ops[k].path).durable;
    assert DurableKeeps(then_.durables[first], After(ops, lower, near).durables[first]);
  }

  /** Once promoted, promoting again at any later time with the same scope, project
      and file answers with the same durable row, and puts a status that another
      caller overwrote back to promoted. Any other scope or project is refused. */
  lemma PromotionIsStable(
    ops: seq<Op>, k: nat, again: Op, lower: string -> string, near: (string, string) -> bool)
    requires k < |ops| && ops[k].Promote? && again.Promote? && again.id == ops[k].id
    requires PromotedAt(ops, k, ops[k].id, lower, near)
    ensures var op, db := ops[k], After(ops, lower, near);
      var first := Answer(After(ops[..k], lower, near), op.id, op.scope, op.project, op.path).durable;
      var next := Answer(db, op.id, again.scope, again.project, again.path);
      var after := Apply(db, again, lower, near);
      && first < |db.durables| && op.id < |db.rows|
      && (next.Ok? <==>
            && again.scope == op.scope && again.project == op.project
            && (again.path.Some? && db.durables[first].filePath.Some? ==> again.path == db.durables[first].filePath))
      && (next.Ok? ==>
            && next == Ok(first) && op.id < |after.rows| && first < |after.durables|
            && after.rows[op.id].status == Promoted
            && (again.path.Some? ==> after.durables[first].filePath == again.path))
  {
    PromotionStays(ops, k, lower, near);
    var op := ops[k];
    var first := Answer(After(ops[..k], lower, near), op.id, op.scope, op.project, op.path).durable;
    PromoteAgain(After(ops, lower, near), again, first, lower, near);
  }

  // --------------------------------------------------- status and durable rows

  /** The status column says promoted exactly for the durable mandates. */
  ghost predicate Agrees(db: Db) {
    forall id | 0 <= id < |db.rows| :: db.rows[id].status == Promoted <==> DurableOf(db, id).Some?
  }

  /** The step overwrites the status of a mandate that is already durable. */
  ghost predicate Clobbers(db: Db, op: Op) {
    match op
    case Retire(id) => id < |db.rows| && DurableOf(db, id).Some?
    case Finish(k) => k < |db.batches| && exists id | id in db.batches[k] :: id < |db.rows| && DurableOf(db, id).Some?
    case _ => false
  }

  lemma FinishAgreesIff(db: Db, k: nat)
    requires Agrees(db)
    ensures Agrees(Finished(db, k)) <==> !Clobbers(db, Finish(k))
  {
    if k < |db.batches| {
      var after := Finished(db, k);
      assert forall id | id in db.batches[k] && id < |after.rows| :: after.rows[id].status == Superseded;
    }
  }

  lemma PromoteAgrees(db: Db, op: Op)
    requires Agrees(db) && OnePerSource(db) && op.Promote?
    ensures Agrees(PromotedDb(db, op.id, op.scope, op.project, op.path))
  {
    if Answer(db, op.id, op.scope, op.project, op.path).Ok? {
      var after := PromotedDb(db, op.id, op.scope, op.project, op.path);
      forall id | 0 <= id < |after.rows| ensures after.rows[id].status == Promoted <==> DurableOf(after, id).Some? {
        PromoteAdds(db, op.id, op.scope, op.project, op.path, id);
      }
    }
  }

  /** A step keeps the status column in agreement with the durable table exactly
      when it does not clobber. */
  lemma AgreementKeptIff(db: Db, op: Op, lower: string -> string, near: (string, string) -> bool)
    requires Inv(db, lower) && Agrees(db)
    ensures Agrees(Apply(db, op, lower, near)) <==> !Clobbers(db, op)
  {
    var after := Apply(db, op, lower, near);
    match op
    case Upsert(_, _, _) => DurableLeftActive(db, |db.rows|, lower);
    case Select(_, _, _, _) =>
    case Finish(k) => FinishAgreesIff(db, k);
    case Retire(id) => assert id < |after.rows| ==> after.rows[id].status == Retired;
    case Promote(_, _, _, _) => PromoteAgrees(db, op);
    case AddPractice(_) =>
      forall id | 0 <= id < |db.rows| ensures DurableOf(after, id) == DurableOf(db, id) {
        SameDurable(db.durables, after.durables, id);
      }
  }

  ghost predicate AgreesAt(ops: seq<Op>, k: nat, lower: string -> string, near: (string, string) -> bool)
    requires k <= |ops|
  {
    Agrees(After(ops[..k], lower, near))
  }

  ghost predicate ClobbersAt(ops: seq<Op>, k: nat, lower: string -> string, near: (string, string) -> bool)
    requires k < |ops|
  {
    Clobbers(After(ops[..k], lower, near), ops[k])
  }

  lemma AgreementStep(ops: seq<Op>, k: nat, lower: string -> string, near: (string, string) -> bool)
    requires k < |ops| && AgreesAt(ops, k, lower, near)
    ensures AgreesAt(ops, k + 1, lower, near) <==> !ClobbersAt(ops, k, lower, near)
  {
    RunSafe(ops[..k], 0, lower, near);
    assert ops[..k + 1][..k] == ops[..k];
    AgreementKeptIff(After(ops[..k], lower, near), ops[k], lower, near);
  }

  lemma {:induction false} AgreesUnlessClobbered(
    ops: seq<Op>, k: nat, lower: string -> string, near: (string, string) -> bool)
    requires k <= |ops| && forall j | 0 <= j < k :: !ClobbersAt(ops, j, lower, near)
    ensures AgreesAt(ops, k, lower, near)
  {
    if k > 0 {
      AgreesUnlessClobbered(ops, k - 1, lower, near);
      AgreementStep(ops, k - 1, lower, near);
    }
  }

  /** Over every run: status and durable table agree throughout exactly when no step
      of the run clobbers. */
  lemma AgreesThroughoutIff(ops: seq<Op>, lower: string -> string, near: (string, string) -> bool)
    ensures (forall k | 0 <= k <= |ops| :: AgreesAt(ops, k, lower, near)) <==>
      (forall k | 0 <= k < |ops| :: !ClobbersAt(ops, k, lower, near))
  {
    if forall k | 0 <= k <= |ops| :: AgreesAt(ops, k, lower, near) {
      forall k | 0 <= k < |ops| ensures !ClobbersAt(ops, k, lower, near) {
        assert AgreesAt(ops, k, lower, near) && AgreesAt(ops, k + 1, lower, near);
        AgreementStep(ops, k, lower, near);
      }
    }
    if forall k | 0 <= k < |ops| :: !ClobbersAt(ops, k, lower, near) {
      forall k | 0 <= k <= |ops| ensures AgreesAt(ops, k, lower, near) {
        AgreesUnlessClobbered(ops, k, lower, near);
      }
    }
  }

  /** The step writes a status other than promoted to an existing row. */
  ghost predicate Overwrites(db: Db, op: Op, id: nat) {
    match op
    case Retire(r) => r == id
    case Finish(k) => k < |db.batches| && id in db.batches[k]
    case _ => false
  }

  /** The step at k promoted the row and no later step overwrote its status. */
  ghost predicate PromotedLast(ops: seq<Op>, k: nat, id: nat, lower: string -> string, near: (string, string) -> bool)
    requires k < |ops|
  {
    PromotedAt(ops, k, id, lower, near) && forall j | k < j < |ops| :: !OverwritesAt(ops, j, id, lower, near)
  }

  ghost predicate OverwritesAt(ops: seq<Op>, j: nat, id: nat, lower: string -> string, near: (string, string) -> bool)
    requires j < |ops|
  {
    Overwrites(After(ops[..j], lower, near), ops[j], id)
  }

  ghost predicate EndsPromoted(ops: seq<Op>, id: nat, lower: string -> string, near: (string, string) -> bool) {
    exists k | 0 <= k < |ops| :: PromotedLast(ops, k, id, lower, near)
  }

  lemma PromotedLastStep(ops: seq<Op>, k: nat, id: nat, lower: string -> string, near: (string, string) -> bool)
    requires k < |ops| - 1
    ensures var n := |ops| - 1;
      PromotedLast(ops, k, id, lower, near) <==>
      PromotedLast(ops[..n], k, id, lower, near) && !OverwritesAt(ops, n, id, lower, near)
  {
    var n := |ops| - 1;
    assert ops[..n][..k] == ops[..k];
    forall j | k < j < n ensures OverwritesAt(ops[..n], j, id, lower, near) == OverwritesAt(ops, j, id, lower, near) {
      assert ops[..n][..j] == ops[..j];
    }
  }

  lemma EndsPromotedStep(ops: seq<Op>, id: nat, lower: string -> string, near: (string, string) -> bool)
    requires ops != []
    ensures var n := |ops| - 1;
      EndsPromoted(ops, id, lower, near) <==>
      || PromotedAt(ops, n, id, lower, near)
      || (EndsPromoted(ops[..n], id, lower, near) && !OverwritesAt(ops, n, id, lower, near))
  {
    var n := |ops| - 1;
    forall k | 0 <= k < n
      ensures PromotedLast(ops, k, id, lower, near) <==>
        PromotedLast(ops[..n], k, id, lower, near) && !OverwritesAt(ops, n, id, lower, near)
    {
      PromotedLastStep(ops, k, id, lower, near);
    }
    assert PromotedLast(ops, n, id, lower, near) <==> PromotedAt(ops, n, id, lower, near);
  }

  ghost predicate IsPromoted(db: Db, id: nat) { id < |db.rows| && db.rows[id].status == Promoted }

  lemma StepPromoted(db: Db, op: Op, id: nat, lower: string -> string, near: (string, string) -> bool)
    ensures IsPromoted(Apply(db, op, lower, near), id) <==>
      Succeeds(db, op, id) || (IsPromoted(db, id) && !Overwrites(db, op, id))
  {
  }

  /** Over every run a mandate's status is promoted exactly when it was promoted and
      no later step overwrote its status. */
  lemma {:induction false} PromotedIffNotOverwritten(
    ops: seq<Op>, id: nat, lower: string -> string, near: (string, string) -> bool)
    ensures IsPromoted(After(ops, lower, near), id) <==> EndsPromoted(ops, id, lower, near)
    decreases |ops|
  {
    if ops != [] {
      var n := |ops| - 1;
      PromotedIffNotOverwritten(ops[..n], id, lower, near);
      EndsPromotedStep(ops, id, lower, near);
      StepPromoted(After(ops[..n], lower, near), ops[n], id, lower, near);
    }
  }

  lemma DurableLeftActive(db: Db, id: nat, lower: string -> string)
    requires Inv(db, lower)
    ensures DurableOf(db, id).Some? ==> id < |db.rows| && db.rows[id].status != Active
  {
    var at := DurableOf(db, id);
    assert at.Some? ==> Faithful(db.rows, db.durables[at.value]);
  }

  /** Marking near duplicates clobbers nothing when no other step comes between its
      two statements. */
  lemma UninterruptedMarkingIsSafe(
    db: Db, session: string, keeper: nat, polarity: string, imperative: string,
    lower: string -> string, near: (string, string) -> bool)
    requires Inv(db, lower)
    ensures var selected := Apply(db, Select(session, keeper, polarity, imperative), lower, near);
      !Clobbers(selected, Finish(|db.batches|))
  {
    var selected := Apply(db, Select(session, keeper, polarity, imperative), lower, near);
    forall id | id in selected.batches[|db.batches|] ensures DurableOf(selected, id).None? {
      DurableLeftActive(db, id, lower);
    }
  }

  /** A successful promotion of a selected mandate between the two statements is
      always clobbered: the mandate ends superseded and durable. */
  lemma InterruptedMarkingClobbers(
    db: Db, search: Op, promote: Op, lower: string -> string, near: (string, string) -> bool)
    requires Inv(db, lower) && search.Select? && promote.Promote?
    requires promote.id in
      Selected(db.rows, search.session, search.keeper, search.polarity, search.imperative, lower, near)
    ensures var selected := Apply(db, search, lower, near);
      var promoted := Apply(selected, promote, lower, near);
      var marked := Apply(promoted, Finish(|db.batches|), lower, near);
      && Succeeds(selected, promote, promote.id) && Clobbers(promoted, Finish(|db.batches|))
      && |marked.rows| == |db.rows| && marked.rows[promote.id].status == Superseded
      && DurableOf(marked, promote.id).Some?
  {
    var selected := Apply(db, search, lower, near);
    StepSafe(db, search, lower, near);
    DurableLeftActive(selected, promote.id, lower);
    StepDurable(selected, promote, promote.id, lower, near);
    assert promote.id in Apply(selected, promote, lower, near).batches[|db.batches|];
  }

  // ------------------------------------------------------------ reinforcement

  /** The mandates the run upserted under one key, in order. */
  function History(ops: seq<Op>, key: (string, string, string), lower: string -> string): seq<Op> {
    if ops == [] then []
    else
      var op := ops[|ops| - 1];
      History(ops[..|ops| - 1], key, lower) +
        if op.Upsert? && Key(op.session, op.mandate, lower) == key then [op] else []
  }

  predicate AllUpserts(h: seq<Op>) { forall i | 0 <= i < |h| :: h[i].Upsert? }

  /** The value is the last one given, if any was. */
  ghost predicate LastGiven(values: seq<Option<string>>, value: Option<string>) {
    if value.None? then forall i | 0 <= i < |values| :: values[i].None?
    else exists i | 0 <= i < |values| :: values[i] == value && forall j | i < j < |values| :: values[j].None?
  }

  ghost predicate Strongest(h: seq<Op>, m: Mandate)
    requires AllUpserts(h)
  {
    && (forall i | 0 <= i < |h| :: h[i].mandate.salience <= m.salience && m.tier <= h[i].mandate.tier)
    && (exists i | 0 <= i < |h| :: h[i].mandate.salience == m.salience)
    && (exists i | 0 <= i < |h| :: h[i].mandate.tier == m.tier)
  }

  function Targets(h: seq<Op>): seq<Option<string>>
    requires AllUpserts(h)
  {
    seq(|h|, i requires 0 <= i < |h| => h[i].mandate.target)
  }

  function Prefixes(h: seq<Op>): seq<Option<string>>
    requires AllUpserts(h)
  {
    seq(|h|, i requires 0 <= i < |h| => h[i].mandate.cwd)
  }

  /** The row says of its history: how often, the first wording, the last prompt, the
      strongest salience and tier, the last target and directory given. */
  ghost predicate Sums(row: Row, h: seq<Op>) {
    && AllUpserts(h) && h != []
    && row.count == |h| && row.prompt == h[|h| - 1].prompt
    && row.mandate.imperative == h[0].mandate.imperative
    && Strongest(h, row.mandate)
    && LastGiven(Targets(h), row.mandate.target) && LastGiven(Prefixes(h), row.mandate.cwd)
  }

  lemma LastGivenSnoc(values: seq<Option<string>>, was: Option<string>, v: Option<string>)
    requires LastGiven(values, was)
    ensures LastGiven(values + [v], Coalesce(v, was))
  {
    if v.Some? {
      assert (values + [v])[|values|] == v;
    } else if was.Some? {
      var i :| 0 <= i < |values| && values[i] == was && forall j | i < j < |values| :: values[j].None?;
      assert (values + [v])[i] == was;
    }
  }

  lemma StrongestSnoc(h: seq<Op>, row: Row, op: Op)
    requires AllUpserts(h) && op.Upsert? && Strongest(h, row.mandate)
    ensures Strongest(h + [op], Reinforced(row, op.prompt, op.mandate).mandate)
  {
    var next := h + [op];
    assert next[|h|] == op;
    var i :| 0 <= i < |h| && h[i].mandate.salience == row.mandate.salience;
    var j :| 0 <= j < |h| && h[j].mandate.tier == row.mandate.tier;
    assert next[i] == h[i] && next[j] == h[j];
  }

  lemma SumsSnoc(row: Row, h: seq<Op>, op: Op)
    requires Sums(row, h) && op.Upsert?
    ensures Sums(Reinforced(row, op.prompt, op.mandate), h + [op])
  {
    StrongestSnoc(h, row, op);
    LastGivenSnoc(Targets(h), row.mandate.target, op.mandate.target);
    LastGivenSnoc(Prefixes(h), row.mandate.cwd, op.mandate.cwd);
    assert Targets(h + [op]) == Targets(h) + [op.mandate.target];
    assert Prefixes(h + [op]) == Prefixes(h) + [op.mandate.cwd];
  }

  lemma SumsFirst(op: Op)
    requires op.Upsert?
    ensures Sums(Row(op.session, op.prompt, op.mandate, Active, 1), [op])
  {
    var h := [op];
    assert h[0] == op && Targets(h)[0] == op.mandate.target && Prefixes(h)[0] == op.mandate.cwd;
  }

  lemma HistorySnoc(ops: seq<Op>, op: Op, key: (string, string, string), lower: string -> string)
    ensures History(ops + [op], key, lower) ==
      if op.Upsert? && Key(op.session, op.mandate, lower) == key
      then History(ops, key, lower) + [op] else History(ops, key, lower)
  {
    assert (ops + [op])[..|ops|] == ops;
  }

  ghost predicate RowSums(row: Row, ops: seq<Op>, lower: string -> string) {
    Sums(row, History(ops, RowKey(row, lower), lower))
  }

  predicate HasRow(db: Db, key: (string, string, string), lower: string -> string) {
    Find(db.rows, |db.rows|, key, lower).Some?
  }

  ghost predicate Tallied(db: Db, ops: seq<Op>, lower: string -> string) {
    && (forall i | 0 <= i < |db.rows| :: RowSums(db.rows[i], ops, lower))
    && forall key :: HasRow(db, key, lower) <==> History(ops, key, lower) != []
  }

  lemma UpsertRowSums(db: Db, ops: seq<Op>, op: Op, lower: string -> string, i: nat)
    requires KeysUnique(db, lower) && Tallied(db, ops, lower) && op.Upsert?
    requires i < |Upserted(db, op.session, op.prompt, op.mandate, lower).rows|
    ensures RowSums(Upserted(db, op.session, op.prompt, op.mandate, lower).rows[i], ops + [op], lower)
  {
    var key := Key(op.session, op.mandate, lower);
    var row := Upserted(db, op.session, op.prompt, op.mandate, lower).rows[i];
    HistorySnoc(ops, op, RowKey(row, lower), lower);
    if i == |db.rows| {
      assert !HasRow(db, key, lower);
      assert History(ops, key, lower) + [op] == [op];
      SumsFirst(op);
    } else {
      assert RowSums(db.rows[i], ops, lower);
      if RowKey(row, lower) == key { SumsSnoc(db.rows[i], History(ops, key, lower), op); }
    }
  }

  lemma UpsertHasRow(db: Db, op: Op, lower: string -> string, key: (string, string, string))
    requires op.Upsert?
    ensures HasRow(Upserted(db, op.session, op.prompt, op.mandate, lower), key, lower) <==>
      HasRow(db, key, lower) || key == Key(op.session, op.mandate, lower)
  {
    var after := Upserted(db, op.session, op.prompt, op.mandate, lower);
    var own := Key(op.session, op.mandate, lower);
    var at, was := Find(db.rows, |db.rows|, own, lower), Find(db.rows, |db.rows|, key, lower);
    assert RowKey(after.rows[if at.Some? then at.value else |db.rows|], lower) == own;
    assert was.Some? ==> RowKey(after.rows[was.value], lower) == key;
    assert forall i | 0 <= i < |db.rows| :: RowKey(after.rows[i], lower) == RowKey(db.rows[i], lower);
  }

  lemma UpsertTallied(db: Db, ops: seq<Op>, op: Op, lower: string -> string)
    requires KeysUnique(db, lower) && Tallied(db, ops, lower) && op.Upsert?
    ensures Tallied(Upserted(db, op.session, op.prompt, op.mandate, lower), ops + [op], lower)
  {
    var after := Upserted(db, op.session, op.prompt, op.mandate, lower);
    forall i | 0 <= i < |after.rows| ensures RowSums(after.rows[i], ops + [op], lower) {
      UpsertRowSums(db, ops, op, lower, i);
    }
    forall key ensures HasRow(after, key, lower) <==> History(ops + [op], key, lower) != [] {
      UpsertHasRow(db, op, lower, key);
      HistorySnoc(ops, op, key, lower);
    }
  }

  /** No other step touches anything but the status of a row. */
  lemma OnlyStatus(db: Db, op: Op, lower: string -> string, near: (string, string) -> bool)
    requires !op.Upsert?
    ensures var after := Apply(db, op, lower, near); |after.rows| == |db.rows| && StatusOnly(db.rows, after.rows)
  {
  }

  predicate StatusOnly(before: seq<Row>, after: seq<Row>)
    requires |before| == |after|
  {
    forall i | 0 <= i < |before| :: after[i] == before[i].(status := after[i].status)
  }

  lemma SameHasRow(db: Db, after: Db, lower: string -> string, key: (string, string, string))
    requires |after.rows| == |db.rows| && StatusOnly(db.rows, after.rows)
    ensures HasRow(after, key, lower) <==> HasRow(db, key, lower)
  {
    var was, now := Find(db.rows, |db.rows|, key, lower), Find(after.rows, |after.rows|, key, lower);
    assert was.Some? ==> RowKey(after.rows[was.value], lower) == key;
    assert now.Some? ==> RowKey(db.rows[now.value], lower) == key;
  }

  lemma OtherTallied(db: Db, after: Db, ops: seq<Op>, op: Op, lower: string -> string)
    requires Tallied(db, ops, lower) && !op.Upsert? && |after.rows| == |db.rows| && StatusOnly(db.rows, after.rows)
    ensures Tallied(after, ops + [op], lower)
  {
    forall i | 0 <= i < |after.rows| ensures RowSums(after.rows[i], ops + [op], lower) {
      HistorySnoc(ops, op, RowKey(after.rows[i], lower), lower);
      assert RowSums(db.rows[i], ops, lower);
    }
    forall key ensures HasRow(after, key, lower) <==> History(ops + [op], key, lower) != [] {
      SameHasRow(db, after, lower, key);
      HistorySnoc(ops, op, key, lower);
    }
  }

  lemma TalliedStep(db: Db, ops: seq<Op>, op: Op, lower: string -> string, near: (string, string) -> bool)
    requires KeysUnique(db, lower) && Tallied(db, ops, lower)
    ensures Tallied(Apply(db, op, lower, near), ops + [op], lower)
  {
    if op.Upsert? {
      UpsertTallied(db, ops, op, lower);
    } else {
      OnlyStatus(db, op, lower, near);
      OtherTallied(db, Apply(db, op, lower, near), ops, op, lower);
    }
  }

  lemma RunKeysUnique(ops: seq<Op>, lower: string -> string, near: (string, string) -> bool)
    ensures KeysUnique(After(ops, lower, near), lower)
  {
    RunSafe(ops, 0, lower, near);
  }

  /** Over every run, each row is the exact summary of the upserts under its key,
      whatever happened to its status, and a key has a row exactly when it was
      upserted. */
  lemma {:induction false} RowsSumTheirHistory(ops: seq<Op>, lower: string -> string, near: (string, string) -> bool)
    ensures Tallied(After(ops, lower, near), ops, lower)
    decreases |ops|
  {
    if ops != [] {
      var earlier, op := ops[..|ops| - 1], ops[|ops| - 1];
      RowsSumTheirHistory(earlier, lower, near);
      RunKeysUnique(earlier, lower, near);
      TalliedStep(After(earlier, lower, near), earlier, op, lower, near);
      assert earlier + [op] == ops;
    }
  }

  // ------------------------------------------------------ the store as written

  class MandateStore {
    const lower: string -> string
    const near: (string, string) -> bool
    var rows: seq<Row>
    var durables: seq<Durable>
    ghost var batches: seq<set<nat>>

    ghost function Tables(): Db
      reads this
    {
      Db(rows, durables, batches)
    }

    constructor (lower: string -> string, near: (string, string) -> bool)
      ensures Tables() == EMPTY && this.lower == lower && this.near == near
    {
      this.lower, this.near := lower, near;
      rows, durables, batches := [], [], [];
    }

    method UpsertMandate(session: string, prompt: int, m: Mandate) returns (id: nat)
      modifies this`rows
      ensures Tables() == Upserted(old(Tables()), session, prompt, m, lower)
      ensures id < |rows| && RowKey(rows[id], lower) == Key(session, m, lower)
    {
      var at := Find(rows, |rows|, Key(session, m, lower), lower);
      if at.Some? {
        id := at.value;
        rows := rows[id := Reinforced(rows[id], prompt, m)];
      } else {
        id := |rows|;
        rows := rows + [Row(session, prompt, m, Active, 1)];
      }
    }

    /** The first statement: the active candidates, filtered by edit distance. */
    method SelectNear(session: string, keeper: nat, polarity: string, imperative: string) returns (ids: seq<nat>)
      modifies this`batches
      ensures Tables() == Apply(old(Tables()), Select(session, keeper, polarity, imperative), lower, near)
      ensures batches == old(batches) + [IdSet(ids)]
    {
      ids := [];
      for i := 0 to |rows|
        invariant batches == old(batches)
        invariant forall id: nat :: id in ids <==>
          (id < i && NearDuplicate(rows[id], id, session, keeper, polarity, imperative, lower, near))
      {
        if NearDuplicate(rows[i], i, session, keeper, polarity, imperative, lower, near) {
          ids := ids + [i];
        }
      }
      ghost var picked := IdSet(ids);
      assert picked == Selected(rows, session, keeper, polarity, imperative, lower, near);
      batches := batches + [picked];
      assert Tables() == old(Tables()).(batches := old(batches) + [picked]);
    }

    /** The second statement: a bulk update that does not look at the status again. */
    method MarkSuperseded(ids: seq<nat>, ghost k: nat)
      requires k < |batches| && batches[k] == IdSet(ids)
      modifies this`rows, this`batches
      ensures Tables() == Finished(old(Tables()), k)
      ensures |rows| == |old(rows)| && forall i | 0 <= i < |rows| ::
        rows[i] == if i in ids then old(rows)[i].(status := Superseded) else old(rows)[i]
    {
      for i := 0 to |ids|
        invariant |rows| == |old(rows)| && batches == old(batches)
        invariant rows == Marked(old(rows), IdSet(ids[..i]))
      {
        MarkedOneMore(old(rows), ids, i);
        if ids[i] < |rows| {
          rows := rows[ids[i] := rows[ids[i]].(status := Superseded)];
        }
      }
      assert ids[..|ids|] == ids;
      batches := batches[..k] + batches[k + 1..];
    }

    method RetireMandate(id: nat)
      modifies this`rows
      ensures Tables() == SetStatus(old(Tables()), id, Retired)
      ensures |rows| == |old(rows)| && forall i | 0 <= i < |rows| ::
        rows[i] == if i == id then old(rows)[i].(status := Retired) else old(rows)[i]
    {
      if id < |rows| {
        rows := rows[id := rows[id].(status := Retired)];
      }
    }

    method PromoteMandate(id: nat, scope: string, project: Option<int>, path: Option<string>) returns (r: Outcome)
      modifies this`rows, this`durables
      ensures r == Answer(old(Tables()), id, scope, project, path)
      ensures Tables() == PromotedDb(old(Tables()), id, scope, project, path)
    {
      if id >= |rows| {
        return NoSuchRow;
      }
      var at := Existing(durables, 0, id);
      if at.Some? {
        var found := durables[at.value];
        if found.scope != scope || found.project != project {
          return OtherScope;
        }
        if found.filePath.Some? && path.Some? && found.filePath != path {
          return OtherFile;
        }
        if found.filePath.None? && path.Some? {
          durables := durables[at.value := found.(filePath := path)];
        }
        rows := rows[id := rows[id].(status := Promoted)];
        return Ok(at.value);
      }
      if rows[id].status != Active {
        return NotActive;
      }
      var m := rows[id].mandate;
      r := Ok(|durables|);
      durables := durables + [Durable(scope, project, m.polarity, m.imperative, m.target, Some(id), path)];
      rows := rows[id := rows[id].(status := Promoted)];
    }
  }
}
