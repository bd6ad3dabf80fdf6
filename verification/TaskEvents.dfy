/** One task's event log: the dispatcher that runs the task, callers that cancel it
    at any moment, and subscribers that poll the log. Appending an event is one
    atomic step; database calls do not fail. */
module TaskEvents {

  import opened Common

  datatype TaskState = Submitted | Working | InputRequired | Completed | Canceled | Failed

  datatype Body = StatusEvent(state: TaskState) | FinalEvent(state: TaskState)

  /** A row of the event table; `own` marks the rows of the task's own runner. */
  datatype Row = Row(sequence: int, body: Body, own: bool)

  // ---------------------------------------------------------------- the log

  function MaxSequence(rows: seq<Row>): int {
    if rows == [] then -1
    else
      var rest := MaxSequence(rows[..|rows| - 1]);
      if rest < rows[|rows| - 1].sequence then rows[|rows| - 1].sequence else rest
  }

  function Emitted(rows: seq<Row>, body: Body, own: bool): seq<Row> {
    rows + [Row(MaxSequence(rows) + 1, body, own)]
  }

  predicate WellNumbered(rows: seq<Row>) {
    forall i | 0 <= i < |rows| :: rows[i].sequence == i
  }

  lemma {:induction false} MaxIsLast(rows: seq<Row>)
    requires WellNumbered(rows)
    ensures MaxSequence(rows) == |rows| - 1
  {
    if rows != [] { MaxIsLast(rows[..|rows| - 1]); }
  }

  /** Sequence numbers stay 0, 1, 2, ... whoever appends. */
  lemma EmittedNumbers(rows: seq<Row>, body: Body, own: bool)
    requires WellNumbered(rows)
    ensures WellNumbered(Emitted(rows, body, own)) && Emitted(rows, body, own) == rows + [Row(|rows|, body, own)]
  {
    MaxIsLast(rows);
  }

  // ---------------------------------------------------------------- polling

  /** A subscriber between two polls. */
  datatype Reader = Reader(last: int, done: bool)

  datatype Polled = Ended | Heartbeat(next: Reader) | Batch(rows: seq<Row>, next: Reader)

  function Fresh(rows: seq<Row>, last: int): seq<Row> {
    if rows == [] then []
    else
      Fresh(rows[..|rows| - 1], last) +
        if rows[|rows| - 1].sequence > last then [rows[|rows| - 1]] else []
  }

  predicate HasFinal(rows: seq<Row>) {
    exists i | 0 <= i < |rows| :: rows[i].body.FinalEvent?
  }

  /** One unfold step of the stream. */
  function Poll(reader: Reader, timedOut: bool, failed: bool, rows: seq<Row>): Polled {
    if reader.done || timedOut || failed then Ended
    else
      var news := Fresh(rows, reader.last);
      if news == [] then Heartbeat(reader.(done := false))
      else Batch(news, Reader(news[|news| - 1].sequence, HasFinal(news)))
  }

  /** The stream ends after a final event, the timeout or a failed query; without news
      it sends a heartbeat and stays where it is; otherwise it sends exactly the rows
      past the last one it sent. */
  lemma PollMeans(reader: Reader, timedOut: bool, failed: bool, rows: seq<Row>)
    requires WellNumbered(rows) && -1 <= reader.last < |rows|
    ensures var polled := Poll(reader, timedOut, failed, rows);
      && (polled == Ended <==> reader.done || timedOut || failed)
      && (polled != Ended && reader.last == |rows| - 1 ==> polled == Heartbeat(reader))
      && (polled != Ended && reader.last < |rows| - 1 ==>
            polled == Batch(rows[reader.last + 1..], Reader(|rows| - 1, HasFinal(rows[reader.last + 1..]))))
  {
    FreshIsTail(rows, reader.last);
  }

  lemma {:induction false} FreshIsTail(rows: seq<Row>, last: int)
    requires WellNumbered(rows) && -1 <= last < |rows|
    ensures Fresh(rows, last) == rows[last + 1..]
  {
    if rows != [] {
      var earlier := rows[..|rows| - 1];
      if last < |rows| - 1 {
        FreshIsTail(earlier, last);
        assert rows[last + 1..] == earlier[last + 1..] + [rows[|rows| - 1]];
      } else {
        AllSeen(earlier, last);
      }
    }
  }

  lemma {:induction false} AllSeen(rows: seq<Row>, last: int)
    requires forall i | 0 <= i < |rows| :: rows[i].sequence <= last
    ensures Fresh(rows, last) == []
  {
    if rows != [] { AllSeen(rows[..|rows| - 1], last); }
  }

  /** What happens around one subscriber: somebody appends, or it polls. */
  datatype Step = Append(body: Body, own: bool) | PollStep(timedOut: bool, failed: bool)

  /** The log and a subscriber: the batches it received, whether its stream is open. */
  datatype World = World(rows: seq<Row>, reader: Reader, batches: seq<seq<Row>>, open: bool)

  function Apply(w: World, step: Step): World {
    match step
    case Append(body, own) => w.(rows := Emitted(w.rows, body, own))
    case PollStep(timedOut, failed) =>
      if !w.open then w
      else
        match Poll(w.reader, timedOut, failed, w.rows)
        case Ended => w.(open := false)
        case Heartbeat(next) => w.(reader := next)
        case Batch(rows, next) => w.(reader := next, batches := w.batches + [rows])
  }

  function After(rows: seq<Row>, steps: seq<Step>): World
    decreases |steps|
  {
    if steps == [] then World(rows, Reader(-1, false), [], true)
    else Apply(After(rows, steps[..|steps| - 1]), steps[|steps| - 1])
  }

  function Received(batches: seq<seq<Row>>): seq<Row>
    decreases |batches|
  {
    if batches == [] then [] else Received(batches[..|batches| - 1]) + batches[|batches| - 1]
  }

  /** What a subscriber has received is a prefix of the log, only the last batch can
      hold a final event, and then the stream is over. */
  ghost predicate Faithful(w: World) {
    && WellNumbered(w.rows)
    && Received(w.batches) <= w.rows
    && w.reader.last == |Received(w.batches)| - 1
    && (forall k | 0 <= k < |w.batches| - 1 :: !HasFinal(w.batches[k]))
    && (w.reader.done <==> w.batches != [] && HasFinal(w.batches[|w.batches| - 1]))
  }

  lemma ReceivedAppend(batches: seq<seq<Row>>, batch: seq<Row>)
    ensures Received(batches + [batch]) == Received(batches) + batch
  {
    assert (batches + [batch])[..|batches|] == batches;
  }

  /** Handing over the rest of the log as one batch. */
  lemma BatchIsFaithful(w: World, news: seq<Row>)
    requires Faithful(w) && !w.reader.done && news != [] && w.rows == Received(w.batches) + news
    ensures Faithful(HandedOver(w, news)) && Received(HandedOver(w, news).batches) == w.rows
  {
    ReceivedAppend(w.batches, news);
  }

  /** What has been received without a final event holds none. */
  lemma FinalIsNew(w: World, news: seq<Row>)
    requires Faithful(w) && !w.reader.done && w.rows == Received(w.batches) + news
    ensures HasFinal(w.rows) <==> HasFinal(news)
  {
    NoFinalYet(w.batches);
    HasFinalSplit(Received(w.batches), news);
  }

  function HandedOver(w: World, news: seq<Row>): World {
    if news == [] then w
    else w.(reader := Reader(|w.rows| - 1, HasFinal(news)), batches := w.batches + [news])
  }

  lemma PollHandsOver(w: World, news: seq<Row>)
    requires WellNumbered(w.rows) && w.open && !w.reader.done && -1 <= w.reader.last < |w.rows|
    requires news == w.rows[w.reader.last + 1..]
    ensures Apply(w, PollStep(false, false)) == HandedOver(w, news)
  {
    FreshIsTail(w.rows, w.reader.last);
  }

  lemma ReceivedRest(w: World, news: seq<Row>)
    requires Faithful(w) && news == w.rows[w.reader.last + 1..]
    ensures w.rows == Received(w.batches) + news
  {
  }

  /** A live, successful poll hands over everything that is new. */
  lemma PollCatchesUp(w: World)
    requires Faithful(w) && w.open && !w.reader.done
    ensures var w' := Apply(w, PollStep(false, false));
      Faithful(w') && w'.open && Received(w'.batches) == w.rows && (HasFinal(w.rows) <==> w'.reader.done)
  {
    var news := w.rows[w.reader.last + 1..];
    PollHandsOver(w, news);
    ReceivedRest(w, news);
    FinalIsNew(w, news);
    if news != [] { BatchIsFaithful(w, news); }
  }

  lemma HasFinalSplit(a: seq<Row>, b: seq<Row>)
    ensures HasFinal(a + b) <==> HasFinal(a) || HasFinal(b)
  {
    if HasFinal(a) {
      var i :| 0 <= i < |a| && a[i].body.FinalEvent?;
      assert (a + b)[i] == a[i];
    }
    if HasFinal(b) {
      var i :| 0 <= i < |b| && b[i].body.FinalEvent?;
      assert (a + b)[|a| + i] == b[i];
    }
  }

  lemma {:induction false} NoFinalYet(batches: seq<seq<Row>>)
    requires forall k | 0 <= k < |batches| :: !HasFinal(batches[k])
    ensures !HasFinal(Received(batches))
    decreases |batches|
  {
    if batches != [] {
      var earlier, last := batches[..|batches| - 1], batches[|batches| - 1];
      NoFinalYet(earlier);
      HasFinalSplit(Received(earlier), last);
    }
  }

  lemma PollFaithful(w: World, timedOut: bool, failed: bool)
    requires Faithful(w)
    ensures Faithful(Apply(w, PollStep(timedOut, failed)))
    ensures w.reader.done ==> Apply(w, PollStep(timedOut, failed)).batches == w.batches
  {
    if w.open && !w.reader.done && !timedOut && !failed {
      PollCatchesUp(w);
    }
  }

  /** Over every interleaving of appends and polls, by anyone, a subscriber's
      stream is faithful. */
  lemma {:induction false} StreamIsFaithful(rows: seq<Row>, steps: seq<Step>)
    requires WellNumbered(rows)
    ensures Faithful(After(rows, steps))
    decreases |steps|
  {
    if steps != [] {
      var w, step := After(rows, steps[..|steps| - 1]), steps[|steps| - 1];
      StreamIsFaithful(rows, steps[..|steps| - 1]);
      match step
      case Append(body, own) => EmittedNumbers(w.rows, body, own);
      case PollStep(timedOut, failed) => PollFaithful(w, timedOut, failed);
    }
  }

  // -------------------------------------------------------------- the runner

  /** What a canceller may do at any moment: its status update and its status
      events are separate statements, possibly acting on a stale read. */
  datatype CancelAction = MarkCanceled | EmitCanceled

  /** The points of a run where other sessions' statements can come in between. */
  datatype Point =
    | InSetState(state: TaskState) | DuringRlm | BeforeRound(round: nat) | AfterSkill(round: nat) | BeforeResult
    | BeforeFinal

  datatype Prompt = Original(text: string) | Refine(text: string, round: nat, previous: string)

  datatype SkillResult = Parts(parts: string) | SkillError(message: string)

  datatype RlmResult = NotRlm | RlmAnswer(parts: string) | RlmError(message: string)

  /** Everything the run meets from outside: the inbound recursion frame's outcome,
      the fleet halt flag, the skill, and the cancellers' actions at each point
      where other sessions can run. */
  datatype Env = Env(
    text: string, rounds: Option<nat>, haltedAtEntry: bool, halted: nat -> bool,
    rlm: RlmResult, skill: (nat, Prompt) -> SkillResult, asText: string -> string,
    interference: Point -> seq<CancelAction>)

  datatype Outcome = Refused | Done(state: TaskState, parts: Option<string>, error: Option<string>)

  datatype Artifact = Artifact(round: nat, parts: string)

  const MAX_RECURSION_ROUNDS: nat := 10

  function Rounds(env: Env): nat {
    var r := if env.rounds.Some? then env.rounds.value else 1;
    if r < 1 then 1 else if r > MAX_RECURSION_ROUNDS then MAX_RECURSION_ROUNDS else r
  }

  function PromptFor(env: Env, outputs: seq<string>): Prompt {
    if outputs == [] then Original(env.text)
    else Refine(env.text, |outputs|, env.asText(outputs[|outputs| - 1]))
  }

  /** The outputs of the refinement rounds before round n, each conditioned on the
      one before, up to the first round that fails. */
  function Outputs(env: Env, n: nat): (outputs: seq<string>)
    ensures |outputs| <= n
  {
    if n == 0 then []
    else
      var before := Outputs(env, n - 1);
      if |before| < n - 1 then before
      else
        match env.skill(n - 1, PromptFor(env, before))
        case Parts(parts) => before + [parts]
        case SkillError(_) => before
  }

  /** The requested number of rounds counts, from 1 to 10; one when none is given. */
  lemma RoundsKeepRequest(env: Env)
    ensures env.rounds == None ==> Rounds(env) == 1
    ensures env.rounds.Some? && 1 <= env.rounds.value <= 10 ==> Rounds(env) == env.rounds.value
    ensures env.rounds.Some? && env.rounds.value > 10 ==> Rounds(env) == 10
    ensures env.rounds == Some(0) ==> Rounds(env) == 1
  {
  }

  /** Each output is what the skill made of the original text in the first round, and of
      the text with the previous output in every later one; the outputs end early only
      in a round that fails. */
  lemma {:induction false} OutputsChain(env: Env, n: nat, k: nat)
    requires k <= |Outputs(env, n)|
    ensures var outputs := Outputs(env, n);
      var prompt := if k == 0 then Original(env.text) else Refine(env.text, k, env.asText(outputs[k - 1]));
      && (k < |outputs| ==> env.skill(k, prompt) == Parts(outputs[k]))
      && (k == |outputs| < n ==> env.skill(k, prompt).SkillError?)
  {
    if n > 0 {
      var before := Outputs(env, n - 1);
      if k <= |before| { OutputsChain(env, n - 1, k); }
    }
  }

  function Artifacts(outputs: seq<string>): seq<Artifact> {
    seq(|outputs|, i requires 0 <= i < |outputs| => Artifact(i, outputs[i]))
  }

  // ------------------------------------------- what a run comes to, from outside

  /** A canceller marks the task at this point. */
  predicate Marks(env: Env, p: Point) { MarkCanceled in env.interference(p) }

  /** The check before round n stops the run; `canceled` says whether the task was
      already marked when the rounds began. */
  predicate Aborts(env: Env, canceled: bool, n: nat) {
    env.halted(n) || MarkedBy(env, canceled, n) || Marks(env, BeforeRound(n))
  }

  /** The task is marked canceled when round n is about to be entered. */
  predicate MarkedBy(env: Env, canceled: bool, n: nat) {
    if n == 0 then canceled else Marks(env, AfterSkill(n - 1))
  }

  /** Round n is entered and produces an output. */
  predicate Passes(env: Env, canceled: bool, n: nat) {
    !Aborts(env, canceled, n) && |Outputs(env, n)| == n && env.skill(n, PromptFor(env, Outputs(env, n))).Parts?
  }

  /** Rounds before n succeeded and round n failed with this message. */
  predicate FailedAt(env: Env, n: nat, message: string) {
    n < Rounds(env) && |Outputs(env, n)| == n && env.skill(n, PromptFor(env, Outputs(env, n))) == SkillError(message)
  }

  predicate Reaches(env: Env, canceled: bool, n: nat) { forall m | 0 <= m < n :: Passes(env, canceled, m) }

  predicate StartsCanceled(env: Env) { Marks(env, InSetState(Working)) || Marks(env, DuringRlm) }

  predicate AbortedIn(env: Env, n: nat) {
    Reaches(env, StartsCanceled(env), n) && Aborts(env, StartsCanceled(env), n)
  }

  predicate FailedIn(env: Env, n: nat) {
    && Reaches(env, StartsCanceled(env), n) && !Aborts(env, StartsCanceled(env), n)
    && |Outputs(env, n)| == n && env.skill(n, PromptFor(env, Outputs(env, n))).SkillError?
  }

  predicate RanAll(env: Env) { Reaches(env, StartsCanceled(env), Rounds(env)) }

  /** A mark that lands in the last round. */
  predicate MarkedLate(env: Env) { Marks(env, AfterSkill(Rounds(env) - 1)) }

  predicate RunCancels(env: Env) {
    env.rlm.NotRlm? && ((exists n | 0 <= n < Rounds(env) :: AbortedIn(env, n)) || (RanAll(env) && MarkedLate(env)))
  }

  predicate RunCompletes(env: Env) {
    env.rlm.RlmAnswer? || (env.rlm.NotRlm? && RanAll(env) && !MarkedLate(env))
  }

  predicate RunFails(env: Env) {
    env.rlm.RlmError? || (env.rlm.NotRlm? && exists n | 0 <= n < Rounds(env) :: FailedIn(env, n))
  }

  lemma RoundPassed(env: Env, canceled: bool, n: nat, parts: string)
    requires Reaches(env, canceled, n) && !Aborts(env, canceled, n)
    requires |Outputs(env, n)| == n && env.skill(n, PromptFor(env, Outputs(env, n))) == Parts(parts)
    ensures Reaches(env, canceled, n + 1) && Outputs(env, n + 1) == Outputs(env, n) + [parts]
  {
    assert Passes(env, canceled, n);
  }

  lemma ReachesOnlyPassed(env: Env, canceled: bool, n: nat, m: nat)
    requires Reaches(env, canceled, n) && !Passes(env, canceled, m)
    ensures n <= m
  {
  }

  /** The round where the rounds stop decides the outcome. */
  lemma StopDecides(env: Env, n: nat)
    requires env.rlm.NotRlm? && n <= Rounds(env) && Reaches(env, StartsCanceled(env), n)
    requires n == Rounds(env) || AbortedIn(env, n) || FailedIn(env, n)
    ensures RunCancels(env) <==> if n == Rounds(env) then MarkedLate(env) else AbortedIn(env, n)
    ensures RunCompletes(env) <==> n == Rounds(env) && !MarkedLate(env)
    ensures RunFails(env) <==> n < Rounds(env) && FailedIn(env, n)
  {
    var c := StartsCanceled(env);
    assert n < Rounds(env) ==> !Passes(env, c, n);
    forall m | 0 <= m < Rounds(env) && (AbortedIn(env, m) || FailedIn(env, m)) ensures m == n {
      ReachesOnlyPassed(env, c, n, m);
      if n < Rounds(env) { ReachesOnlyPassed(env, c, m, n); }
    }
    if n < Rounds(env) && RanAll(env) { ReachesOnlyPassed(env, c, Rounds(env), n); }
  }

  /** Some round stops the run. */
  lemma {:induction false} StopsSomewhere(env: Env, from: nat) returns (n: nat)
    requires from <= Rounds(env) && Reaches(env, StartsCanceled(env), from) && |Outputs(env, from)| == from
    ensures n <= Rounds(env) && Reaches(env, StartsCanceled(env), n) && |Outputs(env, n)| == n
    ensures n == Rounds(env) || AbortedIn(env, n) || FailedIn(env, n)
    decreases Rounds(env) - from
  {
    if from == Rounds(env) || !Passes(env, StartsCanceled(env), from) {
      n := from;
    } else {
      n := StopsSomewhere(env, from + 1);
    }
  }

  lemma {:induction false} OutputsGrow(env: Env, n: nat, m: nat)
    requires |Outputs(env, n)| == n <= m
    ensures n <= |Outputs(env, m)|
    ensures n < m && env.skill(n, PromptFor(env, Outputs(env, n))).SkillError? ==> |Outputs(env, m)| == n
    decreases m
  {
    if n < m { OutputsGrow(env, n, m - 1); }
  }

  /** How many rounds would succeed if nothing interfered. */
  function Good(env: Env): nat { |Outputs(env, Rounds(env))| }

  /** A mark that lands before the result of the last good round is in, or before
      the check of the round after it. */
  predicate MarkedInTime(env: Env) {
    || StartsCanceled(env)
    || (exists n | 0 <= n <= Good(env) :: n < Rounds(env) && Marks(env, BeforeRound(n)))
    || (exists n | 0 <= n < Good(env) :: Marks(env, AfterSkill(n)))
  }

  lemma InTimeMeansAborts(env: Env, n: nat)
    requires n == Good(env) && Reaches(env, StartsCanceled(env), n)
    requires n == Rounds(env) || !Aborts(env, StartsCanceled(env), n)
    ensures MarkedInTime(env) <==> n == Rounds(env) && MarkedLate(env)
  {
    var c := StartsCanceled(env);
    assert 0 < Rounds(env);
    assert !Aborts(env, c, 0) by { if n > 0 { assert Passes(env, c, 0); } }
    forall m | 0 <= m <= n && m < Rounds(env) ensures !Aborts(env, c, m) {
      if m < n { assert Passes(env, c, m); }
    }
    forall m | 0 <= m < n && m + 1 < Rounds(env) ensures !Marks(env, AfterSkill(m)) {
      assert !Aborts(env, c, m + 1);
    }
    forall m | 0 <= m <= n && m < Rounds(env) ensures !Marks(env, BeforeRound(m)) {
      assert !Aborts(env, c, m);
    }
    if n == Rounds(env) {
      var last := n - 1;
      assert MarkedLate(env) == Marks(env, AfterSkill(last));
    }
  }

  /** Without a fleet halt, a cancellation is honoured exactly when its mark comes in
      time. One that lands while the failing round's skill runs is lost. */
  lemma CancelHonouredIff(env: Env)
    requires env.rlm.NotRlm? && forall n | 0 <= n < Rounds(env) :: !env.halted(n)
    ensures RunCancels(env) <==> MarkedInTime(env)
  {
    var n := StopsSomewhere(env, 0);
    StopDecides(env, n);
    OutputsGrow(env, n, Rounds(env));
    if n == Rounds(env) || FailedIn(env, n) {
      InTimeMeansAborts(env, n);
    }
  }

  /** So a cancellation is not absorbing: with only that mark, the run fails and the
      stored state is failed. */
  lemma CancelLostInFailingRound(env: Env, n: nat)
    requires env.rlm.NotRlm? && n < Rounds(env) && |Outputs(env, n)| == n
    requires env.skill(n, PromptFor(env, Outputs(env, n))).SkillError?
    requires forall m | 0 <= m < Rounds(env) :: !env.halted(m)
    requires forall p :: Marks(env, p) <==> p == AfterSkill(n)
    ensures RunFails(env) && !RunCancels(env)
    ensures forall out: Outcome, status | StoredState(env, out, status) && AsDecided(env, out.state) :: status == Failed
  {
    OutputsGrow(env, n, Rounds(env));
    CancelHonouredIff(env);
    var stop := StopsSomewhere(env, 0);
    StopDecides(env, stop);
    OutputsGrow(env, stop, Rounds(env));
  }

  lemma ArtifactsNone(before: seq<Artifact>)
    ensures before + Artifacts([]) == before
  {
  }

  lemma ArtifactsSnoc(before: seq<Artifact>, outputs: seq<string>, parts: string)
    ensures before + Artifacts(outputs + [parts]) == before + Artifacts(outputs) + [Artifact(|outputs|, parts)]
  {
  }

  /** What an aborted round leaves in the log: a halt also writes the state. */
  function AbortTrace(env: Env, n: nat): seq<Body> {
    if env.halted(n) then [StatusEvent(Canceled), FinalEvent(Canceled)] else [FinalEvent(Canceled)]
  }

  function OwnBodies(rows: seq<Row>): seq<Body> {
    if rows == [] then []
    else OwnBodies(rows[..|rows| - 1]) + if rows[|rows| - 1].own then [rows[|rows| - 1].body] else []
  }

  lemma OwnBodiesAppend(rows: seq<Row>, r: Row)
    ensures OwnBodies(rows + [r]) == OwnBodies(rows) + if r.own then [r.body] else []
  {
    assert (rows + [r])[..|rows|] == rows;
  }

  /** The event trace of a finished run: it says it works, says at most once more
      what it came to, and ends with one final event. */
  predicate RunnerTrace(trace: seq<Body>, state: TaskState) {
    || (state == Canceled && trace == [StatusEvent(Working), FinalEvent(Canceled)])
    || (state in {Completed, Canceled, Failed} &&
        trace == [StatusEvent(Working), StatusEvent(state), FinalEvent(state)])
  }

  class TaskDb {
    var rows: seq<Row>
    var status: TaskState
    var artifacts: seq<Artifact>

    /** Numbers are contiguous, and nobody but the runner emits a final event. */
    ghost predicate Valid()
      reads this
    {
      WellNumbered(rows) && forall i | 0 <= i < |rows| :: rows[i].own || rows[i].body.StatusEvent?
    }

    constructor ()
      ensures Valid() && rows == [] && artifacts == [] && status == Submitted
    {
      rows, status, artifacts := [], Submitted, [];
    }

    method EmitEvent(body: Body, own: bool)
      requires Valid() && (own || body.StatusEvent?)
      modifies this`rows
      ensures Valid() && rows == Emitted(old(rows), body, own)
      ensures OwnBodies(rows) == OwnBodies(old(rows)) + if own then [body] else []
    {
      EmittedNumbers(rows, body, own);
      OwnBodiesAppend(rows, Row(MaxSequence(rows) + 1, body, own));
      rows := Emitted(rows, body, own);
    }

    method SetState(env: Env, state: TaskState)
      requires Valid()
      modifies this`rows, this`status
      ensures Valid() && status == if Marks(env, InSetState(state)) then Canceled else state
      ensures OwnBodies(rows) == OwnBodies(old(rows)) + [StatusEvent(state)]
    {
      status := state;
      Yield(env.interference(InSetState(state)));
      EmitEvent(StatusEvent(state), true);
    }

    method EmitFinal(env: Env, state: TaskState)
      requires Valid()
      modifies this`rows, this`status
      ensures Valid() && status == if Marks(env, BeforeFinal) then Canceled else old(status)
      ensures OwnBodies(rows) == OwnBodies(old(rows)) + [FinalEvent(state)]
    {
      Yield(env.interference(BeforeFinal));
      EmitEvent(FinalEvent(state), true);
    }

    /** Other sessions run: any cancellers' statements, in any order. */
    method Yield(actions: seq<CancelAction>)
      requires Valid()
      modifies this`rows, this`status
      ensures Valid() && OwnBodies(rows) == OwnBodies(old(rows))
      ensures status == if MarkCanceled in actions then Canceled else old(status)
    {
      for i := 0 to |actions|
        invariant Valid() && OwnBodies(rows) == OwnBodies(old(rows))
        invariant status == if MarkCanceled in actions[..i] then Canceled else old(status)
      {
        match actions[i]
        case MarkCanceled => status := Canceled;
        case EmitCanceled => EmitEvent(StatusEvent(Canceled), false);
        assert actions[..i + 1] == actions[..i] + [actions[i]];
      }
      assert actions[..|actions|] == actions;
    }

    /** Abandons the task between rounds: a halted fleet also marks it canceled. */
    method AbortRound(env: Env, halted: bool)
      requires Valid() && (halted || status == Canceled)
      modifies this`rows, this`status
      ensures Valid() && status == Canceled
      ensures OwnBodies(rows) == OwnBodies(old(rows)) +
        if halted then [StatusEvent(Canceled), FinalEvent(Canceled)] else [FinalEvent(Canceled)]
    {
      if halted {
        SetState(env, Canceled);
      }
      EmitFinal(env, Canceled);
    }

    /** One round: its check, and then its skill unless the check aborts. */
    method RunRound(env: Env, round: nat, outputs: seq<string>) returns (result: Option<SkillResult>)
      requires Valid()
      modifies this`rows, this`status
      ensures Valid()
      ensures result.None? <==> env.halted(round) || old(status) == Canceled || Marks(env, BeforeRound(round))
      ensures result.None? ==> status == Canceled && OwnBodies(rows) == OwnBodies(old(rows)) + AbortTrace(env, round)
      ensures result.Some? ==>
        && result.value == env.skill(round, PromptFor(env, outputs))
        && OwnBodies(rows) == OwnBodies(old(rows)) && (status == Canceled <==> Marks(env, AfterSkill(round)))
    {
      Yield(env.interference(BeforeRound(round)));
      if env.halted(round) || status == Canceled {
        AbortRound(env, env.halted(round));
        return None;
      }
      result := Some(env.skill(round, PromptFor(env, outputs)));
      Yield(env.interference(AfterSkill(round)));
    }

    /** The refinement rounds. They stop before the first round whose check aborts,
        in the first round whose skill fails, or after the last one. */
    method RunRounds(env: Env) returns (ended: Option<Outcome>, outputs: seq<string>, error: Option<string>)
      requires Valid()
      modifies this
      ensures Valid() && |outputs| <= Rounds(env)
      ensures Reaches(env, old(status) == Canceled, |outputs|) && outputs == Outputs(env, |outputs|)
      ensures artifacts == old(artifacts) + Artifacts(outputs)
      ensures ended.Some? <==> |outputs| < Rounds(env) && Aborts(env, old(status) == Canceled, |outputs|)
      ensures error.Some? <==> |outputs| < Rounds(env) && !Aborts(env, old(status) == Canceled, |outputs|)
      ensures error.Some? ==> FailedAt(env, |outputs|, error.value)
      ensures |outputs| == Rounds(env) ==> (status == Canceled <==> MarkedLate(env))
      ensures ended.None? ==> OwnBodies(rows) == OwnBodies(old(rows))
      ensures ended.Some? ==>
        && ended == Some(Done(Canceled, None, None)) && status == Canceled
        && OwnBodies(rows) == OwnBodies(old(rows)) + AbortTrace(env, |outputs|)
    {
      ended, outputs, error := None, [], None;
      ghost var canceled := status == Canceled;
      var round := 0;
      ArtifactsNone(artifacts);
      while round < Rounds(env)
        invariant 0 <= round <= Rounds(env) && |outputs| == round
        invariant Valid() && outputs == Outputs(env, round) && Reaches(env, canceled, round)
        invariant status == Canceled <==> MarkedBy(env, canceled, round)
        invariant artifacts == old(artifacts) + Artifacts(outputs)
        invariant OwnBodies(rows) == OwnBodies(old(rows))
      {
        var result := RunRound(env, round, outputs);
        if result.None? {
          ended := Some(Done(Canceled, None, None));
          return;
        }
        if result.value.SkillError? {
          error := Some(result.value.message);
          return;
        }
        ArtifactsSnoc(old(artifacts), outputs, result.value.parts);
        RoundPassed(env, canceled, round, result.value.parts);
        artifacts := artifacts + [Artifact(round, result.value.parts)];
        outputs := outputs + [result.value.parts];
        round := round + 1;
      }
    }

    /** A frame that carried a recursion, answered or failed. */
    method FinishRlm(env: Env) returns (out: Outcome)
      requires Valid() && !env.rlm.NotRlm?
      modifies this
      ensures Valid() && StoredState(env, out, status)
      ensures env.rlm.RlmAnswer? ==>
        && out == Done(Completed, Some(env.rlm.parts), None)
        && artifacts == old(artifacts) + [Artifact(0, env.rlm.parts)]
      ensures env.rlm.RlmError? ==> out == Done(Failed, None, Some(env.rlm.message)) && artifacts == old(artifacts)
      ensures OwnBodies(rows) == OwnBodies(old(rows)) + [StatusEvent(out.state), FinalEvent(out.state)]
    {
      if env.rlm.RlmAnswer? {
        artifacts := artifacts + [Artifact(0, env.rlm.parts)];
        out := Done(Completed, Some(env.rlm.parts), None);
      } else {
        out := Done(Failed, None, Some(env.rlm.message));
      }
      SetState(env, out.state);
      EmitFinal(env, out.state);
    }

    /** After the rounds: a late cancel is honoured over a success and nothing else;
        otherwise the result is written. */
    method FinishRounds(env: Env, outputs: seq<string>, error: Option<string>) returns (out: Outcome)
      requires Valid() && (error.None? ==> outputs != [])
      modifies this`rows, this`status
      ensures Valid() && StoredState(env, out, status)
      ensures out == if error.Some? then Done(Failed, None, error)
                     else if old(status) == Canceled then Done(Canceled, None, None)
                     else Done(Completed, Some(outputs[|outputs| - 1]), None)
      ensures OwnBodies(rows) == OwnBodies(old(rows)) +
        if out.state == Canceled then [FinalEvent(Canceled)] else [StatusEvent(out.state), FinalEvent(out.state)]
    {
      if error.None? && status == Canceled {
        EmitFinal(env, Canceled);
        return Done(Canceled, None, None);
      }
      Yield(env.interference(BeforeResult));
      var state := if error.None? then Completed else Failed;
      SetState(env, state);
      EmitFinal(env, state);
      out := Done(state, if error.None? then Some(outputs[|outputs| - 1]) else None, error);
    }

    /** The rounds and what follows them, for a task that carries no recursion. */
    method Refine(env: Env) returns (out: Outcome)
      requires Valid() && artifacts == [] && env.rlm.NotRlm? && (status == Canceled <==> StartsCanceled(env))
      modifies this
      ensures Valid() && StoredState(env, out, status) && AsDecided(env, out.state) && AsProduced(env, out, artifacts)
      ensures Closes(OwnBodies(old(rows)), OwnBodies(rows), out.state)
    {
      var ended, outputs, error := RunRounds(env);
      assert artifacts == Artifacts(outputs);
      StopDecides(env, |outputs|);
      if ended.Some? {
        return ended.value;
      }
      out := FinishRounds(env, outputs, error);
      assert error.Some? ==> FailedAt(env, |outputs|, error.value);
    }

    /** `create_and_start`: what the outside does decides between canceled, completed
        and failed. Every path that creates the task appends exactly one final event,
        as its own last event, carrying the returned state. */
    method CreateAndStart(env: Env) returns (out: Outcome)
      requires Valid() && artifacts == []
      modifies this
      ensures Valid()
      ensures out.Refused? <==> env.haltedAtEntry
      ensures out.Refused? ==> rows == old(rows) && status == old(status) && artifacts == []
      ensures out.Done? ==>
        && Extends(OwnBodies(old(rows)), OwnBodies(rows), out.state)
        && StoredState(env, out, status) && AsDecided(env, out.state) && AsProduced(env, out, artifacts)
    {
      if env.haltedAtEntry {
        return Refused;
      }
      SetState(env, Working);
      Yield(env.interference(DuringRlm));
      ghost var working := OwnBodies(rows);
      if !env.rlm.NotRlm? {
        out := FinishRlm(env);
      } else {
        out := Refine(env);
      }
      WorkThenClose(OwnBodies(old(rows)), working, OwnBodies(rows), out.state);
    }
  }

  /** The state is canceled, completed or failed exactly as the outside decides. */
  predicate AsDecided(env: Env, state: TaskState) {
    && (state == Canceled <==> RunCancels(env))
    && (state == Completed <==> RunCompletes(env))
    && (state == Failed <==> RunFails(env))
    && state in {Canceled, Completed, Failed}
  }

  /** A completed task returns the last output or the recursion's answer and has
      stored every output; a failed one names the error and the round it came from. */
  ghost predicate AsProduced(env: Env, out: Outcome, artifacts: seq<Artifact>) {
    && out.Done?
    && (env.rlm.RlmAnswer? ==> out.parts == Some(env.rlm.parts) && artifacts == [Artifact(0, env.rlm.parts)])
    && (env.rlm.RlmError? ==> out.error == Some(env.rlm.message) && artifacts == [])
    && (env.rlm.NotRlm? && out.state == Completed ==>
          var outputs := Outputs(env, Rounds(env));
          && |outputs| == |artifacts| == Rounds(env) && out.parts == Some(outputs[|outputs| - 1])
          && forall i | 0 <= i < |artifacts| :: artifacts[i] == Artifact(i, outputs[i]))
    && (env.rlm.NotRlm? && out.state == Failed ==>
          out.error.Some? && exists n :: FailedAt(env, n, out.error.value) && artifacts == Artifacts(Outputs(env, n)))
  }

  /** The runner's events grew by the end of a run: at most one status, one final. */
  ghost predicate Closes(before: seq<Body>, after: seq<Body>, state: TaskState) {
    || (state == Canceled && after == before + [FinalEvent(Canceled)])
    || after == before + [StatusEvent(state), FinalEvent(state)]
  }

  lemma WorkThenClose(before: seq<Body>, working: seq<Body>, after: seq<Body>, state: TaskState)
    requires working == before + [StatusEvent(Working)] && Closes(working, after, state)
    requires state in {Canceled, Completed, Failed}
    ensures Extends(before, after, state)
  {
  }

  /** The stored state is the returned one, unless a cancellation came while it was
      being written or after. */
  predicate StoredState(env: Env, out: Outcome, status: TaskState) {
    && out.Done?
    && (Marks(env, BeforeFinal) ==> status == Canceled)
    && (out.state == Canceled ==> status == Canceled)
    && (!Marks(env, BeforeFinal) && out.state != Canceled ==>
          status == if Marks(env, InSetState(out.state)) then Canceled else out.state)
  }

  /** The runner's events grew by the trace of one finished run. */
  ghost predicate Extends(before: seq<Body>, after: seq<Body>, state: TaskState) {
    before <= after && RunnerTrace(after[|before|..], state)
  }

  // ------------------------------------------------- the final event, for all

  function CountFinals(rows: seq<Row>): nat {
    if rows == [] then 0 else CountFinals(rows[..|rows| - 1]) + if rows[|rows| - 1].body.FinalEvent? then 1 else 0
  }

  function FinalBodies(bodies: seq<Body>): nat {
    if bodies == [] then 0
    else FinalBodies(bodies[..|bodies| - 1]) + if bodies[|bodies| - 1].FinalEvent? then 1 else 0
  }

  /** When only the runner emits final events, the log holds exactly as many as the
      runner's own trace, whatever others appended in between. */
  lemma {:induction false} FinalsAreOwn(rows: seq<Row>)
    requires forall i | 0 <= i < |rows| :: rows[i].own || rows[i].body.StatusEvent?
    ensures CountFinals(rows) == FinalBodies(OwnBodies(rows))
  {
    if rows != [] {
      var earlier, last := rows[..|rows| - 1], rows[|rows| - 1];
      FinalsAreOwn(earlier);
      if last.own {
        var bodies := OwnBodies(earlier) + [last.body];
        assert bodies[..|bodies| - 1] == OwnBodies(earlier);
      } else {
        assert OwnBodies(earlier) + [] == OwnBodies(earlier);
      }
    }
  }

  lemma {:induction false} TraceHasOneFinal(trace: seq<Body>, state: TaskState)
    requires RunnerTrace(trace, state)
    ensures FinalBodies(trace) == 1
  {
    assert trace[..1] == [StatusEvent(Working)] && trace[..1][..0] == [];
    assert FinalBodies(trace[..1]) == 0;
    if |trace| == 3 {
      assert trace[..2][..1] == trace[..1];
      assert FinalBodies(trace[..2]) == 0;
    }
  }

  /** A finished task's log holds exactly one final event. */
  lemma {:induction false} OneFinalPerTask(rows: seq<Row>, state: TaskState)
    requires forall i | 0 <= i < |rows| :: rows[i].own || rows[i].body.StatusEvent?
    requires RunnerTrace(OwnBodies(rows), state)
    ensures CountFinals(rows) == 1
  {
    FinalsAreOwn(rows);
    TraceHasOneFinal(OwnBodies(rows), state);
  }
}
