/** The daemon's phase register. A transition is an atomic maximum followed, if the
    register rose, by a broadcast; other threads' steps may come in between. */
module Lifecycle {

  datatype Phase = Initializing | Scanning | Ready | Terminating | Defunct

  function Code(p: Phase): nat {
    match p
    case Initializing => 0
    case Scanning => 1
    case Ready => 2
    case Terminating => 3
    case Defunct => 4
  }

  function FromCode(v: nat): (p: Phase)
    ensures v <= 4 ==> Code(p) == v
  {
    match v
    case 0 => Initializing
    case 1 => Scanning
    case 2 => Ready
    case 3 => Terminating
    case _ => Defunct
  }

  /** The phases are ordered as the daemon goes through them, and codes read back. */
  lemma PhasesInOrder(p: Phase)
    ensures Code(Initializing) == 0 < Code(Scanning) < Code(Ready) < Code(Terminating) < Code(Defunct) == 4
    ensures FromCode(Code(p)) == p
  {
  }

  /** The register, the broadcasts sent so far, the rises whose broadcast is still to
      come, oldest first, and all rises there have been. */
  datatype State = State(phase: nat, sent: seq<nat>, pending: seq<nat>, rises: seq<nat>)

  const START := State(0, [], [], [])

  /** Request is one thread's atomic maximum; Announce(k) the broadcast of the k-th
      pending rise. */
  datatype Step = Request(to: Phase) | Announce(k: nat)

  function Next(s: State, step: Step): State {
    match step
    case Request(to) =>
      if s.phase < Code(to) then State(Code(to), s.sent, s.pending + [Code(to)], s.rises + [Code(to)]) else s
    case Announce(k) =>
      if k < |s.pending| then
        s.(sent := s.sent + [s.pending[k]], pending := s.pending[..k] + s.pending[k + 1..])
      else s
  }

  function After(steps: seq<Step>): State {
    if steps == [] then START else Next(After(steps[..|steps| - 1]), steps[|steps| - 1])
  }

  // -------------------------------------------------------------- the register

  /** The register holds the highest phase ever requested. */
  ghost predicate IsMaximum(steps: seq<Step>, phase: nat) {
    && (forall i | 0 <= i < |steps| :: steps[i].Request? ==> Code(steps[i].to) <= phase)
    && (phase != 0 ==> exists i | 0 <= i < |steps| :: steps[i].Request? && Code(steps[i].to) == phase)
  }

  lemma MaximumStep(steps: seq<Step>, step: Step, s: State)
    requires IsMaximum(steps, s.phase)
    ensures IsMaximum(steps + [step], Next(s, step).phase)
  {
    var more := steps + [step];
    assert more[|steps|] == step;
    if Next(s, step).phase == s.phase && s.phase != 0 {
      var i :| 0 <= i < |steps| && steps[i].Request? && Code(steps[i].to) == s.phase;
      assert more[i] == steps[i];
    }
  }

  lemma {:induction false} RegisterIsMaximum(steps: seq<Step>)
    ensures IsMaximum(steps, After(steps).phase)
    decreases |steps|
  {
    if steps != [] {
      var front, last := steps[..|steps| - 1], steps[|steps| - 1];
      RegisterIsMaximum(front);
      MaximumStep(front, last, After(front));
      assert front + [last] == steps;
    }
  }

  // ------------------------------------------------------------ the broadcasts

  predicate Ascending(s: seq<nat>) { forall i, j | 0 <= i < j < |s| :: s[i] < s[j] }

  predicate Bounded(s: seq<nat>, top: nat) { forall i | 0 <= i < |s| :: 0 < s[i] <= top }

  predicate Climbs(s: State) {
    && Ascending(s.rises) && Bounded(s.rises, s.phase)
    && Ascending(s.pending) && Bounded(s.pending, s.phase)
    && s.phase == if s.rises == [] then 0 else s.rises[|s.rises| - 1]
  }

  lemma AscendingSnoc(s: seq<nat>, top: nat, x: nat)
    requires Ascending(s) && Bounded(s, top) && top < x
    ensures Ascending(s + [x]) && Bounded(s + [x], x)
  {
  }

  lemma AscendingWithout(s: seq<nat>, top: nat, k: nat)
    requires Ascending(s) && Bounded(s, top) && k < |s|
    ensures Ascending(s[..k] + s[k + 1..]) && Bounded(s[..k] + s[k + 1..], top)
  {
  }

  lemma ClimbsStep(s: State, step: Step)
    requires Climbs(s)
    ensures Climbs(Next(s, step)) && s.phase <= Next(s, step).phase && s.rises <= Next(s, step).rises
  {
    match step
    case Request(to) =>
      if s.phase < Code(to) {
        AscendingSnoc(s.rises, s.phase, Code(to));
        AscendingSnoc(s.pending, s.phase, Code(to));
      }
    case Announce(k) =>
      if k < |s.pending| { AscendingWithout(s.pending, s.phase, k); }
  }

  /** Sent and pending together are the rises, each once. */
  ghost predicate Accounted(s: State) {
    multiset(s.sent) + multiset(s.pending) == multiset(s.rises)
  }

  lemma AccountedStep(s: State, step: Step)
    requires Accounted(s)
    ensures Accounted(Next(s, step))
  {
    if step.Announce? && step.k < |s.pending| {
      var k := step.k;
      assert s.pending == s.pending[..k] + [s.pending[k]] + s.pending[k + 1..];
    }
  }

  /** In every run the register climbs and no rise is lost or repeated. */
  lemma {:induction false} RunClimbs(steps: seq<Step>)
    ensures Climbs(After(steps)) && Accounted(After(steps))
    decreases |steps|
  {
    if steps != [] {
      var front, last := steps[..|steps| - 1], steps[|steps| - 1];
      RunClimbs(front);
      ClimbsStep(After(front), last);
      AccountedStep(After(front), last);
    }
  }

  lemma {:induction false} AscendingDistinct(s: seq<nat>, x: nat)
    requires Ascending(s)
    ensures multiset(s)[x] <= 1
    decreases |s|
  {
    if s != [] {
      var front := s[..|s| - 1];
      assert s == front + [s[|s| - 1]];
      AscendingDistinct(front, x);
      if x == s[|s| - 1] { assert x !in front; }
    }
  }

  lemma SameContents(a: seq<nat>, b: seq<nat>, top: nat)
    requires multiset(a) == multiset(b)
    ensures Bounded(b, top) ==> Bounded(a, top)
    ensures top in b ==> top in a
  {
    forall i | 0 <= i < |a| ensures a[i] in b {
      assert a[i] in multiset(a);
    }
    assert top in b ==> top in multiset(b);
  }

  /** In every run no phase is broadcast twice. */
  lemma BroadcastOnce(steps: seq<Step>, phase: nat)
    ensures multiset(After(steps).sent)[phase] <= 1
  {
    RunClimbs(steps);
    AscendingDistinct(After(steps).rises, phase);
  }

  /** Once no broadcast is outstanding the broadcasts are exactly the rises, and the
      highest of them is the register. */
  lemma BroadcastsMatchRises(steps: seq<Step>)
    requires After(steps).pending == []
    ensures var s := After(steps);
      && multiset(s.sent) == multiset(s.rises)
      && (s.phase != 0 ==> s.phase in s.sent) && Bounded(s.sent, s.phase)
  {
    RunClimbs(steps);
    SameContents(After(steps).sent, After(steps).rises, After(steps).phase);
  }

  // ---------------------------------------------------------------- the order

  /** Every broadcast was the oldest one outstanding. */
  ghost predicate OldestFirst(steps: seq<Step>) {
    forall i | 0 <= i < |steps| :: InTurnAt(steps, i)
  }

  predicate InTurnAt(steps: seq<Step>, i: nat)
    requires i < |steps|
  {
    InTurn(After(steps[..i]), steps[i])
  }

  predicate InTurn(s: State, step: Step) { step.Announce? && step.k < |s.pending| ==> step.k == 0 }

  /** A larger phase has been sent ahead of a smaller one that was outstanding. */
  ghost predicate Overtaken(s: State) {
    || (exists i, j | 0 <= i < j < |s.sent| :: s.sent[j] < s.sent[i])
    || (exists i, j | 0 <= i < |s.sent| && 0 <= j < |s.pending| :: s.pending[j] < s.sent[i])
  }

  lemma OvertakenStays(s: State, step: Step)
    requires Overtaken(s)
    ensures Overtaken(Next(s, step))
  {
    var t := Next(s, step);
    if i, j :| 0 <= i < j < |s.sent| && s.sent[j] < s.sent[i] {
      assert t.sent[j] < t.sent[i];
    } else {
      var i, j :| 0 <= i < |s.sent| && 0 <= j < |s.pending| && s.pending[j] < s.sent[i];
      if step.Announce? && step.k < |s.pending| {
        if step.k == j {
          assert t.sent[|s.sent|] < t.sent[i];
        } else {
          var moved := if j < step.k then j else j - 1;
          assert t.pending[moved] == s.pending[j] && t.sent[i] == s.sent[i];
        }
      } else {
        assert t.pending[j] < t.sent[i];
      }
    }
  }

  /** Either the broadcasts so far follow the rises, or one was overtaken. */
  ghost predicate Sorted(s: State) { s.sent + s.pending == s.rises }

  lemma OutOfTurnOvertakes(s: State, step: Step)
    requires Climbs(s) && !InTurn(s, step)
    ensures Overtaken(Next(s, step))
  {
    var t := Next(s, step);
    assert t.sent[|s.sent|] == s.pending[step.k] && t.pending[0] == s.pending[0];
  }

  lemma InTurnStaysSorted(s: State, step: Step)
    requires Sorted(s) && InTurn(s, step)
    ensures Sorted(Next(s, step))
  {
  }

  lemma {:induction false} TurnDecides(steps: seq<Step>)
    ensures if OldestFirst(steps) then Sorted(After(steps)) else Overtaken(After(steps))
    decreases |steps|
  {
    if steps != [] {
      var front, last := steps[..|steps| - 1], steps[|steps| - 1];
      TurnDecides(front);
      TurnsSplit(steps);
      RunClimbs(front);
      if !OldestFirst(front) {
        OvertakenStays(After(front), last);
      } else if InTurn(After(front), last) {
        InTurnStaysSorted(After(front), last);
      } else {
        OutOfTurnOvertakes(After(front), last);
      }
    }
  }

  lemma TurnsSplit(steps: seq<Step>)
    requires steps != []
    ensures var n := |steps| - 1; OldestFirst(steps) <==> OldestFirst(steps[..n]) && InTurnAt(steps, n)
  {
    var n := |steps| - 1;
    forall i | 0 <= i < n ensures InTurnAt(steps[..n], i) == InTurnAt(steps, i) {
      assert steps[..n][..i] == steps[..i];
    }
  }

  /** With no broadcast outstanding, subscribers saw the phases in increasing order
      exactly when every broadcast was the oldest one outstanding. */
  lemma OrderedIff(steps: seq<Step>)
    requires After(steps).pending == []
    ensures Ascending(After(steps).sent) <==> OldestFirst(steps)
  {
    TurnDecides(steps);
    RunClimbs(steps);
    if OldestFirst(steps) { assert After(steps).sent + [] == After(steps).sent; }
  }

  lemma AfterStep(steps: seq<Step>, step: Step)
    ensures After(steps + [step]) == Next(After(steps), step)
  {
    assert (steps + [step])[..|steps|] == steps;
  }

  lemma RaiseTwice(first: Phase, second: Phase)
    requires 0 < Code(first) < Code(second)
    ensures var a, b := Code(first), Code(second);
      After([Request(first)] + [Request(second)]) == State(b, [], [a, b], [a, b])
  {
    AfterStep([], Request(first));
    assert [] + [Request(first)] == [Request(first)];
    AfterStep([Request(first)], Request(second));
  }

  /** Two threads raise the register, and the second broadcasts first. */
  function Overtaking(first: Phase, second: Phase): seq<Step> {
    [Request(first)] + [Request(second)] + [Announce(1)] + [Announce(0)]
  }

  /** Order is not guaranteed: whenever a second thread raises the register before
      the first has broadcast, and broadcasts first, the phases arrive reversed. */
  lemma OvertakingReverses(first: Phase, second: Phase)
    requires 0 < Code(first) < Code(second)
    ensures var end := After(Overtaking(first, second));
      && end.pending == [] && end.phase == Code(second)
      && end.sent == [Code(second), Code(first)] && !Ascending(end.sent)
  {
    var raised := [Request(first)] + [Request(second)];
    RaiseTwice(first, second);
    AfterStep(raised, Announce(1));
    AfterStep(raised + [Announce(1)], Announce(0));
    var sent := [Code(second), Code(first)];
    assert sent[0] > sent[1];
  }

  // ------------------------------------------------------ the class as written

  class DaemonLifecycle {
    var phase: nat
    var sent: seq<nat>
    ghost var pending: seq<nat>
    ghost var rises: seq<nat>

    ghost function View(): State
      reads this
    {
      State(phase, sent, pending, rises)
    }

    constructor ()
      ensures View() == START
    {
      phase, sent, pending, rises := 0, [], [], [];
    }

    method FetchMax(to: Phase) returns (prev: nat)
      modifies this`phase, this`pending, this`rises
      ensures View() == Next(old(View()), Request(to)) && prev == old(phase)
    {
      prev := phase;
      if prev < Code(to) {
        phase := Code(to);
        pending, rises := pending + [Code(to)], rises + [Code(to)];
      }
    }

    method Broadcast(p: nat, ghost k: nat)
      requires k < |pending| && pending[k] == p
      modifies this`sent, this`pending
      ensures View() == Next(old(View()), Announce(k))
    {
      sent := sent + [p];
      pending := pending[..k] + pending[k + 1..];
    }

    /** A transition no other thread interrupts. */
    method Transition(to: Phase) returns (prev: Phase)
      requires phase <= 4
      modifies this
      ensures Code(prev) == old(phase) && phase <= 4
      ensures phase == if old(phase) < Code(to) then Code(to) else old(phase)
      ensures sent == if old(phase) < Code(to) then old(sent) + [Code(to)] else old(sent)
      ensures pending == old(pending)
    {
      var p := FetchMax(to);
      prev := FromCode(p);
      if prev != to && p < Code(to) {
        Broadcast(Code(to), |pending| - 1);
      }
    }
  }
}
