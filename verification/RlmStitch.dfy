/** The accumulate-in-store stitch: partial answers are written to the shared
    store, then folded in windows of four. The peer that reduces a prompt is an
    arbitrary function. Prompts keep their parts apart, so a reducer here may
    depend on everything the rendered text shows, and more. */
module RlmStitch {
  import opened Common
  import opened RlmSlots

  const RLM_STITCH_WINDOW: nat := 4

  datatype Page = Page(slot: string, text: string)

  datatype Prompt =
    | Fold(query: string, running: Option<string>, pages: seq<Page>)
    | NothingFound(query: string)

  datatype Reply = Answer(text: string) | Refused

  /** One stitching node: its task id and depth, its partial answers and its reducer. */
  datatype Node = Node(id: Uuid, depth: nat, partials: seq<string>, query: string, reduce: Prompt -> Reply)

  function PageSlot(node: Node, i: nat): string { AccumSlot(node.id, Decimal(i)) }
  function SummarySlot(node: Node): string { AccumSlot(node.id, "summary") }

  function WindowEnd(node: Node, start: nat): (end: nat)
    requires start < |node.partials|
    ensures start < end <= |node.partials| && end <= start + RLM_STITCH_WINDOW
  {
    if start + RLM_STITCH_WINDOW <= |node.partials| then start + RLM_STITCH_WINDOW else |node.partials|
  }

  function Pages(node: Node, from: nat, to: nat): seq<Page>
    requires from <= to <= |node.partials|
  {
    seq(to - from, k requires 0 <= k < to - from => Page(PageSlot(node, from + k), node.partials[from + k]))
  }

  /** The fold from partial `start` on, with no store at all. */
  function FoldFrom(node: Node, start: nat, running: Option<string>): Reply
    requires start <= |node.partials| && (start == |node.partials| ==> running.Some?)
    decreases |node.partials| - start
  {
    if start == |node.partials| then Answer(running.value)
    else
      var end := WindowEnd(node, start);
      match node.reduce(Fold(node.query, running, Pages(node, start, end)))
      case Refused => Refused
      case Answer(text) => FoldFrom(node, end, Some(text))
  }

  /** What a stitch returns when nobody else touches the store. */
  function StitchAnswer(node: Node): Reply {
    if node.partials == [] then node.reduce(NothingFound(node.query))
    else FoldFrom(node, 0, None)
  }

  // ------------------------------------------- the fold is a fold over chunks

  function Chunks<T>(xs: seq<T>): seq<seq<T>>
    decreases |xs|
  {
    if xs == [] then []
    else if |xs| <= RLM_STITCH_WINDOW then [xs]
    else [xs[..RLM_STITCH_WINDOW]] + Chunks(xs[RLM_STITCH_WINDOW..])
  }

  function Flatten<T>(xss: seq<seq<T>>): seq<T> {
    if xss == [] then [] else xss[0] + Flatten(xss[1..])
  }

  function FoldChunks(node: Node, chunks: seq<seq<Page>>, running: Option<string>): Reply
    requires chunks == [] ==> running.Some?
    decreases |chunks|
  {
    if chunks == [] then Answer(running.value)
    else
      match node.reduce(Fold(node.query, running, chunks[0]))
      case Refused => Refused
      case Answer(text) => FoldChunks(node, chunks[1..], Some(text))
  }

  /** Chunks hold at most four items each, lose nothing, and keep the order. */
  lemma {:induction false} ChunksPartition<T>(xs: seq<T>)
    ensures Flatten(Chunks(xs)) == xs
    ensures forall i | 0 <= i < |Chunks(xs)| :: 1 <= |Chunks(xs)[i]| <= RLM_STITCH_WINDOW
    ensures forall i | 0 <= i < |Chunks(xs)| - 1 :: |Chunks(xs)[i]| == 4
    ensures |Chunks(xs)| == (|xs| + RLM_STITCH_WINDOW - 1) / RLM_STITCH_WINDOW
    decreases |xs|
  {
    if xs == [] {
    } else if |xs| <= RLM_STITCH_WINDOW {
      assert Chunks(xs)[1..] == [];
      assert xs + [] == xs;
    } else {
      var rest := xs[RLM_STITCH_WINDOW..];
      ChunksPartition(rest);
      assert Chunks(xs)[1..] == Chunks(rest);
      assert xs == xs[..RLM_STITCH_WINDOW] + rest;
    }
  }

  /** For every reducer, the windowed fold is the left fold over the chunks. */
  lemma {:induction false} FoldIsFoldOverChunks(node: Node, start: nat, running: Option<string>)
    requires start <= |node.partials| && (start == |node.partials| ==> running.Some?)
    ensures var chunks := Chunks(Pages(node, start, |node.partials|));
      (chunks == [] ==> running.Some?) && FoldFrom(node, start, running) == FoldChunks(node, chunks, running)
    decreases |node.partials| - start
  {
    var pages := Pages(node, start, |node.partials|);
    if start < |node.partials| {
      var end := WindowEnd(node, start);
      assert pages[..end - start] == Pages(node, start, end);
      assert pages[end - start..] == Pages(node, end, |node.partials|);
      assert Chunks(pages)[0] == Pages(node, start, end);
      assert Chunks(pages)[1..] == Chunks(Pages(node, end, |node.partials|));
      match node.reduce(Fold(node.query, running, Pages(node, start, end)))
      case Refused =>
      case Answer(text) => FoldIsFoldOverChunks(node, end, Some(text));
    }
  }

  /** A reducer that keeps every fact of the running summary and of its pages. */
  ghost predicate LosesNoFacts<F(!new)>(node: Node, facts: string -> iset<F>) {
    forall running: Option<string>, pages: seq<Page> |
      node.reduce(Fold(node.query, running, pages)).Answer? ::
        var out := facts(node.reduce(Fold(node.query, running, pages)).text);
        && (running.Some? ==> facts(running.value) <= out)
        && forall i | 0 <= i < |pages| :: facts(pages[i].text) <= out
  }

  lemma {:induction false} FoldKeepsFacts<F(!new)>(
    node: Node, facts: string -> iset<F>, start: nat, running: Option<string>)
    requires LosesNoFacts(node, facts)
    requires start <= |node.partials| && (start == |node.partials| ==> running.Some?)
    requires FoldFrom(node, start, running).Answer?
    ensures var out := facts(FoldFrom(node, start, running).text);
      && (running.Some? ==> facts(running.value) <= out)
      && forall i | start <= i < |node.partials| :: facts(node.partials[i]) <= out
    decreases |node.partials| - start
  {
    if start < |node.partials| {
      var end := WindowEnd(node, start);
      var pages := Pages(node, start, end);
      var text := node.reduce(Fold(node.query, running, pages)).text;
      FoldKeepsFacts(node, facts, end, Some(text));
      forall i | start <= i < |node.partials|
        ensures facts(node.partials[i]) <= facts(FoldFrom(node, start, running).text)
      {
        if i < end {
          assert pages[i - start].text == node.partials[i];
        }
      }
    }
  }

  /** The final answer holds every fact of every partial answer. */
  lemma AnswerKeepsFacts<F(!new)>(node: Node, facts: string -> iset<F>, i: nat)
    requires LosesNoFacts(node, facts) && i < |node.partials|
    requires StitchAnswer(node).Answer?
    ensures facts(node.partials[i]) <= facts(StitchAnswer(node).text)
  {
    FoldKeepsFacts(node, facts, 0, None);
  }

  // ----------------------------------------- concurrent stitches on one store

  /** Where a stitch stands between two of its store accesses or reduce calls. */
  datatype Local =
    | Saving(next: nat)
    | Reading(start: nat, next: nat, texts: seq<Page>, running: Option<string>)
    | Recording(end: nat, folded: string)
    | Finished(reply: Reply)

  predicate WellPlaced(node: Node, l: Local) {
    match l
    case Saving(next) => next == 0 || next < |node.partials|
    case Reading(start, next, texts, running) => start < |node.partials| && start <= next <= WindowEnd(node, start)
    case Recording(end, folded) => end <= |node.partials|
    case Finished(_) => true
  }

  /** One atomic step: a put, a get, or a reduce call. */
  function Step(node: Node, l: Local, store: Store): (out: (Local, Store))
    requires WellPlaced(node, l)
    ensures WellPlaced(node, out.0)
  {
    match l
    case Saving(next) =>
      if next == |node.partials| then (Finished(node.reduce(NothingFound(node.query))), store)
      else
        var store' := store[PageSlot(node, next) := node.partials[next]];
        (if next + 1 < |node.partials| then Saving(next + 1) else Reading(0, 0, [], None), store')
    case Reading(start, next, texts, running) =>
      if next < WindowEnd(node, start) then
        var slot := PageSlot(node, next);
        var texts' := if slot in store then texts + [Page(slot, store[slot])] else texts;
        (Reading(start, next + 1, texts', running), store)
      else
        (match node.reduce(Fold(node.query, running, texts))
         case Refused => Finished(Refused)
         case Answer(text) => Recording(next, text), store)
    case Recording(end, folded) =>
      (if end < |node.partials| then Reading(end, end, [], Some(folded)) else Finished(Answer(folded)),
       store[SummarySlot(node) := folded])
    case Finished(_) => (l, store)
  }

  function Alone(node: Node, store: Store, steps: nat): (out: (Local, Store))
    ensures WellPlaced(node, out.0)
  {
    if steps == 0 then (Saving(0), store)
    else
      var before := Alone(node, store, steps - 1);
      Step(node, before.0, before.1)
  }

  /** One event of a schedule: some stitch takes a step, or another writer stores a
      page outside the accumulator namespace. */
  datatype Event = Stitch(which: nat) | Write(slot: string, content: string)

  datatype World = World(locals: seq<Local>, store: Store)

  predicate WellFormed(nodes: seq<Node>, w: World) {
    |w.locals| == |nodes| && forall i | 0 <= i < |nodes| :: WellPlaced(nodes[i], w.locals[i])
  }

  predicate Possible(nodes: seq<Node>, e: Event) {
    match e
    case Stitch(i) => i < |nodes|
    case Write(slot, _) => !IsAccumSlot(slot)
  }

  function Apply(nodes: seq<Node>, w: World, e: Event): (w': World)
    requires WellFormed(nodes, w) && Possible(nodes, e)
    ensures WellFormed(nodes, w')
  {
    match e
    case Stitch(i) =>
      var out := Step(nodes[i], w.locals[i], w.store);
      World(w.locals[i := out.0], out.1)
    case Write(slot, content) => w.(store := w.store[slot := content])
  }

  function After(nodes: seq<Node>, store: Store, schedule: seq<Event>): (w: World)
    requires forall i | 0 <= i < |schedule| :: Possible(nodes, schedule[i])
    ensures WellFormed(nodes, w)
    decreases |schedule|
  {
    if schedule == [] then World(seq(|nodes|, _ => Saving(0)), store)
    else Apply(nodes, After(nodes, store, schedule[..|schedule| - 1]), schedule[|schedule| - 1])
  }

  function StepsOf(schedule: seq<Event>, i: nat): nat
    decreases |schedule|
  {
    if schedule == [] then 0
    else StepsOf(schedule[..|schedule| - 1], i) + if schedule[|schedule| - 1] == Stitch(i) then 1 else 0
  }

  predicate DistinctIds(nodes: seq<Node>) {
    forall i, j | 0 <= i < j < |nodes| :: nodes[i].id != nodes[j].id
  }

  /** The part of the store that belongs to one node. */
  function Own(id: Uuid, store: Store): Store {
    map s | s in store && OwnedBy(id, s) :: store[s]
  }

  lemma OwnPut(id: Uuid, store: Store, slot: string, content: string)
    ensures Own(id, store[slot := content]) ==
      if OwnedBy(id, slot) then Own(id, store)[slot := content] else Own(id, store)
  {
  }

  lemma StepSeesOnlyItsOwn(node: Node, l: Local, a: Store, b: Store)
    requires WellPlaced(node, l) && Own(node.id, a) == Own(node.id, b)
    ensures Step(node, l, a).0 == Step(node, l, b).0
    ensures Own(node.id, Step(node, l, a).1) == Own(node.id, Step(node, l, b).1)
  {
    match l
    case Saving(next) =>
      if next < |node.partials| {
        OwnPut(node.id, a, PageSlot(node, next), node.partials[next]);
        OwnPut(node.id, b, PageSlot(node, next), node.partials[next]);
      }
    case Reading(start, next, texts, running) =>
      var slot := PageSlot(node, next);
      assert OwnedBy(node.id, slot);
      assert slot in a <==> slot in Own(node.id, a);
      assert slot in b <==> slot in Own(node.id, b);
    case Recording(end, folded) =>
      OwnPut(node.id, a, SummarySlot(node), folded);
      OwnPut(node.id, b, SummarySlot(node), folded);
    case Finished(_) =>
  }

  lemma StepWritesOnlyItsOwn(node: Node, l: Local, store: Store, slot: string)
    requires WellPlaced(node, l) && !OwnedBy(node.id, slot)
    ensures slot in Step(node, l, store).1 <==> slot in store
    ensures slot in store ==> Step(node, l, store).1[slot] == store[slot]
  {
    if l.Saving? {
      assert OwnedBy(node.id, PageSlot(node, l.next));
    }
    assert OwnedBy(node.id, SummarySlot(node));
  }

  lemma OthersLeaveOwn(nodes: seq<Node>, w: World, e: Event, i: nat)
    requires DistinctIds(nodes) && i < |nodes| && WellFormed(nodes, w) && Possible(nodes, e) && e != Stitch(i)
    ensures Apply(nodes, w, e).locals[i] == w.locals[i]
    ensures Own(nodes[i].id, Apply(nodes, w, e).store) == Own(nodes[i].id, w.store)
  {
    var after := Apply(nodes, w, e).store;
    forall s | OwnedBy(nodes[i].id, s)
      ensures s in after <==> s in w.store
      ensures s in w.store ==> after[s] == w.store[s]
    {
      OwnedIsAccum(nodes[i].id, s);
      if e.Stitch? {
        if OwnedBy(nodes[e.which].id, s) { OwnersAgree(nodes[i].id, nodes[e.which].id, s); }
        StepWritesOnlyItsOwn(nodes[e.which], w.locals[e.which], w.store, s);
      }
    }
  }

  /** Non-interference: under every schedule each stitch stands exactly where it
      would stand after as many steps alone, and so do its pages. */
  lemma {:induction false} StitchesDoNotInterfere(nodes: seq<Node>, store: Store, schedule: seq<Event>, i: nat)
    requires DistinctIds(nodes) && i < |nodes|
    requires forall k | 0 <= k < |schedule| :: Possible(nodes, schedule[k])
    ensures After(nodes, store, schedule).locals[i] == Alone(nodes[i], store, StepsOf(schedule, i)).0
    ensures Own(nodes[i].id, After(nodes, store, schedule).store) ==
      Own(nodes[i].id, Alone(nodes[i], store, StepsOf(schedule, i)).1)
    decreases |schedule|
  {
    if schedule != [] {
      var e := schedule[|schedule| - 1];
      var earlier := schedule[..|schedule| - 1];
      StitchesDoNotInterfere(nodes, store, earlier, i);
      var w := After(nodes, store, earlier);
      var mine := Alone(nodes[i], store, StepsOf(earlier, i));
      if e == Stitch(i) {
        StepSeesOnlyItsOwn(nodes[i], w.locals[i], w.store, mine.1);
      } else {
        OthersLeaveOwn(nodes, w, e, i);
      }
    }
  }

  /** What is true of a stitch run alone, at every point. */
  ghost predicate OnCourse(node: Node, l: Local, store: Store) {
    && WellPlaced(node, l)
    && (forall i | 0 <= i < (if l.Saving? then l.next else |node.partials|) ::
          l.Finished? || (PageSlot(node, i) in store && store[PageSlot(node, i)] == node.partials[i]))
    && match l
       case Saving(_) => true
       case Reading(start, next, texts, running) =>
         texts == Pages(node, start, next) && FoldFrom(node, start, running) == StitchAnswer(node)
       case Recording(end, folded) => FoldFrom(node, end, Some(folded)) == StitchAnswer(node)
       case Finished(reply) => reply == StitchAnswer(node)
  }

  lemma PageSlotsDistinct(node: Node, i: nat, j: nat)
    ensures PageSlot(node, i) == PageSlot(node, j) <==> i == j
    ensures PageSlot(node, i) != SummarySlot(node)
  {
    AccumSlotInjective(node.id, Decimal(i), node.id, Decimal(j));
    AccumSlotInjective(node.id, Decimal(i), node.id, "summary");
    if Decimal(i) == Decimal(j) { DecimalInjective(i, j); }
    DecimalIsNotSummary(i);
  }

  lemma SavingStaysOnCourse(node: Node, l: Local, store: Store)
    requires l.Saving? && OnCourse(node, l, store)
    ensures OnCourse(node, Step(node, l, store).0, Step(node, l, store).1)
  {
    forall i | 0 <= i < |node.partials| ensures PageSlot(node, i) == PageSlot(node, l.next) <==> i == l.next {
      PageSlotsDistinct(node, i, l.next);
    }
  }

  lemma ReadingAPageStaysOnCourse(node: Node, l: Local, store: Store)
    requires l.Reading? && OnCourse(node, l, store) && l.next < WindowEnd(node, l.start)
    ensures OnCourse(node, Step(node, l, store).0, Step(node, l, store).1)
  {
    PagesAppend(node, l.start, l.next);
    assert PageSlot(node, l.next) in store && store[PageSlot(node, l.next)] == node.partials[l.next];
  }

  lemma ReducingStaysOnCourse(node: Node, l: Local, store: Store)
    requires l.Reading? && OnCourse(node, l, store) && l.next == WindowEnd(node, l.start)
    ensures OnCourse(node, Step(node, l, store).0, Step(node, l, store).1)
  {
  }

  lemma ReadingStaysOnCourse(node: Node, l: Local, store: Store)
    requires l.Reading? && OnCourse(node, l, store)
    ensures OnCourse(node, Step(node, l, store).0, Step(node, l, store).1)
  {
    if l.next < WindowEnd(node, l.start) {
      ReadingAPageStaysOnCourse(node, l, store);
    } else {
      ReducingStaysOnCourse(node, l, store);
    }
  }

  lemma RecordingStaysOnCourse(node: Node, l: Local, store: Store)
    requires l.Recording? && OnCourse(node, l, store)
    ensures OnCourse(node, Step(node, l, store).0, Step(node, l, store).1)
  {
    forall i | 0 <= i < |node.partials| ensures PageSlot(node, i) != SummarySlot(node) {
      PageSlotsDistinct(node, i, i);
    }
  }

  lemma StepStaysOnCourse(node: Node, l: Local, store: Store)
    requires OnCourse(node, l, store)
    ensures OnCourse(node, Step(node, l, store).0, Step(node, l, store).1)
  {
    match l
    case Saving(_) => SavingStaysOnCourse(node, l, store);
    case Reading(_, _, _, _) => ReadingStaysOnCourse(node, l, store);
    case Recording(_, _) => RecordingStaysOnCourse(node, l, store);
    case Finished(_) =>
  }

  lemma {:induction false} AloneStaysOnCourse(node: Node, store: Store, steps: nat)
    ensures OnCourse(node, Alone(node, store, steps).0, Alone(node, store, steps).1)
  {
    if steps > 0 {
      AloneStaysOnCourse(node, store, steps - 1);
      var before := Alone(node, store, steps - 1);
      StepStaysOnCourse(node, before.0, before.1);
    }
  }

  /** In every interleaving, a stitch that finishes returns its pure fold. */
  lemma InterleavedStitchIsPureFold(nodes: seq<Node>, store: Store, schedule: seq<Event>, i: nat)
    requires DistinctIds(nodes) && i < |nodes|
    requires forall k | 0 <= k < |schedule| :: Possible(nodes, schedule[k])
    ensures var l := After(nodes, store, schedule).locals[i]; l.Finished? ==> l.reply == StitchAnswer(nodes[i])
  {
    StitchesDoNotInterfere(nodes, store, schedule, i);
    AloneStaysOnCourse(nodes[i], store, StepsOf(schedule, i));
  }

  /** What a stitch has left in the store: the partials saved so far, the running
      summary while it reads, and the answer as summary once it has one. */
  ghost predicate LeftBehind(node: Node, l: Local, store: Store) {
    && WellPlaced(node, l)
    && HoldsPages(node, if l.Saving? then l.next else |node.partials|, store)
    && (l.Reading? && l.running.Some? ==> SummaryIs(node, store, l.running.value))
    && (l.Finished? && l.reply.Answer? && node.partials != [] ==> SummaryIs(node, store, l.reply.text))
  }

  lemma StepLeavesBehind(node: Node, l: Local, store: Store)
    requires LeftBehind(node, l, store)
    ensures LeftBehind(node, Step(node, l, store).0, Step(node, l, store).1)
  {
    match l
    case Saving(next) => if next < |node.partials| { SavedOneMore(node, next, store); }
    case Reading(_, _, _, _) =>
    case Recording(_, folded) => SavedSummary(node, store, folded);
    case Finished(_) =>
  }

  lemma {:induction false} AloneLeavesBehind(node: Node, store: Store, steps: nat)
    ensures LeftBehind(node, Alone(node, store, steps).0, Alone(node, store, steps).1)
  {
    if steps > 0 {
      var before := Alone(node, store, steps - 1);
      AloneLeavesBehind(node, store, steps - 1);
      StepLeavesBehind(node, before.0, before.1);
    }
  }

  lemma OwnHolds(node: Node, a: Store, b: Store, slot: string)
    requires Own(node.id, a) == Own(node.id, b) && OwnedBy(node.id, slot) && slot in a
    ensures slot in b && b[slot] == a[slot]
  {
    assert slot in Own(node.id, a);
    assert slot in Own(node.id, b) && Own(node.id, b)[slot] == Own(node.id, a)[slot];
  }

  /** In every interleaving, a stitch that finishes has each of its partials in the
      store, and its answer as the summary. */
  lemma InterleavedStitchLeavesPages(nodes: seq<Node>, store: Store, schedule: seq<Event>, i: nat)
    requires DistinctIds(nodes) && i < |nodes|
    requires forall k | 0 <= k < |schedule| :: Possible(nodes, schedule[k])
    ensures var w, node := After(nodes, store, schedule), nodes[i];
      w.locals[i].Finished? ==>
        && HoldsPages(node, |node.partials|, w.store)
        && (node.partials != [] && w.locals[i].reply.Answer? ==> SummaryIs(node, w.store, w.locals[i].reply.text))
  {
    var w, node := After(nodes, store, schedule), nodes[i];
    var alone := Alone(node, store, StepsOf(schedule, i));
    StitchesDoNotInterfere(nodes, store, schedule, i);
    AloneLeavesBehind(node, store, StepsOf(schedule, i));
    if w.locals[i].Finished? {
      forall k | 0 <= k < |node.partials|
        ensures PageSlot(node, k) in w.store && w.store[PageSlot(node, k)] == node.partials[k]
      {
        OwnHolds(node, alone.1, w.store, PageSlot(node, k));
      }
      if node.partials != [] && w.locals[i].reply.Answer? {
        OwnHolds(node, alone.1, w.store, SummarySlot(node));
      }
    }
  }

  function Work(node: Node, l: Local): nat
    requires WellPlaced(node, l)
  {
    var n := |node.partials|;
    match l
    case Saving(next) => 1 + (n - next) + 3 * n
    case Reading(start, next, _, _) => 2 + (WindowEnd(node, start) - next) + 3 * (n - WindowEnd(node, start))
    case Recording(end, _) => 1 + 3 * (n - end)
    case Finished(_) => 0
  }

  lemma WorkFalls(node: Node, l: Local, store: Store)
    requires WellPlaced(node, l) && !l.Finished?
    ensures var next := Step(node, l, store).0; next.Finished? || Work(node, next) < Work(node, l)
  {
  }

  lemma {:induction false} AloneFinishes(node: Node, store: Store, steps: nat)
    ensures var l := Alone(node, store, steps).0; l.Finished? || Work(node, l) + steps <= 1 + 4 * |node.partials|
  {
    if steps > 0 {
      var before := Alone(node, store, steps - 1);
      AloneFinishes(node, store, steps - 1);
      if !before.0.Finished? { WorkFalls(node, before.0, before.1); }
    }
  }

  /** A stitch that gets enough steps finishes, whatever the others do. */
  lemma InterleavedStitchFinishes(nodes: seq<Node>, store: Store, schedule: seq<Event>, i: nat)
    requires DistinctIds(nodes) && i < |nodes|
    requires forall k | 0 <= k < |schedule| :: Possible(nodes, schedule[k])
    requires StepsOf(schedule, i) > 1 + 4 * |nodes[i].partials|
    ensures After(nodes, store, schedule).locals[i] == Finished(StitchAnswer(nodes[i]))
  {
    StitchesDoNotInterfere(nodes, store, schedule, i);
    AloneFinishes(nodes[i], store, StepsOf(schedule, i));
    InterleavedStitchIsPureFold(nodes, store, schedule, i);
  }

  /** Stitches never change a page outside the accumulator namespace. */
  lemma {:induction false} StitchesKeepSources(nodes: seq<Node>, store: Store, schedule: seq<Event>)
    requires forall k | 0 <= k < |schedule| :: schedule[k].Stitch? && Possible(nodes, schedule[k])
    ensures SameSources(store, After(nodes, store, schedule).store)
    decreases |schedule|
  {
    if schedule != [] {
      var earlier := schedule[..|schedule| - 1];
      StitchesKeepSources(nodes, store, earlier);
      var w := After(nodes, store, earlier);
      var i := schedule[|schedule| - 1].which;
      forall s | !IsAccumSlot(s)
        ensures s in Apply(nodes, w, Stitch(i)).store <==> s in w.store
        ensures s in w.store ==> Apply(nodes, w, Stitch(i)).store[s] == w.store[s]
      {
        if OwnedBy(nodes[i].id, s) { OwnedIsAccum(nodes[i].id, s); }
        StepWritesOnlyItsOwn(nodes[i], w.locals[i], w.store, s);
      }
    }
  }

  /** Re-decomposing the store lists the same snippets before and after any
      number of concurrent stitch steps. */
  lemma StitchesLeaveSnippets(
    nodes: seq<Node>, store: Store, schedule: seq<Event>, before: seq<string>, after: seq<string>, max: nat)
    requires forall k | 0 <= k < |schedule| :: schedule[k].Stitch? && Possible(nodes, schedule[k])
    requires IsListing(store, before) && IsListing(After(nodes, store, schedule).store, after)
    ensures var end := After(nodes, store, schedule).store;
      Snippets(store, Take(SourceSlots(store, before), max)) == Snippets(end, Take(SourceSlots(end, after), max))
  {
    StitchesKeepSources(nodes, store, schedule);
    SnippetsIgnoreAccumulators(store, before, After(nodes, store, schedule).store, after, max);
  }

  // ---------------------------------------------------- the stitch as written

  datatype StepKind = PutStep | GetStep | StitchStep

  /** A trajectory step without its ordinal and latency. */
  datatype Entry = Entry(kind: StepKind, depth: nat, tokens: nat, success: bool)

  datatype Record = Record(ord: int, entry: Entry)

  function EstTokens(text: string): nat { |text| / 4 }

  class Tape {
    var pages: Store

    constructor ()
      ensures pages == map[]
    {
      pages := map[];
    }
  }

  /** The steps recorded so far, numbered from zero without gaps. */
  class Trajectory {
    var steps: seq<Record>
    var ord: int

    ghost predicate Valid()
      reads this
    {
      ord == |steps| && forall i | 0 <= i < |steps| :: steps[i].ord == i
    }

    ghost function Log(): seq<Entry>
      reads this
    {
      seq(|steps|, i requires 0 <= i < |steps| reads this => steps[i].entry)
    }

    constructor ()
      ensures Valid() && Log() == []
    {
      steps, ord := [], 0;
    }

    method PushStep(entry: Entry)
      requires Valid()
      modifies this
      ensures Valid() && Log() == old(Log()) + [entry]
      ensures steps == old(steps) + [Record(|old(steps)|, entry)]
    {
      steps := steps + [Record(ord, entry)];
      ord := ord + 1;
    }
  }

  function PutEntry(node: Node, text: string): Entry { Entry(PutStep, node.depth, EstTokens(text), true) }
  function GetEntry(node: Node, text: string): Entry { Entry(GetStep, node.depth, EstTokens(text), true) }
  function StitchEntry(node: Node, text: string): Entry { Entry(StitchStep, node.depth, EstTokens(text), true) }

  method StorePutStep(tape: Tape, trace: Trajectory, node: Node, key: string, content: string)
    returns (slot: string)
    requires trace.Valid()
    modifies tape, trace
    ensures slot == AccumSlot(node.id, key)
    ensures tape.pages == old(tape.pages)[slot := content]
    ensures trace.Valid() && trace.Log() == old(trace.Log()) + [PutEntry(node, content)]
    ensures trace.Log()[|old(trace.Log())|] == Entry(PutStep, node.depth, |content| / 4, true)
  {
    slot := AccumSlot(node.id, key);
    tape.pages := tape.pages[slot := content];
    trace.PushStep(PutEntry(node, content));
  }

  method StoreGetStep(tape: Tape, trace: Trajectory, node: Node, slot: string) returns (content: Option<string>)
    requires trace.Valid()
    modifies trace
    ensures content == if slot in tape.pages then Some(tape.pages[slot]) else None
    ensures trace.Valid()
    ensures trace.Log() == old(trace.Log()) +
      [if content.Some? then GetEntry(node, content.value) else Entry(GetStep, node.depth, 0, false)]
    ensures content.Some? ==>
      trace.Log()[|old(trace.Log())|] == Entry(GetStep, node.depth, |content.value| / 4, true)
  {
    content := if slot in tape.pages then Some(tape.pages[slot]) else None;
    trace.PushStep(if content.Some? then GetEntry(node, content.value) else Entry(GetStep, node.depth, 0, false));
  }

  function Puts(node: Node, n: nat): seq<Entry>
    requires n <= |node.partials|
  {
    seq(n, i requires 0 <= i < n => PutEntry(node, node.partials[i]))
  }

  function Gets(node: Node, from: nat, to: nat): seq<Entry>
    requires from <= to <= |node.partials|
  {
    seq(to - from, i requires 0 <= i < to - from => GetEntry(node, node.partials[from + i]))
  }

  function ReduceWindow(node: Node, start: nat, running: Option<string>): Reply
    requires start < |node.partials|
  {
    node.reduce(Fold(node.query, running, Pages(node, start, WindowEnd(node, start))))
  }

  function FoldPair(node: Node, text: string): seq<Entry> {
    [StitchEntry(node, text), PutEntry(node, text)]
  }

  function WindowEntries(node: Node, start: nat, reply: Reply): seq<Entry>
    requires start < |node.partials|
  {
    Gets(node, start, WindowEnd(node, start)) + if reply.Answer? then FoldPair(node, reply.text) else []
  }

  function FoldEntries(node: Node, start: nat, running: Option<string>): seq<Entry>
    requires start <= |node.partials|
    decreases |node.partials| - start
  {
    if start == |node.partials| then []
    else
      var reply := ReduceWindow(node, start, running);
      WindowEntries(node, start, reply) +
        if reply.Answer? then FoldEntries(node, WindowEnd(node, start), Some(reply.text)) else []
  }

  function AllFoldEntries(node: Node): seq<Entry> { FoldEntries(node, 0, None) }

  /** Every step a stitch records, in order. */
  function StitchEntries(node: Node): seq<Entry> {
    if node.partials == [] then
      match node.reduce(NothingFound(node.query))
      case Refused => []
      case Answer(text) => [StitchEntry(node, text)]
    else
      Puts(node, |node.partials|) + AllFoldEntries(node)
  }

  ghost predicate HoldsPages(node: Node, n: nat, pages: Store)
    requires n <= |node.partials|
  {
    forall i | 0 <= i < n :: PageSlot(node, i) in pages && pages[PageSlot(node, i)] == node.partials[i]
  }

  /** The part of the store that does not belong to a node. */
  function Outside(id: Uuid, store: Store): Store {
    map s | s in store && !OwnedBy(id, s) :: store[s]
  }

  lemma OutsidePut(node: Node, store: Store, key: string, content: string)
    ensures Outside(node.id, store[AccumSlot(node.id, key) := content]) == Outside(node.id, store)
  {
    assert OwnedBy(node.id, AccumSlot(node.id, key));
  }

  lemma SavedOneMore(node: Node, n: nat, pages: Store)
    requires n < |node.partials| && HoldsPages(node, n, pages)
    ensures var pages' := pages[PageSlot(node, n) := node.partials[n]];
      HoldsPages(node, n + 1, pages') && Outside(node.id, pages') == Outside(node.id, pages)
  {
    forall k | 0 <= k < n ensures PageSlot(node, k) != PageSlot(node, n) { PageSlotsDistinct(node, k, n); }
    OutsidePut(node, pages, Decimal(n), node.partials[n]);
  }

  lemma SavedSummary(node: Node, pages: Store, folded: string)
    requires HoldsPages(node, |node.partials|, pages)
    ensures var pages' := pages[SummarySlot(node) := folded];
      HoldsPages(node, |node.partials|, pages') && Outside(node.id, pages') == Outside(node.id, pages)
  {
    forall i | 0 <= i < |node.partials| ensures PageSlot(node, i) != SummarySlot(node) {
      PageSlotsDistinct(node, i, i);
    }
    OutsidePut(node, pages, "summary", folded);
  }

  ghost predicate SummaryIs(node: Node, pages: Store, text: string) {
    SummarySlot(node) in pages && pages[SummarySlot(node)] == text
  }

  lemma PutsSnoc(node: Node, n: nat)
    requires n < |node.partials|
    ensures Puts(node, n + 1) == Puts(node, n) + [PutEntry(node, node.partials[n])]
  {
  }

  lemma GetsSnoc(node: Node, from: nat, to: nat)
    requires from <= to < |node.partials|
    ensures Gets(node, from, to + 1) == Gets(node, from, to) + [GetEntry(node, node.partials[to])]
  {
  }

  /** Phase one: every partial answer becomes a page of its own. */
  method SavePartials(tape: Tape, trace: Trajectory, node: Node) returns (slots: seq<string>)
    requires trace.Valid()
    modifies tape, trace
    ensures IsSlots(node, slots)
    ensures HoldsPages(node, |node.partials|, tape.pages)
    ensures Outside(node.id, tape.pages) == Outside(node.id, old(tape.pages))
    ensures trace.Valid() && trace.Log() == old(trace.Log()) + Puts(node, |node.partials|)
  {
    slots := [];
    for i := 0 to |node.partials|
      invariant |slots| == i && forall k | 0 <= k < i :: slots[k] == PageSlot(node, k)
      invariant HoldsPages(node, i, tape.pages)
      invariant Outside(node.id, tape.pages) == Outside(node.id, old(tape.pages))
      invariant trace.Valid() && trace.Log() == old(trace.Log()) + Puts(node, i)
    {
      SavedOneMore(node, i, tape.pages);
      var slot := StorePutStep(tape, trace, node, Decimal(i), node.partials[i]);
      slots := slots + [slot];
      PutsSnoc(node, i);
      LogAssociates(old(trace.Log()), Puts(node, i), [PutEntry(node, node.partials[i])]);
    }
  }

  ghost predicate IsSlots(node: Node, slots: seq<string>) {
    |slots| == |node.partials| && forall i | 0 <= i < |slots| :: slots[i] == PageSlot(node, i)
  }

  lemma PagesAppend(node: Node, from: nat, to: nat)
    requires from <= to < |node.partials|
    ensures Pages(node, from, to + 1) == Pages(node, from, to) + [Page(PageSlot(node, to), node.partials[to])]
  {
  }

  /** One window's pages read back from the store. */
  method ReadWindow(tape: Tape, trace: Trajectory, node: Node, slots: seq<string>, start: nat, end: nat)
    returns (texts: seq<Page>)
    requires start <= end <= |node.partials| && IsSlots(node, slots) && trace.Valid()
    requires HoldsPages(node, |node.partials|, tape.pages)
    modifies trace
    ensures texts == Pages(node, start, end) && |texts| == end - start
    ensures forall k | 0 <= k < |texts| ::
      texts[k].slot == slots[start + k] && texts[k].text == node.partials[start + k]
    ensures trace.Valid() && trace.Log() == old(trace.Log()) + Gets(node, start, end)
  {
    texts := [];
    for i := start to end
      invariant texts == Pages(node, start, i)
      invariant trace.Valid() && trace.Log() == old(trace.Log()) + Gets(node, start, i)
    {
      var content := StoreGetStep(tape, trace, node, slots[i]);
      if content.Some? {
        texts := texts + [Page(slots[i], content.value)];
      }
      PagesAppend(node, start, i);
      GetsSnoc(node, start, i);
      LogAssociates(old(trace.Log()), Gets(node, start, i), [GetEntry(node, node.partials[i])]);
    }
  }

  /** A reduce reply is recorded and becomes the rolling summary page. */
  method RecordFold(tape: Tape, trace: Trajectory, node: Node, folded: string)
    requires HoldsPages(node, |node.partials|, tape.pages) && trace.Valid()
    modifies tape, trace
    ensures SummaryIs(node, tape.pages, folded)
    ensures HoldsPages(node, |node.partials|, tape.pages)
    ensures Outside(node.id, tape.pages) == Outside(node.id, old(tape.pages))
    ensures trace.Valid() && trace.Log() == old(trace.Log()) + FoldPair(node, folded)
    ensures trace.Log()[|old(trace.Log())|] == Entry(StitchStep, node.depth, |folded| / 4, true)
  {
    trace.PushStep(StitchEntry(node, folded));
    SavedSummary(node, tape.pages, folded);
    var _ := StorePutStep(tape, trace, node, "summary", folded);
  }

  /** One window: read its pages, reduce them with the running summary, write the
      new summary back. */
  method FoldWindow(
    tape: Tape, trace: Trajectory, node: Node, slots: seq<string>, start: nat, running: Option<string>)
    returns (reply: Reply)
    requires start < |node.partials| && IsSlots(node, slots) && trace.Valid()
    requires HoldsPages(node, |node.partials|, tape.pages)
    modifies tape, trace
    ensures reply == ReduceWindow(node, start, running)
    ensures reply.Answer? ==> SummaryIs(node, tape.pages, reply.text)
    ensures HoldsPages(node, |node.partials|, tape.pages)
    ensures Outside(node.id, tape.pages) == Outside(node.id, old(tape.pages))
    ensures trace.Valid() && trace.Log() == old(trace.Log()) + WindowEntries(node, start, reply)
  {
    var end := WindowEnd(node, start);
    var texts := ReadWindow(tape, trace, node, slots, start, end);
    reply := node.reduce(Fold(node.query, running, texts));
    if reply.Answer? {
      RecordFold(tape, trace, node, reply.text);
    }
  }

  lemma LogAssociates(a: seq<Entry>, b: seq<Entry>, c: seq<Entry>)
    ensures a + b + c == a + (b + c)
  {
  }

  /** Phase two: the iterative fold over all windows. */
  method FoldAll(tape: Tape, trace: Trajectory, node: Node, slots: seq<string>) returns (reply: Reply)
    requires node.partials != [] && IsSlots(node, slots) && trace.Valid()
    requires HoldsPages(node, |node.partials|, tape.pages)
    modifies tape, trace
    ensures reply == FoldFrom(node, 0, None)
    ensures trace.Valid() && trace.Log() == old(trace.Log()) + AllFoldEntries(node)
    ensures Outside(node.id, tape.pages) == Outside(node.id, old(tape.pages))
    ensures HoldsPages(node, |node.partials|, tape.pages)
    ensures reply.Answer? ==> SummaryIs(node, tape.pages, reply.text)
  {
    var running: Option<string> := None;
    var start := 0;
    while start < |slots|
      invariant 0 <= start <= |slots| && (start > 0 ==> running.Some?)
      invariant FoldFrom(node, start, running) == FoldFrom(node, 0, None)
      invariant trace.Valid()
      invariant trace.Log() + FoldEntries(node, start, running) == old(trace.Log()) + AllFoldEntries(node)
      invariant HoldsPages(node, |node.partials|, tape.pages)
      invariant Outside(node.id, tape.pages) == Outside(node.id, old(tape.pages))
      invariant start > 0 ==> SummaryIs(node, tape.pages, running.value)
    {
      ghost var before := trace.Log();
      reply := FoldWindow(tape, trace, node, slots, start, running);
      if reply.Refused? {
        assert FoldEntries(node, start, running) == WindowEntries(node, start, reply);
        return;
      }
      LogAssociates(before, WindowEntries(node, start, reply),
                    FoldEntries(node, WindowEnd(node, start), Some(reply.text)));
      running := Some(reply.text);
      start := WindowEnd(node, start);
    }
    reply := Answer(running.value);
  }

  /** The whole stitch: it returns the pure fold, records exactly its entries with
      contiguous ordinals, and touches only its own pages. */
  method AccumulateInStoreStitch(tape: Tape, trace: Trajectory, node: Node) returns (reply: Reply)
    requires trace.Valid()
    modifies tape, trace
    ensures reply == StitchAnswer(node)
    ensures node.partials == [] ==> reply == node.reduce(NothingFound(node.query))
    ensures trace.Valid() && trace.Log() == old(trace.Log()) + StitchEntries(node)
    ensures Outside(node.id, tape.pages) == Outside(node.id, old(tape.pages))
    ensures HoldsPages(node, |node.partials|, tape.pages)
    ensures node.partials != [] && reply.Answer? ==> SummaryIs(node, tape.pages, reply.text)
  {
    var slots := SavePartials(tape, trace, node);
    if slots == [] {
      reply := node.reduce(NothingFound(node.query));
      if reply.Answer? {
        trace.PushStep(StitchEntry(node, reply.text));
      }
    } else {
      reply := FoldAll(tape, trace, node, slots);
    }
  }

  function Count(entries: seq<Entry>, kind: StepKind): nat {
    if entries == [] then 0 else (if entries[0].kind == kind then 1 else 0) + Count(entries[1..], kind)
  }

  lemma {:induction false} CountConcat(a: seq<Entry>, b: seq<Entry>, kind: StepKind)
    ensures Count(a + b, kind) == Count(a, kind) + Count(b, kind)
  {
    if a == [] {
      assert a + b == b;
    } else {
      assert (a + b)[1..] == a[1..] + b;
      CountConcat(a[1..], b, kind);
    }
  }

  lemma {:induction false} CountUniform(entries: seq<Entry>, kind: StepKind, other: StepKind)
    requires forall i | 0 <= i < |entries| :: entries[i].kind == kind
    ensures Count(entries, other) == if kind == other then |entries| else 0
  {
    if entries != [] { CountUniform(entries[1..], kind, other); }
  }

  lemma {:induction false} FoldCounts(node: Node, start: nat, running: Option<string>)
    requires start <= |node.partials| && (start == |node.partials| ==> running.Some?)
    requires FoldFrom(node, start, running).Answer?
    ensures var e, left := FoldEntries(node, start, running), |node.partials| - start;
      Count(e, GetStep) == left && Count(e, StitchStep) == Count(e, PutStep) == (left + 3) / 4
    decreases |node.partials| - start
  {
    if start < |node.partials| {
      var end := WindowEnd(node, start);
      var text := ReduceWindow(node, start, running).text;
      FoldCounts(node, end, Some(text));
      forall kind: StepKind
        ensures Count(FoldEntries(node, start, running), kind) ==
          (if kind == GetStep then end - start else 1) + Count(FoldEntries(node, end, Some(text)), kind)
      {
        CountConcat(WindowEntries(node, start, Answer(text)), FoldEntries(node, end, Some(text)), kind);
        CountConcat(Gets(node, start, end), FoldPair(node, text), kind);
        CountGets(node, start, end, kind);
        CountPair(node, text, kind);
      }
    }
  }

  lemma CountGets(node: Node, from: nat, to: nat, kind: StepKind)
    requires from <= to <= |node.partials|
    ensures Count(Gets(node, from, to), kind) == if kind == GetStep then to - from else 0
  {
    var gets := Gets(node, from, to);
    forall i | 0 <= i < |gets| ensures gets[i].kind == GetStep {
      assert gets[i] == GetEntry(node, node.partials[from + i]);
    }
    CountUniform(gets, GetStep, kind);
  }

  lemma CountPair(node: Node, text: string, kind: StepKind)
    ensures Count(FoldPair(node, text), kind) == if kind == GetStep then 0 else 1
  {
    var pair := FoldPair(node, text);
    assert pair[1..] == [pair[1]];
    assert Count(pair[1..], kind) == (if pair[1].kind == kind then 1 else 0) + Count(pair[1..][1..], kind);
  }

  /** The store traffic of a successful stitch over n > 0 partial answers. */
  lemma StitchCounts(node: Node)
    requires node.partials != [] && StitchAnswer(node).Answer?
    ensures var e, n := StitchEntries(node), |node.partials|;
      && Count(e, PutStep) == n + (n + 3) / 4
      && Count(e, GetStep) == n
      && Count(e, StitchStep) == (n + 3) / 4
  {
    FoldCounts(node, 0, None);
    var puts := Puts(node, |node.partials|);
    forall kind: StepKind
      ensures Count(StitchEntries(node), kind) == Count(puts, kind) + Count(AllFoldEntries(node), kind)
      ensures Count(puts, kind) == if kind == PutStep then |node.partials| else 0
    {
      CountConcat(puts, AllFoldEntries(node), kind);
      CountUniform(puts, PutStep, kind);
    }
  }
}
