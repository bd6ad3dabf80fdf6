/** The recursion frame of a recursive-language-model run: how depth and budget
    are handed down a tree of sub-calls, and what that bounds over whole trees. */
module RlmFrames {

  const U32_MAX: nat := 0xFFFF_FFFF
  const MAX_RLM_DEPTH: nat := 4
  const MAX_RLM_BUDGET: nat := 256
  const MAX_SNIPPETS: nat := 64

  type U32 = n: nat | n <= U32_MAX

  function Min(a: int, b: int): int { if a <= b then a else b }
  function Max(a: int, b: int): int { if a <= b then b else a }
  function Clamp(x: int, lo: int, hi: int): int { Min(Max(x, lo), hi) }
  function SaturatingSub(a: nat, b: nat): nat { if a <= b then 0 else a - b }

  /** The fields of a frame that the recursion depends on. */
  datatype Frame = Frame(depth: U32, depthRemaining: U32, budget: U32, maxChunks: nat)

  function NewRoot(maxDepth: U32, budget: U32, maxChunks: nat): Frame {
    Frame(1, Clamp(maxDepth, 1, MAX_RLM_DEPTH) - 1, Clamp(budget, 1, MAX_RLM_BUDGET), maxChunks)
  }

  /** Adopting an inbound frame, however it was built. */
  function Entered(f: Frame): Frame {
    f.(depthRemaining := Min(f.depthRemaining, SaturatingSub(MAX_RLM_DEPTH, f.depth)),
       budget := Min(f.budget, MAX_RLM_BUDGET))
  }

  /** The dispatcher's gate: an exhausted frame is answered as a leaf. */
  predicate Exhausted(f: Frame) {
    f.depthRemaining == 0 || f.budget == 0
  }

  predicate CanRecurse(f: Frame, snippets: nat) {
    f.depthRemaining > 0 && f.budget > 2 * snippets
  }

  /** The slice of a budget that each of `n` children receives. */
  function Share(budget: nat, n: nat): (share: nat)
    ensures share <= budget
  {
    QuotientAtMost(SaturatingSub(budget, n), Max(n, 1));
    SaturatingSub(budget, n) / Max(n, 1)
  }

  lemma QuotientAtMost(x: nat, m: nat)
    requires m >= 1
    ensures 0 <= x / m <= x
  {
    assert x == m * (x / m) + x % m;
    MulAtLeast(m, x / m);
  }

  function PerChild(f: Frame, snippets: nat): U32 {
    Share(f.budget, snippets)
  }

  /** What a run may start from: a root, or an inbound frame after entry. */
  predicate Admitted(f: Frame) {
    && (f.depth + f.depthRemaining <= MAX_RLM_DEPTH || f.depthRemaining == 0)
    && f.budget <= MAX_RLM_BUDGET
  }

  function Child(f: Frame, perChild: U32): Frame
    requires f.depth < U32_MAX
  {
    Frame(f.depth + 1, SaturatingSub(f.depthRemaining, 1), perChild, f.maxChunks)
  }

  // ------------------------------------------------------------- termination

  /** Every frame that starts a run is admitted, a run that recurses can never
      overflow the depth counter, and its child is admitted again. */
  lemma EntryAdmits(f: Frame, maxDepth: U32, budget: U32, maxChunks: nat)
    ensures Admitted(NewRoot(maxDepth, budget, maxChunks))
    ensures 1 <= NewRoot(maxDepth, budget, maxChunks).budget <= MAX_RLM_BUDGET
    ensures Admitted(Entered(f))
    ensures Exhausted(f) || f.depth >= MAX_RLM_DEPTH ==> Exhausted(Entered(f))
    ensures !Exhausted(f) ==> Entered(f).budget >= 1
  {
  }

  /** A root has what its caller asked for, as far as the caps allow. */
  lemma RootKeepsRequest(maxDepth: U32, budget: U32, maxChunks: nat)
    ensures var f := NewRoot(maxDepth, budget, maxChunks);
      && f.depth == 1 && f.maxChunks == maxChunks
      && (1 <= budget <= 256 ==> f.budget == budget)
      && (budget > 256 ==> f.budget == 256) && (budget == 0 ==> f.budget == 1)
      && (1 <= maxDepth <= 4 ==> f.depthRemaining == maxDepth - 1)
      && (maxDepth > 4 ==> f.depthRemaining == 3) && (maxDepth == 0 ==> f.depthRemaining == 0)
  {
  }

  /** An adopted frame keeps its fields, except where a cap cuts depth or budget. */
  lemma EntryKeepsFields(f: Frame)
    ensures Entered(f).depth == f.depth && Entered(f).maxChunks == f.maxChunks
    ensures f.budget <= 256 ==> Entered(f).budget == f.budget
    ensures f.budget > 256 ==> Entered(f).budget == 256
    ensures f.depth + f.depthRemaining <= 4 ==> Entered(f).depthRemaining == f.depthRemaining
    ensures f.depth + f.depthRemaining > 4 ==>
      Entered(f).depthRemaining == if f.depth < 4 then 4 - f.depth else 0
  {
  }

  /** One recursive hop: the parent recurses, the child passes the gate and is entered. */
  predicate Hop(parent: Frame, snippets: nat, child: Frame)
    requires Admitted(parent)
  {
    && CanRecurse(parent, snippets)
    && snippets > 0
    && var sent := Child(parent, PerChild(parent, snippets));
    && !Exhausted(sent)
    && child == Entered(sent)
  }

  /** A path of nested runs, outermost first. */
  predicate Chain(frames: seq<Frame>, snippets: seq<nat>) {
    && |frames| == |snippets| + 1
    && (forall i | 0 <= i < |frames| :: Admitted(frames[i]))
    && forall i | 0 <= i < |snippets| :: Hop(frames[i], snippets[i], frames[i + 1])
  }

  lemma HopDescends(parent: Frame, snippets: nat, child: Frame)
    requires Admitted(parent) && Hop(parent, snippets, child)
    ensures child.depth == parent.depth + 1 <= MAX_RLM_DEPTH
    ensures child.depthRemaining == parent.depthRemaining - 1 > 0
    ensures 1 <= child.budget && snippets * (child.budget + 1) <= parent.budget < snippets * (child.budget + 2)
    ensures child.maxChunks == parent.maxChunks
  {
    SharesFit(parent.budget, snippets);
  }

  /** No run nests deeper than its remaining depth, so no chain of recursive
      sub-calls is longer than the hard cap, from any inbound frame. */
  lemma {:induction false} RecursionTerminates(frames: seq<Frame>, snippets: seq<nat>)
    requires Chain(frames, snippets)
    ensures |frames| <= MAX_RLM_DEPTH
    ensures |snippets| > 0 ==> |snippets| < frames[0].depthRemaining
    decreases |frames|
  {
    if |snippets| > 0 {
      HopDescends(frames[0], snippets[0], frames[1]);
      assert forall i | 0 <= i < |snippets| - 1 :: Hop(frames[1..][i], snippets[1..][i], frames[1..][i + 1]);
      RecursionTerminates(frames[1..], snippets[1..]);
    }
  }

  // ------------------------------------------------------------------ budgets

  lemma SharesFit(budget: nat, n: nat)
    requires 0 < n && 2 * n < budget
    ensures var c := Share(budget, n); 1 <= c && n + n * c <= budget < n + n * (c + 1)
  {
    var c := Share(budget, n);
    assert budget - n == n * c + (budget - n) % n;
    assert n * (c + 1) == n * c + n;
    assert n * 0 == 0;
  }

  /** What happened in a call tree. `Leaf` is a sub-call answered without running
      the engine again; `Run` is a run that decomposed into `snippets` pieces and,
      when it recursed, the outcome of each recursive sub-call. */
  datatype Tree = Leaf | Run(snippets: nat, children: seq<Tree>)

  function SnippetCap(f: Frame): (cap: nat)
    ensures 1 <= cap <= MAX_SNIPPETS
  {
    Clamp(f.maxChunks, 1, MAX_SNIPPETS)
  }

  /** The trees the engine can produce from a run at frame `f`: at most `cap`
      snippets, recursion exactly when the code recurses, leaves where the gate
      demands them and possibly elsewhere. */
  predicate Produces(f: Frame, t: Tree, cap: nat)
    requires Admitted(f)
    decreases t
  {
    && t.Run?
    && t.snippets <= cap
    && if t.snippets > 0 && CanRecurse(f, t.snippets) then
         && |t.children| == t.snippets
         && var sent := Child(f, PerChild(f, t.snippets));
         && forall i | 0 <= i < |t.children| ::
              t.children[i].Leaf? || (!Exhausted(sent) && Produces(Entered(sent), t.children[i], cap))
       else t.children == []
  }

  /** A run with snippets recurses exactly when depth is left and its budget exceeds
      twice their number, and then into every one of them. */
  lemma RunRecursesIff(f: Frame, t: Tree, cap: nat)
    requires Admitted(f) && Produces(f, t, cap) && t.snippets > 0
    ensures |t.children| == (if f.depthRemaining > 0 && f.budget > 2 * t.snippets then t.snippets else 0)
    ensures t.snippets <= cap
    ensures forall i | 0 <= i < |t.children| && t.children[i].Run? :: f.depthRemaining > 1
  {
  }

  /** A run without children makes one call per snippet, and one when there is none. */
  lemma CallsOfOneRun(n: nat)
    ensures Subcalls(Run(n, [])) == if n == 0 then 1 else n
  {
  }

  /** The gate answers a frame as a leaf exactly if no depth or no budget is left. */
  lemma GateMeans(f: Frame)
    ensures !Exhausted(f) <==> f.depthRemaining >= 1 && f.budget >= 1
  {
  }

  /** The fan-out cap is the requested number of chunks, from 1 to 64. */
  lemma CapKeepsRequest(f: Frame)
    ensures 1 <= f.maxChunks <= 64 ==> SnippetCap(f) == f.maxChunks
    ensures f.maxChunks == 0 ==> SnippetCap(f) == 1
    ensures f.maxChunks > 64 ==> SnippetCap(f) == 64
  {
  }

  /** Sub-calls issued by a run and all runs below it; an empty decomposition
      issues one direct sub-call. */
  function Subcalls(t: Tree): nat {
    match t
    case Leaf => 0
    case Run(n, children) => Max(n, 1) + SumSubcalls(children)
  }

  function SumSubcalls(ts: seq<Tree>): nat {
    if ts == [] then 0 else Subcalls(ts[0]) + SumSubcalls(ts[1..])
  }

  /** Recursive sub-calls only: those a run sent to this engine again. */
  function RecursiveCalls(t: Tree): nat {
    match t
    case Leaf => 0
    case Run(n, children) => |children| + SumRecursive(children)
  }

  function SumRecursive(ts: seq<Tree>): nat {
    if ts == [] then 0 else RecursiveCalls(ts[0]) + SumRecursive(ts[1..])
  }

  lemma {:induction false} SumBounded(ts: seq<Tree>, bound: nat)
    requires forall i | 0 <= i < |ts| :: Subcalls(ts[i]) <= bound
    ensures SumSubcalls(ts) <= |ts| * bound
  {
    if ts != [] {
      SumBounded(ts[1..], bound);
      assert |ts| * bound == bound + (|ts| - 1) * bound;
    }
  }

  lemma {:induction false} SumRecursiveBounded(ts: seq<Tree>, bound: nat)
    requires forall i | 0 <= i < |ts| :: RecursiveCalls(ts[i]) <= bound
    ensures SumRecursive(ts) <= |ts| * bound
  {
    if ts != [] {
      SumRecursiveBounded(ts[1..], bound);
      assert |ts| * bound == bound + (|ts| - 1) * bound;
    }
  }

  /** Over every tree, recursive sub-calls never exceed the root's budget. */
  lemma {:induction false} RecursiveCallsWithinBudget(f: Frame, t: Tree, cap: nat)
    requires Admitted(f) && Produces(f, t, cap)
    ensures RecursiveCalls(t) <= f.budget
    decreases t
  {
    if t.children != [] {
      var n := t.snippets;
      SharesFit(f.budget, n);
      var share := PerChild(f, n);
      forall i | 0 <= i < n ensures RecursiveCalls(t.children[i]) <= share {
        if t.children[i].Run? {
          RecursiveCallsWithinBudget(Entered(Child(f, share)), t.children[i], cap);
        }
      }
      SumRecursiveBounded(t.children, share);
    }
  }

  lemma ChildrenWithin(budget: nat, n: nat, share: nat, children: seq<Tree>, factor: nat)
    requires |children| == n && factor >= 1 && n + n * share <= budget
    requires forall i | 0 <= i < n :: Subcalls(children[i]) <= share * factor
    ensures n + SumSubcalls(children) <= budget * factor
  {
    SumBounded(children, share * factor);
    ScaledShares(budget, n, share, factor);
  }

  lemma ScaledShares(budget: nat, n: nat, share: nat, factor: nat)
    requires factor >= 1 && n + n * share <= budget
    ensures n + n * (share * factor) <= budget * factor
  {
    calc <= {
      n + n * (share * factor);
      { MulAtLeast(factor, n); }
      n * factor + (n * share) * factor;
      (n + n * share) * factor;
      { MulMonotone(n + n * share, budget, factor); }
      budget * factor;
    }
  }

  /** Over every tree, all sub-calls together stay within (1 + cap) times the budget. */
  lemma {:induction false} SubcallsBounded(f: Frame, t: Tree, cap: nat)
    requires Admitted(f) && f.budget >= 1 && Produces(f, t, cap)
    ensures Subcalls(t) <= f.budget * (1 + cap)
    decreases t
  {
    if t.children == [] {
      MulAtLeast(f.budget, 1 + cap);
    } else {
      var n := t.snippets;
      var inner := Child(f, PerChild(f, n));
      forall i | 0 <= i < n ensures Subcalls(t.children[i]) <= inner.budget * (1 + cap) {
        if t.children[i].Run? {
          SubcallsBounded(inner, t.children[i], cap);
        }
      }
      SharesFit(f.budget, n);
      ChildrenWithin(f.budget, n, inner.budget, t.children, 1 + cap);
    }
  }

  // ------------------------------- when the whole tree stays within the budget

  /** Every run of the tree that does not recurse issues no more sub-calls than
      its own budget. */
  predicate Fits(f: Frame, t: Tree, cap: nat)
    requires Admitted(f) && Produces(f, t, cap)
    decreases t
  {
    if t.children == [] then
      Max(t.snippets, 1) <= f.budget
    else
      var inner := Child(f, PerChild(f, t.snippets));
      forall i | 0 <= i < |t.children| :: t.children[i].Run? ==> Fits(inner, t.children[i], cap)
  }

  lemma {:induction false} FittingTreeWithinBudget(f: Frame, t: Tree, cap: nat)
    requires Admitted(f) && Produces(f, t, cap) && Fits(f, t, cap)
    ensures Subcalls(t) <= f.budget
    decreases t
  {
    if t.children != [] {
      var n := t.snippets;
      var inner := Child(f, PerChild(f, n));
      forall i | 0 <= i < n ensures Subcalls(t.children[i]) <= inner.budget * 1 {
        if t.children[i].Run? {
          FittingTreeWithinBudget(inner, t.children[i], cap);
        }
      }
      SharesFit(f.budget, n);
      ChildrenWithin(f.budget, n, inner.budget, t.children, 1);
    }
  }

  /** Decided from the frame alone: no run it can lead to stops recursing with
      more snippets allowed than budget left. */
  predicate BudgetSafe(depthRemaining: nat, budget: nat, cap: nat)
    decreases depthRemaining, 1
  {
    budget >= 1 && forall n | 1 <= n <= cap :: SafeWith(depthRemaining, budget, cap, n)
  }

  predicate SafeWith(depthRemaining: nat, budget: nat, cap: nat, n: nat)
    decreases depthRemaining, 0
  {
    if depthRemaining > 0 && budget > 2 * n
    then depthRemaining == 1 || BudgetSafe(depthRemaining - 1, Share(budget, n), cap)
    else n <= budget
  }

  lemma {:induction false} SafeTreesFit(f: Frame, t: Tree, cap: nat)
    requires Admitted(f) && Produces(f, t, cap)
    requires BudgetSafe(f.depthRemaining, f.budget, cap)
    ensures Fits(f, t, cap)
    decreases t
  {
    assert t.snippets > 0 ==> SafeWith(f.depthRemaining, f.budget, cap, t.snippets);
    if t.children != [] {
      var inner := Child(f, PerChild(f, t.snippets));
      forall i | 0 <= i < |t.children| && t.children[i].Run? ensures Fits(inner, t.children[i], cap) {
        SafeTreesFit(inner, t.children[i], cap);
      }
    }
  }

  lemma {:induction false} SumRepeated(t: Tree, n: nat)
    ensures SumSubcalls(seq(n, _ => t)) == n * Subcalls(t)
  {
    if n > 0 {
      SumRepeated(t, n - 1);
      assert seq(n, _ => t)[1..] == seq(n - 1, _ => t);
      assert n * Subcalls(t) == Subcalls(t) + (n - 1) * Subcalls(t);
    }
  }

  lemma RepeatedProduces(f: Frame, n: nat, inner: Tree, cap: nat)
    requires Admitted(f) && 0 < n <= cap && CanRecurse(f, n) && f.depthRemaining > 1
    requires PerChild(f, n) >= 1 && Produces(Child(f, PerChild(f, n)), inner, cap)
    ensures Produces(f, Run(n, seq(n, _ => inner)), cap)
  {
    var sent := Child(f, PerChild(f, n));
    assert !Exhausted(sent) && Entered(sent) == sent;
  }

  lemma RepeatedSubcalls(n: nat, inner: Tree)
    requires n > 0
    ensures Subcalls(Run(n, seq(n, _ => inner))) == n + n * Subcalls(inner)
  {
    SumRepeated(inner, n);
  }

  lemma SharesOverrun(budget: nat, n: nat, share: nat, below: nat)
    requires budget < n + n * (share + 1) && share < below
    ensures budget < n + n * below
  {
    MulMonotone(share + 1, below, n);
  }

  /** If each child can overrun its share, n such children overrun the budget. */
  lemma RepeatedOverruns(f: Frame, n: nat, inner: Tree, cap: nat)
    requires Admitted(f) && 0 < n <= cap && CanRecurse(f, n) && f.depthRemaining > 1
    requires PerChild(f, n) >= 1 && Produces(Child(f, PerChild(f, n)), inner, cap)
    requires Subcalls(inner) > PerChild(f, n)
    ensures Produces(f, Run(n, seq(n, _ => inner)), cap) && Subcalls(Run(n, seq(n, _ => inner))) > f.budget
  {
    RepeatedProduces(f, n, inner, cap);
    RepeatedSubcalls(n, inner);
    SharesFit(f.budget, n);
    SharesOverrun(f.budget, n, PerChild(f, n), Subcalls(inner));
  }

  /** An unsafe frame has a tree that overruns its budget. */
  lemma {:induction false} UnsafeFrameOverruns(f: Frame, cap: nat) returns (t: Tree)
    requires Admitted(f) && f.budget >= 1
    requires !BudgetSafe(f.depthRemaining, f.budget, cap)
    ensures Produces(f, t, cap) && Subcalls(t) > f.budget
    decreases f.depthRemaining
  {
    var n :| 1 <= n <= cap && !SafeWith(f.depthRemaining, f.budget, cap, n);
    if CanRecurse(f, n) {
      SharesFit(f.budget, n);
      var inner := UnsafeFrameOverruns(Child(f, PerChild(f, n)), cap);
      RepeatedOverruns(f, n, inner, cap);
      t := Run(n, seq(n, _ => inner));
    } else {
      t := Run(n, []);
    }
  }

  ghost predicate NeverOverruns(f: Frame, cap: nat)
    requires Admitted(f)
  {
    forall t | Produces(f, t, cap) :: Subcalls(t) <= f.budget
  }

  /** The promise that a whole tree stays within the root's budget is kept exactly
      by the safe frames. */
  lemma WithinBudgetIff(f: Frame, cap: nat)
    requires Admitted(f) && f.budget >= 1
    ensures NeverOverruns(f, cap) <==> BudgetSafe(f.depthRemaining, f.budget, cap)
  {
    if BudgetSafe(f.depthRemaining, f.budget, cap) {
      forall t | Produces(f, t, cap) ensures Subcalls(t) <= f.budget {
        SafeTreesFit(f, t, cap);
        FittingTreeWithinBudget(f, t, cap);
      }
    } else {
      var t := UnsafeFrameOverruns(f, cap);
      assert !NeverOverruns(f, cap);
    }
  }

  // ------------------------------------------- the safe frames, in closed form

  /** cap + cap^2 + ... + cap^levels: every node of a full tree. */
  function FullTree(cap: nat, levels: nat): nat {
    if levels == 0 then 0 else cap + cap * FullTree(cap, levels - 1)
  }

  /** How many levels of runs a frame can lead to. */
  function Levels(depthRemaining: nat): nat { Max(depthRemaining, 1) }

  lemma ShareAtLeast(budget: nat, n: nat, g: nat)
    requires n >= 1 && n + n * g <= budget
    ensures Share(budget, n) >= g
  {
    var q := (budget - n) / n;
    if q < g { MulMonotone(q + 1, g, n); }
  }

  lemma ShareBelow(budget: nat, n: nat, g: nat)
    requires 1 <= n <= budget < n + n * g
    ensures Share(budget, n) < g
  {
    var q := (budget - n) / n;
    if q >= g { MulMonotone(g, q, n); }
  }

  lemma FullTreeAtLeast(cap: nat, levels: nat)
    requires levels >= 1
    ensures FullTree(cap, levels) >= cap
  {
    assert cap * FullTree(cap, levels - 1) >= 0;
  }

  lemma {:induction false} RoomForTheTreeIsSafe(depthRemaining: nat, budget: nat, cap: nat)
    requires cap >= 1 && FullTree(cap, Levels(depthRemaining)) <= budget
    ensures BudgetSafe(depthRemaining, budget, cap)
    decreases depthRemaining
  {
    FullTreeAtLeast(cap, Levels(depthRemaining));
    forall n | 1 <= n <= cap ensures SafeWith(depthRemaining, budget, cap, n) {
      if depthRemaining >= 2 && budget > 2 * n {
        var below := FullTree(cap, depthRemaining - 1);
        MulMonotone(n, cap, below);
        ShareAtLeast(budget, n, below);
        RoomForTheTreeIsSafe(depthRemaining - 1, Share(budget, n), cap);
      }
    }
  }

  /** A fan-out that recurses and leaves its children too little. */
  lemma StarvingFanout(budget: nat, cap: nat, below: nat) returns (n: nat)
    requires 4 <= cap <= below && cap <= budget < cap + cap * below
    ensures 1 <= n <= cap && 2 * n < budget < n + n * below
  {
    if 2 * cap < budget {
      n := cap;
    } else {
      n := (budget - 1) / 2;
      MulMonotone(4, below, n);
    }
  }

  lemma {:induction false} TooLittleRoomIsUnsafe(depthRemaining: nat, budget: nat, cap: nat)
    requires cap >= 4 && budget < FullTree(cap, Levels(depthRemaining))
    ensures !BudgetSafe(depthRemaining, budget, cap)
    decreases depthRemaining
  {
    if budget < cap {
      assert !SafeWith(depthRemaining, budget, cap, cap);
    } else {
      var below := FullTree(cap, Levels(depthRemaining) - 1);
      assert depthRemaining >= 2 by { assert cap * 0 == 0; }
      FullTreeAtLeast(cap, depthRemaining - 1);
      var n := StarvingFanout(budget, cap, below);
      ShareBelow(budget, n, below);
      TooLittleRoomIsUnsafe(depthRemaining - 1, Share(budget, n), cap);
      assert !SafeWith(depthRemaining, budget, cap, n);
    }
  }

  /** With a fan-out of four or more, the budget bounds the whole tree exactly when
      it has room for the full tree. */
  lemma WithinBudgetClosedForm(f: Frame, cap: nat)
    requires Admitted(f) && f.budget >= 1 && cap >= 4
    ensures NeverOverruns(f, cap) <==> FullTree(cap, Levels(f.depthRemaining)) <= f.budget
  {
    WithinBudgetIff(f, cap);
    if FullTree(cap, Levels(f.depthRemaining)) <= f.budget {
      RoomForTheTreeIsSafe(f.depthRemaining, f.budget, cap);
    } else {
      TooLittleRoomIsUnsafe(f.depthRemaining, f.budget, cap);
    }
  }

  lemma ThreeLevels(cap: nat)
    ensures FullTree(cap, 3) == cap + cap * (cap + cap * cap)
  {
    assert FullTree(cap, 1) == cap + cap * 0;
    assert FullTree(cap, 2) == cap + cap * cap;
  }

  lemma FiveFit(cap: nat)
    requires cap <= 5
    ensures FullTree(cap, 3) <= 155
  {
    ThreeLevels(cap);
    MulMonotone(cap, 5, cap);
    MulMonotone(cap + cap * cap, 30, cap);
  }

  lemma SixDoNot(cap: nat)
    requires cap >= 6
    ensures FullTree(cap, 3) >= 258
  {
    ThreeLevels(cap);
    MulMonotone(6, cap, cap);
    MulMonotone(42, cap + cap * cap, cap);
  }

  /** The largest root keeps the promise exactly with at most five chunks. */
  lemma LargestRootSafeIff(maxChunks: nat)
    ensures var f := NewRoot(4, 256, maxChunks); NeverOverruns(f, SnippetCap(f)) <==> maxChunks <= 5
  {
    var f := NewRoot(4, 256, maxChunks);
    var cap := SnippetCap(f);
    if maxChunks <= 5 {
      FiveFit(cap);
      RoomForTheTreeIsSafe(f.depthRemaining, f.budget, cap);
      WithinBudgetIff(f, cap);
    } else {
      SixDoNot(cap);
      WithinBudgetClosedForm(f, cap);
    }
  }

  lemma TwoLevels(f: Frame, n: nat, cap: nat) returns (t: Tree)
    requires Admitted(f) && 0 < n <= cap && CanRecurse(f, n) && f.depthRemaining > 1
    requires PerChild(f, n) <= 2 * n
    ensures Produces(f, t, cap) && Subcalls(t) == n + n * n
  {
    var inner := Run(n, []);
    SharesFit(f.budget, n);
    RepeatedProduces(f, n, inner, cap);
    RepeatedSubcalls(n, inner);
    t := Run(n, seq(n, _ => inner));
  }

  /** With every limit at its maximum the promise fails: 64 snippets that each
      decompose into 64 more make 4160 sub-calls on a budget of 256. */
  lemma FullLimitsOverrun() returns (t: Tree)
    ensures var f := NewRoot(4, 256, 64);
      Produces(f, t, SnippetCap(f)) && Subcalls(t) == 4160 && f.budget == 256
  {
    t := TwoLevels(NewRoot(4, 256, 64), 64, 64);
  }

  lemma MulAtLeast(a: nat, b: nat)
    requires a >= 1
    ensures a * b >= b
  {
  }

  lemma MulMonotone(a: nat, b: nat, c: nat)
    requires a <= b
    ensures a * c <= b * c
  {
  }
}
