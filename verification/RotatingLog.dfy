/** The rotating log appender: one live file, rotated files named by the period
    that had just ended, pruning, and any number of restarts on one directory. */
module RotatingLog {

  import opened Common
  import opened Lexicographic

  // ------------------------------------------------------- names and moments

  /** A rotated file's period as its numeric fields: year, month, day and, for
      hourly rotation, the hour, with years of at most four digits. The name ends in
      their text, zero-padded to fixed widths. */
  type Period = p: seq<nat> | p != [] && p[0] < 10000 && forall i | 0 < i < |p| :: p[i] < 100 witness [0]

  /** A moment as year, month, day, hour. */
  type Moment = m: Period | |m| == 4 witness [0, 0, 0, 0]

  // ------------------------------------------------ file names sort by period

  const ZERO: nat := 0x30
  const DASH: nat := 0x2D

  function Pow10(w: nat): nat { if w == 0 then 1 else 10 * Pow10(w - 1) }

  /** A number as decimal digits, zero-padded to a fixed width. */
  function Pad(n: nat, width: nat): (text: seq<nat>)
    ensures |text| == width
  {
    if width == 0 then [] else Pad(n / 10, width - 1) + [ZERO + n % 10]
  }

  function FieldsText(fields: seq<nat>): seq<nat> {
    if fields == [] then [] else [DASH] + Pad(fields[0], 2) + FieldsText(fields[1..])
  }

  /** The bytes of a period's text: YYYY-MM-DD or YYYY-MM-DD-HH. */
  function PeriodText(p: Period): seq<nat> {
    Pad(p[0], 4) + FieldsText(p[1..])
  }

  lemma {:induction false} PadOrder(m: nat, n: nat, width: nat)
    requires m < Pow10(width) && n < Pow10(width)
    ensures Less(Pad(m, width), Pad(n, width)) <==> m < n
    ensures Pad(m, width) == Pad(n, width) <==> m == n
  {
    if width > 0 {
      var a, b := Pad(m / 10, width - 1), Pad(n / 10, width - 1);
      PadOrder(m / 10, n / 10, width - 1);
      LessConcat(a, b, [ZERO + m % 10], [ZERO + n % 10]);
      assert Pad(m, width)[..width - 1] == a && Pad(n, width)[..width - 1] == b;
      assert Pad(m, width)[width - 1] == ZERO + m % 10 && Pad(n, width)[width - 1] == ZERO + n % 10;
    }
  }

  lemma {:induction false} FieldsOrder(p: seq<nat>, q: seq<nat>)
    requires forall i | 0 <= i < |p| :: p[i] < 100
    requires forall i | 0 <= i < |q| :: q[i] < 100
    ensures Less(FieldsText(p), FieldsText(q)) <==> Less(p, q)
    decreases |p|
  {
    if p != [] && q != [] {
      assert Pow10(1) == 10 && Pow10(2) == 100;
      PadOrder(p[0], q[0], 2);
      FieldsOrder(p[1..], q[1..]);
      LessConcat([DASH], [DASH], Pad(p[0], 2), Pad(q[0], 2));
      LessIrreflexive([DASH]);
      LessConcat([DASH] + Pad(p[0], 2), [DASH] + Pad(q[0], 2), FieldsText(p[1..]), FieldsText(q[1..]));
      assert ([DASH] + Pad(p[0], 2))[1..] == Pad(p[0], 2) && ([DASH] + Pad(q[0], 2))[1..] == Pad(q[0], 2);
    }
  }

  /** The names of rotated files sort as their periods, and determine them. */
  lemma NamesSortByPeriod(p: Period, q: Period)
    ensures Less(PeriodText(p), PeriodText(q)) <==> Less(p, q)
    ensures PeriodText(p) == PeriodText(q) <==> p == q
  {
    NamesLess(p, q);
    NamesLess(q, p);
    LessTotal(p, q);
    LessIrreflexive(PeriodText(p));
  }

  lemma NamesLess(p: Period, q: Period)
    ensures Less(PeriodText(p), PeriodText(q)) <==> Less(p, q)
  {
    assert Pow10(1) == 10 && Pow10(2) == 100 && Pow10(3) == 1000 && Pow10(4) == 10000;
    PadOrder(p[0], q[0], 4);
    FieldsOrder(p[1..], q[1..]);
    LessConcat(Pad(p[0], 4), Pad(q[0], 4), FieldsText(p[1..]), FieldsText(q[1..]));
  }

  /** Four decimal digits, and a dash with two. */
  function Year(n: nat): seq<nat> { [0x30 + n / 1000, 0x30 + n / 100 % 10, 0x30 + n / 10 % 10, 0x30 + n % 10] }
  function Dashed(n: nat): seq<nat> { [0x2D, 0x30 + n / 10, 0x30 + n % 10] }

  lemma PadTwo(n: nat)
    requires n < 100
    ensures [DASH] + Pad(n, 2) == Dashed(n)
  {
    assert Pad(n / 10, 1) == Pad(n / 10 / 10, 0) + [ZERO + n / 10 % 10];
  }

  lemma PadFour(n: nat)
    requires n < 10000
    ensures Pad(n, 4) == Year(n)
  {
    assert n / 10 / 10 == n / 100 && n / 100 / 10 == n / 1000;
    assert Pad(n / 1000, 1) == Pad(n / 1000 / 10, 0) + [ZERO + n / 1000 % 10];
    assert Pad(n / 100, 2) == Pad(n / 1000, 1) + [ZERO + n / 100 % 10];
    assert Pad(n / 10, 3) == Pad(n / 100, 2) + [ZERO + n / 10 % 10];
    assert Pad(n, 4) == Pad(n / 10, 3) + [ZERO + n % 10];
  }

  lemma FieldsStep(fields: seq<nat>, rest: seq<nat>)
    requires fields != [] && fields[0] < 100 && rest == fields[1..]
    ensures FieldsText(fields) == Dashed(fields[0]) + FieldsText(rest)
  {
    PadTwo(fields[0]);
  }

  lemma Reassociate(a: seq<nat>, b: seq<nat>, c: seq<nat>, d: seq<nat>)
    ensures a + (b + (c + d)) == a + b + c + d
  {
  }

  /** The text is YYYY-MM-DD, and for an hour YYYY-MM-DD-HH, in decimal digits. */
  lemma PeriodTextReads(p: Period)
    requires |p| == 3 || |p| == 4
    ensures PeriodText(p) == Year(p[0]) + Dashed(p[1]) + Dashed(p[2]) + if |p| == 3 then [] else Dashed(p[3])
  {
    PadFour(p[0]);
    FieldsStep(p[1..], p[2..]);
    FieldsStep(p[2..], p[3..]);
    if |p| == 4 {
      FieldsStep(p[3..], []);
      assert Dashed(p[3]) + [] == Dashed(p[3]);
    }
    Reassociate(Year(p[0]), Dashed(p[1]), Dashed(p[2]), FieldsText(p[3..]));
  }

  // --------------------------------------------------------------- directory

  type Line = string

  datatype File = File(period: Period, lines: seq<Line>)

  /** Renaming in a directory listing sorted by name: a file of that name is
      replaced, otherwise the new one goes where its name sorts. */
  function RenamedByName(files: seq<File>, f: File): seq<File> {
    if files == [] then [f]
    else if Less(PeriodText(f.period), PeriodText(files[0].period)) then [f] + files
    else if PeriodText(f.period) == PeriodText(files[0].period) then [f] + files[1..]
    else [files[0]] + RenamedByName(files[1..], f)
  }

  /** The same, comparing periods. */
  function Renamed(files: seq<File>, f: File): seq<File> {
    if files == [] then [f]
    else if Less(f.period, files[0].period) then [f] + files
    else if f.period == files[0].period then [f] + files[1..]
    else [files[0]] + Renamed(files[1..], f)
  }

  /** Pruning keeps the newest `maxFiles` files. */
  function Newest(files: seq<File>, maxFiles: nat): seq<File> {
    if |files| > maxFiles then files[|files| - maxFiles..] else files
  }

  function Concat(files: seq<File>): seq<Line> {
    if files == [] then [] else files[0].lines + Concat(files[1..])
  }

  predicate AllBefore(files: seq<File>, p: Period) {
    forall i | 0 <= i < |files| :: Less(files[i].period, p)
  }

  /** Renaming to a name after all others adds a file and overwrites none. */
  lemma {:induction false} RenamedLast(files: seq<File>, f: File)
    requires AllBefore(files, f.period)
    ensures Renamed(files, f) == files + [f]
  {
    if files != [] {
      assert Less(files[0].period, f.period);
      if Less(f.period, files[0].period) { LessTransitive(f.period, files[0].period, f.period); }
      LessIrreflexive(f.period);
      RenamedLast(files[1..], f);
      assert files == [files[0]] + files[1..];
    }
  }

  lemma {:induction false} RenamedIsByName(files: seq<File>, f: File)
    ensures Renamed(files, f) == RenamedByName(files, f)
  {
    if files != [] {
      NamesSortByPeriod(f.period, files[0].period);
      RenamedIsByName(files[1..], f);
    }
  }

  predicate Sorted(files: seq<File>) {
    forall i, j | 0 <= i < j < |files| :: Less(files[i].period, files[j].period)
  }

  /** The listing is in name order and no name occurs twice. */
  ghost predicate InNameOrder(files: seq<File>) {
    forall i, j | 0 <= i < j < |files| :: Less(PeriodText(files[i].period), PeriodText(files[j].period))
  }

  lemma SortedIsNameOrder(files: seq<File>)
    ensures InNameOrder(files) <==> Sorted(files)
  {
    forall i, j | 0 <= i < j < |files|
      ensures Less(PeriodText(files[i].period), PeriodText(files[j].period)) <==> Less(files[i].period, files[j].period)
    {
      NamesSortByPeriod(files[i].period, files[j].period);
    }
  }

  predicate AllAfter(p: Period, files: seq<File>) {
    forall i | 0 <= i < |files| :: Less(p, files[i].period)
  }

  lemma SortedCons(f: File, rest: seq<File>)
    requires Sorted(rest) && AllAfter(f.period, rest)
    ensures Sorted([f] + rest)
  {
  }

  lemma SortedTail(files: seq<File>)
    requires files != [] && Sorted(files)
    ensures Sorted(files[1..]) && AllAfter(files[0].period, files[1..])
  {
  }

  lemma {:induction false} RenamedAfter(files: seq<File>, f: File, p: Period)
    requires AllAfter(p, files) && Less(p, f.period)
    ensures AllAfter(p, Renamed(files, f))
  {
    if files != [] {
      assert Less(p, files[0].period);
      RenamedAfter(files[1..], f, p);
    }
  }

  /** Renaming keeps the listing sorted wherever the new name falls. */
  lemma {:induction false} RenamedSorted(files: seq<File>, f: File)
    requires Sorted(files)
    ensures Sorted(Renamed(files, f))
  {
    if files != [] {
      var first := files[0];
      SortedTail(files);
      if Less(f.period, first.period) {
        forall i | 0 <= i < |files| ensures Less(f.period, files[i].period) {
          if i > 0 { LessTransitive(f.period, first.period, files[i].period); }
        }
        SortedCons(f, files);
      } else if f.period == first.period {
        SortedCons(f, files[1..]);
      } else {
        LessTotal(f.period, first.period);
        RenamedSorted(files[1..], f);
        RenamedAfter(files[1..], f, first.period);
        SortedCons(first, Renamed(files[1..], f));
      }
    }
  }

  lemma ConcatOne(f: File)
    ensures Concat([f]) == f.lines
  {
    assert [f][1..] == [];
  }

  lemma {:induction false} ConcatSplit(a: seq<File>, b: seq<File>)
    ensures Concat(a + b) == Concat(a) + Concat(b)
  {
    if a == [] {
      assert a + b == b;
    } else {
      assert (a + b)[1..] == a[1..] + b;
      ConcatSplit(a[1..], b);
    }
  }

  // ------------------------------------------------------------------- state

  datatype Rotation = Daily | Hourly | Never

  /** The directory and the appender that has it open. */
  datatype State = State(
    rotated: seq<File>, live: seq<Line>, rotation: Rotation, maxFiles: nat, current: Option<Period>)

  function PeriodOf(rotation: Rotation, now: Moment): Option<Period> {
    match rotation
    case Daily => Some(now[..3])
    case Hourly => Some(now[..4])
    case Never => None
  }

  predicate RotatesAt(s: State, now: Moment) {
    s.current.Some? && PeriodOf(s.rotation, now).Some? && s.current != PeriodOf(s.rotation, now)
  }

  function Rotated(s: State, now: Moment): State {
    if RotatesAt(s, now) then
      s.(rotated := Newest(Renamed(s.rotated, File(s.current.value, s.live)), s.maxFiles),
         live := [],
         current := PeriodOf(s.rotation, now))
    else s
  }

  /** Opening an appender on whatever the directory holds. */
  function Opened(s: State, now: Moment, rotation: Rotation, maxFiles: nat): State {
    s.(rotation := rotation, maxFiles := maxFiles, current := PeriodOf(rotation, now))
  }

  function Logged(s: State, now: Moment, line: Line): State {
    var r := Rotated(s, now);
    r.(live := r.live + [line])
  }

  /** The rotated files in name order, then the live file. */
  function Readable(s: State): seq<Line> {
    Concat(s.rotated) + s.live
  }

  ghost predicate IsSuffix(tail: seq<Line>, all: seq<Line>) {
    |tail| <= |all| && all[|all| - |tail|..] == tail
  }

  lemma NewestKeepsSuffix(files: seq<File>, maxFiles: nat, all: seq<Line>)
    requires IsSuffix(Concat(files), all)
    ensures IsSuffix(Concat(Newest(files, maxFiles)), all)
  {
    if |files| > maxFiles {
      var k := |files| - maxFiles;
      assert files == files[..k] + files[k..];
      ConcatSplit(files[..k], files[k..]);
      assert Concat(files[k..]) == Concat(files)[|Concat(files[..k])|..];
    }
  }

  lemma SameFields(a: Moment, b: Moment)
    ensures a[..3] == b[..3] <==> a[0] == b[0] && a[1] == b[1] && a[2] == b[2]
    ensures a[..4] == b[..4] <==> a[..3] == b[..3] && a[3] == b[3]
  {
    var x, y := a[..4], b[..4];
    assert x[..3] == a[..3] && y[..3] == b[..3] && x[3] == a[3] && y[3] == b[3];
    assert x == x[..3] + [x[3]] && y == y[..3] + [y[3]];
    var p, q := a[..3], b[..3];
    assert p == [a[0], a[1], a[2]] && q == [b[0], b[1], b[2]];
    assert p[0] == a[0] && p[1] == a[1] && p[2] == a[2];
  }

  /** An appender opened at one moment rotates at another exactly if the date differs,
      or for hourly rotation the date or the hour, and never without rotation. */
  lemma RotatesIff(s: State, since: Moment, now: Moment, rotation: Rotation, maxFiles: nat)
    ensures var sameDay := since[0] == now[0] && since[1] == now[1] && since[2] == now[2];
      RotatesAt(Opened(s, since, rotation, maxFiles), now) <==>
        match rotation
        case Daily => !sameDay
        case Hourly => !sameDay || since[3] != now[3]
        case Never => false
  {
    SameFields(since, now);
  }

  /** Pruning keeps `maxFiles` files, or all if there are no more, and those are the
      last in name order. */
  lemma NewestMeans(files: seq<File>, maxFiles: nat)
    ensures var kept := Newest(files, maxFiles);
      && |kept| == (if |files| <= maxFiles then |files| else maxFiles)
      && exists k :: 0 <= k <= |files| && kept == files[k..]
  {
    var kept := Newest(files, maxFiles);
    assert kept == files[|files| - |kept|..];
  }

  // -------------------------------------------------------------------- runs

  datatype Op =
    | Open(now: Moment, rotation: Rotation, maxFiles: nat)
    | Log(now: Moment, line: Line)

  const FRESH: State := State([], [], Never, 0, None)

  function Apply(s: State, op: Op): State {
    match op
    case Open(now, rotation, maxFiles) => Opened(s, now, rotation, maxFiles)
    case Log(now, line) => Logged(s, now, line)
  }

  function After(ops: seq<Op>): State
    decreases |ops|
  {
    if ops == [] then FRESH else Apply(After(ops[..|ops| - 1]), ops[|ops| - 1])
  }

  function Everything(ops: seq<Op>): seq<Line>
    decreases |ops|
  {
    if ops == [] then []
    else Everything(ops[..|ops| - 1]) + LinesOf(ops[|ops| - 1])
  }

  /** The clock never runs backwards and only the given rotations are configured. */
  ghost predicate IsRun(ops: seq<Op>, rotations: set<Rotation>) {
    && (forall i | 0 <= i < |ops| - 1 :: AtMost(ops[i].now, ops[i + 1].now))
    && forall i | 0 <= i < |ops| :: ops[i].Open? ==> ops[i].rotation in rotations
  }

  /** The one rotation that produces file names in a run. */
  function NamingRotation(rotations: set<Rotation>): Rotation {
    if Hourly in rotations then Hourly else Daily
  }

  /** All rotated names lie before the period being written and before the clock's. */
  ghost predicate Ordered(s: State, now: Moment, rotations: set<Rotation>) {
    var k := NamingRotation(rotations);
    && AllBefore(s.rotated, PeriodOf(k, now).value)
    && s.rotation in {k, Never}
    && (s.current.Some? ==>
          s.rotation == k && AtMost(s.current.value, PeriodOf(k, now).value) && AllBefore(s.rotated, s.current.value))
  }

  lemma LaterOrdered(s: State, a: Moment, b: Moment, rotations: set<Rotation>)
    requires Ordered(s, a, rotations) && AtMost(a, b)
    ensures Ordered(s, b, rotations)
  {
    var k := NamingRotation(rotations);
    var p, q := PeriodOf(k, a).value, PeriodOf(k, b).value;
    PrefixMonotone(a, b, 3);
    PrefixMonotone(a, b, 4);
    forall i | 0 <= i < |s.rotated| ensures Less(s.rotated[i].period, q) { AtMostLess(s.rotated[i].period, p, q); }
    if s.current.Some? && s.current.value != p && p != q { LessTransitive(s.current.value, p, q); }
  }

  /** A rotation never overwrites a rotated file, keeps exactly the newest
      `maxFiles` of the files it then has, and keeps the names ordered. */
  lemma RotationIsSafe(s: State, now: Moment, rotations: set<Rotation>)
    requires Ordered(s, now, rotations) && RotatesAt(s, now)
    ensures Renamed(s.rotated, File(s.current.value, s.live)) == s.rotated + [File(s.current.value, s.live)]
    ensures Rotated(s, now).rotated == Newest(s.rotated + [File(s.current.value, s.live)], s.maxFiles)
    ensures Ordered(Rotated(s, now), now, rotations)
  {
    var f := File(s.current.value, s.live);
    RenamedLast(s.rotated, f);
    var p := PeriodOf(s.rotation, now).value;
    forall i | 0 <= i < |s.rotated + [f]| ensures Less((s.rotated + [f])[i].period, p) {
      if i < |s.rotated| { AtMostLess(s.rotated[i].period, s.current.value, p); }
    }
  }

  lemma RotationKeepsSuffix(s: State, now: Moment, rotations: set<Rotation>, all: seq<Line>)
    requires Ordered(s, now, rotations) && IsSuffix(Readable(s), all)
    ensures IsSuffix(Readable(Rotated(s, now)), all)
  {
    if RotatesAt(s, now) {
      var f := File(s.current.value, s.live);
      RotationIsSafe(s, now, rotations);
      ConcatSplit(s.rotated, [f]);
      ConcatOne(f);
      NewestKeepsSuffix(s.rotated + [f], s.maxFiles, all);
      assert Readable(Rotated(s, now)) == Concat(Rotated(s, now).rotated);
    }
  }

  function LinesOf(op: Op): seq<Line> { if op.Log? then [op.line] else [] }

  lemma SuffixAppend(tail: seq<Line>, all: seq<Line>, line: Line)
    requires IsSuffix(tail, all)
    ensures IsSuffix(tail + [line], all + [line])
  {
  }

  lemma StepKeeps(s: State, op: Op, rotations: set<Rotation>, all: seq<Line>)
    requires Ordered(s, op.now, rotations) && IsSuffix(Readable(s), all)
    requires op.Open? ==> op.rotation in rotations && !(Daily in rotations && Hourly in rotations)
    ensures Ordered(Apply(s, op), op.now, rotations)
    ensures IsSuffix(Readable(Apply(s, op)), all + LinesOf(op))
  {
    if op.Log? {
      if RotatesAt(s, op.now) { RotationIsSafe(s, op.now, rotations); }
      RotationKeepsSuffix(s, op.now, rotations, all);
      var r := Rotated(s, op.now);
      assert Concat(r.rotated) + (r.live + [op.line]) == Readable(r) + [op.line];
      SuffixAppend(Readable(r), all, op.line);
    } else {
      assert all + LinesOf(op) == all;
    }
  }

  /** How many files the log event prunes. */
  function Pruned(s: State, op: Op): nat {
    if op.Log? && RotatesAt(s, op.now) && |s.rotated| + 1 > s.maxFiles then |s.rotated| + 1 - s.maxFiles else 0
  }

  /** Nothing is lost but what pruning removes: what can be read after a step is what
      could be read before, with the new line, less the lines of the oldest files. */
  lemma StepLosesOnlyPruned(s: State, op: Op, rotations: set<Rotation>)
    requires Ordered(s, op.now, rotations)
    ensures var files := s.rotated + if op.Log? && RotatesAt(s, op.now) then [File(s.current.value, s.live)] else [];
      && Pruned(s, op) <= |files|
      && Readable(s) + LinesOf(op) == Concat(files[..Pruned(s, op)]) + Readable(Apply(s, op))
  {
    if op.Log? && RotatesAt(s, op.now) {
      RotationLosesOnlyPruned(s, op, rotations);
    } else {
      assert s.rotated + [] == s.rotated;
      assert op.Log? ==> Concat(s.rotated) + (s.live + [op.line]) == Readable(s) + [op.line];
    }
  }

  lemma SplitBeforeLine(all: seq<Line>, a: seq<Line>, b: seq<Line>, line: Line)
    requires all == a + b
    ensures all + [line] == a + (b + [line])
  {
  }

  lemma ConcatAt(files: seq<File>, k: nat)
    requires k <= |files|
    ensures Concat(files) == Concat(files[..k]) + Concat(files[k..])
  {
    assert files == files[..k] + files[k..];
    ConcatSplit(files[..k], files[k..]);
  }

  lemma ConcatWithLine(files: seq<File>, k: nat, line: Line)
    requires k <= |files|
    ensures Concat(files) + [line] == Concat(files[..k]) + (Concat(files[k..]) + [line])
  {
    ConcatAt(files, k);
    SplitBeforeLine(Concat(files), Concat(files[..k]), Concat(files[k..]), line);
  }

  lemma RotatedReads(s: State, op: Op, rotations: set<Rotation>)
    requires op.Log? && RotatesAt(s, op.now) && Ordered(s, op.now, rotations)
    ensures var files := s.rotated + [File(s.current.value, s.live)];
      && Readable(s) == Concat(files)
      && Readable(Apply(s, op)) == Concat(Newest(files, s.maxFiles)) + [op.line]
  {
    var f := File(s.current.value, s.live);
    RotationIsSafe(s, op.now, rotations);
    ConcatOne(f);
    ConcatSplit(s.rotated, [f]);
    assert Rotated(s, op.now).live + [op.line] == [op.line];
  }

  lemma RotationLosesOnlyPruned(s: State, op: Op, rotations: set<Rotation>)
    requires op.Log? && RotatesAt(s, op.now) && Ordered(s, op.now, rotations)
    ensures var files := s.rotated + [File(s.current.value, s.live)];
      && Pruned(s, op) <= |files|
      && Readable(s) + LinesOf(op) == Concat(files[..Pruned(s, op)]) + Readable(Apply(s, op))
  {
    var files := s.rotated + [File(s.current.value, s.live)];
    RotatedReads(s, op, rotations);
    ConcatWithLine(files, Pruned(s, op), op.line);
    assert Newest(files, s.maxFiles) == files[Pruned(s, op)..];
  }

  /** In every run the rotated files are listed in name order. */
  lemma {:induction false} RunSorted(ops: seq<Op>)
    ensures InNameOrder(After(ops).rotated)
    decreases |ops|
  {
    if ops != [] {
      var s, op := After(ops[..|ops| - 1]), ops[|ops| - 1];
      RunSorted(ops[..|ops| - 1]);
      SortedIsNameOrder(s.rotated);
      if op.Log? && RotatesAt(s, op.now) {
        RenamedSorted(s.rotated, File(s.current.value, s.live));
        SortedIsNameOrder(After(ops).rotated);
      }
    }
  }

  lemma {:induction false} RunInvariant(ops: seq<Op>, rotations: set<Rotation>)
    requires IsRun(ops, rotations) && !(Daily in rotations && Hourly in rotations)
    ensures ops != [] ==> Ordered(After(ops), ops[|ops| - 1].now, rotations)
    ensures ReadsAsSuffix(ops)
    decreases |ops|
  {
    RunSorted(ops);
    if ops != [] {
      var earlier, op := ops[..|ops| - 1], ops[|ops| - 1];
      RunInvariant(earlier, rotations);
      if earlier != [] { LaterOrdered(After(earlier), earlier[|earlier| - 1].now, op.now, rotations); }
      StepKeeps(After(earlier), op, rotations, Everything(earlier));
    }
  }

  /** With room for every file a run can make, everything logged can be read back. */
  lemma {:induction false} RunKeepsEverything(ops: seq<Op>, rotations: set<Rotation>, room: nat)
    requires IsRun(ops, rotations) && !(Daily in rotations && Hourly in rotations)
    requires |ops| <= room && forall i | 0 <= i < |ops| && ops[i].Open? :: ops[i].maxFiles >= room
    ensures Readable(After(ops)) == Everything(ops) && |After(ops).rotated| <= |ops|
    ensures After(ops).current.Some? ==> After(ops).maxFiles >= room
    decreases |ops|
  {
    if ops != [] {
      var earlier, op := ops[..|ops| - 1], ops[|ops| - 1];
      RunKeepsEverything(earlier, rotations, room);
      RunInvariant(earlier, rotations);
      if earlier != [] { LaterOrdered(After(earlier), earlier[|earlier| - 1].now, op.now, rotations); }
      StepWithRoom(After(earlier), op, rotations);
    }
  }

  lemma StepWithRoom(s: State, op: Op, rotations: set<Rotation>)
    requires Ordered(s, op.now, rotations) && (s.current.Some? ==> |s.rotated| < s.maxFiles)
    ensures Readable(Apply(s, op)) == Readable(s) + LinesOf(op) && |Apply(s, op).rotated| <= |s.rotated| + 1
  {
    StepLosesOnlyPruned(s, op, rotations);
    var files := s.rotated + if op.Log? && RotatesAt(s, op.now) then [File(s.current.value, s.live)] else [];
    assert files[..0] == [] && Concat(files[..0]) == [];
    if op.Log? && RotatesAt(s, op.now) { RotationIsSafe(s, op.now, rotations); }
  }

  /** The rotated files are in name order, and reading them in that order and then
      the live file gives a contiguous suffix of everything logged. */
  ghost predicate ReadsAsSuffix(ops: seq<Op>) {
    InNameOrder(After(ops).rotated) && IsSuffix(Readable(After(ops)), Everything(ops))
  }

  ghost predicate AlwaysReadsAsSuffix(rotations: set<Rotation>) {
    forall ops | IsRun(ops, rotations) :: ReadsAsSuffix(ops)
  }

  /** What can be read back is always a contiguous suffix of everything logged,
      for every run, exactly when daily and hourly rotation are never mixed on one
      directory. */
  lemma SuffixIff(rotations: set<Rotation>)
    ensures AlwaysReadsAsSuffix(rotations) <==> !(Daily in rotations && Hourly in rotations)
  {
    if Daily in rotations && Hourly in rotations {
      var t0, t1, t2 := MixedMoments();
      MixedRotationsMisorder(t0, t1, t2, "a", "b", "c");
      assert IsRun(MixedRun(t0, t1, t2, "a", "b", "c"), rotations);
    } else {
      forall ops | IsRun(ops, rotations) ensures ReadsAsSuffix(ops) {
        RunInvariant(ops, rotations);
      }
    }
  }

  // -------------------------------------------------------- mixing rotations

  /** Hourly rotation for two hours, then daily rotation past midnight. */
  function MixedRun(t0: Moment, t1: Moment, t2: Moment, first: Line, second: Line, third: Line): seq<Op> {
    [Open(t0, Hourly, 9), Log(t0, first), Log(t1, second), Open(t1, Daily, 9), Log(t2, third)]
  }

  lemma AfterStep(ops: seq<Op>, k: nat)
    requires k < |ops|
    ensures After(ops[..k + 1]) == Apply(After(ops[..k]), ops[k])
    ensures Everything(ops[..k + 1]) == Everything(ops[..k]) + LinesOf(ops[k])
  {
    assert ops[..k + 1][..k] == ops[..k];
  }

  lemma MixedRunStart(t0: Moment, t1: Moment, t2: Moment, first: Line, second: Line, third: Line)
    ensures var ops := MixedRun(t0, t1, t2, first, second, third);
      After(ops[..2]) == State([], [first], Hourly, 9, Some(t0)) && Everything(ops[..2]) == [first]
  {
    var ops := MixedRun(t0, t1, t2, first, second, third);
    assert ops[..0] == [] && t0[..4] == t0;
    AfterStep(ops, 0);
    AfterStep(ops, 1);
  }

  lemma FirstRotation(hour: Period, now: Moment, first: Line, second: Line)
    requires hour != now
    ensures Logged(State([], [first], Hourly, 9, Some(hour)), now, second) ==
      State([File(hour, [first])], [second], Hourly, 9, Some(now))
  {
    assert now[..4] == now;
    assert Renamed([], File(hour, [first])) == [File(hour, [first])];
  }

  lemma MixedRunTurn(t0: Moment, t1: Moment, t2: Moment, first: Line, second: Line, third: Line)
    requires t0 != t1
    ensures var ops := MixedRun(t0, t1, t2, first, second, third);
      && After(ops[..3]) == State([File(t0, [first])], [second], Hourly, 9, Some(t1))
      && Everything(ops[..3]) == [first] + [second]
  {
    MixedRunStart(t0, t1, t2, first, second, third);
    AfterStep(MixedRun(t0, t1, t2, first, second, third), 2);
    FirstRotation(t0, t1, first, second);
  }

  lemma MixedRunMiddle(t0: Moment, t1: Moment, t2: Moment, first: Line, second: Line, third: Line)
    requires t0 != t1
    ensures var ops := MixedRun(t0, t1, t2, first, second, third);
      && After(ops[..4]) == State([File(t0, [first])], [second], Daily, 9, Some(t1[..3]))
      && Everything(ops[..4]) == [first, second]
  {
    MixedRunTurn(t0, t1, t2, first, second, third);
    AfterStep(MixedRun(t0, t1, t2, first, second, third), 3);
  }

  /** A day's file renamed into a listing with one of its hours goes before it. */
  lemma BackwardRotation(hour: Period, day: Period, now: Moment, first: Line, second: Line, third: Line)
    requires Less(day, hour) && day != now[..3]
    ensures var s := State([File(hour, [first])], [second], Daily, 9, Some(day));
      Readable(Logged(s, now, third)) == [second, first, third]
  {
    var byDay, byHour := File(day, [second]), File(hour, [first]);
    assert Renamed([byHour], byDay) == [byDay] + [byHour];
    ConcatOne(byDay);
    ConcatOne(byHour);
    ConcatSplit([byDay], [byHour]);
  }

  lemma DayBeforeHour(t: Moment)
    ensures Less(t[..3], t)
  {
    PrefixLess(t[..3], t[3..]);
    assert t[..3] + t[3..] == t;
  }

  lemma NotSuffix(first: Line, second: Line, third: Line)
    requires first != second
    ensures !IsSuffix([second, first, third], [first, second] + [third])
  {
    assert ([first, second] + [third])[0..][0] == first;
  }

  /** A day's file that is renamed after an hour's file of the same day sorts
      before it, so the two are read back in the wrong order. */
  lemma MixedRotationsMisorder(t0: Moment, t1: Moment, t2: Moment, first: Line, second: Line, third: Line)
    requires t0 != t1 && t0[..3] == t1[..3] != t2[..3] && first != second
    ensures var ops := MixedRun(t0, t1, t2, first, second, third);
      Readable(After(ops)) == [second, first, third] && !ReadsAsSuffix(ops)
  {
    var ops := MixedRun(t0, t1, t2, first, second, third);
    MixedRunMiddle(t0, t1, t2, first, second, third);
    DayBeforeHour(t0);
    AfterStep(ops, 4);
    assert ops[..5] == ops;
    BackwardRotation(t0, t1[..3], t2, first, second, third);
    NotSuffix(first, second, third);
  }

  lemma MixedMoments() returns (t0: Moment, t1: Moment, t2: Moment)
    ensures AtMost(t0, t1) && AtMost(t1, t2) && t0 != t1 && t0[..3] == t1[..3] != t2[..3]
  {
    t0, t1, t2 := [1, 1, 1, 0], [1, 1, 1, 1], [1, 1, 2, 0];
    LessCons(1, [0], [1]);
    LessCons(1, [1, 0], [1, 1]);
    LessCons(1, [1, 1, 0], [1, 1, 1]);
    LessCons(1, [1, 1], [2, 0]);
    LessCons(1, [1, 1, 1], [1, 2, 0]);
    assert t0[..3] == [1, 1, 1] == t1[..3] && t2[..3] == [1, 1, 2] && t0[3] != t1[3] && t1[..3][2] != t2[..3][2];
  }

  // -------------------------------------------------- the appender as written

  /** The log directory, which outlives any appender. */
  class Directory {
    var rotated: seq<File>
    var live: seq<Line>

    constructor ()
      ensures rotated == [] && live == []
    {
      rotated, live := [], [];
    }
  }

  class Appender {
    const dir: Directory
    const rotation: Rotation
    const maxFiles: nat
    var current: Option<Period>

    ghost function Snapshot(): State
      reads this, dir
    {
      State(dir.rotated, dir.live, rotation, maxFiles, current)
    }

    constructor (dir: Directory, rotation: Rotation, maxFiles: nat, now: Moment)
      ensures this.dir == dir && this.rotation == rotation && this.maxFiles == maxFiles
      ensures current == PeriodOf(rotation, now)
    {
      this.dir, this.rotation, this.maxFiles := dir, rotation, maxFiles;
      current := PeriodOf(rotation, now);
    }

    /** Removes the oldest rotated files one by one. */
    method CleanupOldFiles()
      modifies dir`rotated
      ensures dir.rotated == Newest(old(dir.rotated), maxFiles)
      ensures var n := |old(dir.rotated)|;
        dir.rotated == old(dir.rotated)[if n <= maxFiles then 0 else n - maxFiles..]
    {
      if |dir.rotated| > maxFiles {
        var surplus := |dir.rotated| - maxFiles;
        for i := 0 to surplus
          invariant dir.rotated == old(dir.rotated)[i..]
        {
          dir.rotated := dir.rotated[1..];
        }
      }
    }

    method MaybeRotate(now: Moment)
      modifies this, dir
      ensures Snapshot() == Rotated(old(Snapshot()), now)
    {
      var newPeriod := PeriodOf(rotation, now);
      if current.None? || newPeriod.None? || current == newPeriod {
        return;
      }
      dir.rotated := Renamed(dir.rotated, File(current.value, dir.live));
      dir.live := [];
      current := newPeriod;
      CleanupOldFiles();
    }

    /** One log event: the writer guard rotates first, then the line is appended. */
    method WriteEvent(now: Moment, line: Line)
      modifies this, dir
      ensures Snapshot() == Logged(old(Snapshot()), now, line)
    {
      MaybeRotate(now);
      dir.live := dir.live + [line];
    }
  }

  /** A process restart: a new appender on the same directory. */
  method Restart(previous: Appender, rotation: Rotation, maxFiles: nat, now: Moment) returns (next: Appender)
    ensures fresh(next) && next.Snapshot() == Opened(previous.Snapshot(), now, rotation, maxFiles)
  {
    next := new Appender(previous.dir, rotation, maxFiles, now);
  }
}
