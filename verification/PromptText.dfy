/** The offset-preserving text pipeline of mandate extraction: quoted spans are
    masked in place, the masked text is split into sentences, and offsets found
    there are used to slice the original prompt. */
module PromptText {
  import opened Utf8

  const NEWLINE: Byte := 0x0A
  const SPACE: Byte := 0x20
  const BANG: Byte := 0x21
  const DOT: Byte := 0x2E
  const QUESTION: Byte := 0x3F
  const BACKTICK: Byte := 0x60

  datatype Range = Range(start: nat, end: nat)

  // ------------------------------------------------------------------ masking

  predicate Aligned(text: seq<Byte>, r: Range) {
    r.start <= r.end <= |text| && Boundary(text, r.start) && Boundary(text, r.end)
  }

  predicate AllAligned(text: seq<Byte>, rs: seq<Range>) {
    forall k | 0 <= k < |rs| :: Aligned(text, rs[k])
  }

  function Blanked(b: Byte): Byte { if b == NEWLINE then NEWLINE else SPACE }

  function MaskOne(text: seq<Byte>, r: Range): seq<Byte> {
    seq(|text|, i requires 0 <= i < |text| => if r.start <= i < r.end then Blanked(text[i]) else text[i])
  }

  predicate Covered(rs: seq<Range>, i: nat) {
    exists k | 0 <= k < |rs| :: rs[k].start <= i < rs[k].end
  }

  /** What masking means: every covered byte except a newline becomes a space. */
  function Masked(text: seq<Byte>, rs: seq<Range>): seq<Byte> {
    seq(|text|, i requires 0 <= i < |text| => if Covered(rs, i) then Blanked(text[i]) else text[i])
  }

  lemma MaskedAppend(text: seq<Byte>, rs: seq<Range>, r: Range)
    ensures MaskOne(Masked(text, rs), r) == Masked(text, rs + [r])
  {
    forall i | 0 <= i < |text| ensures Covered(rs + [r], i) <==> Covered(rs, i) || r.start <= i < r.end {
      if Covered(rs, i) {
        var k :| 0 <= k < |rs| && rs[k].start <= i < rs[k].end;
        assert (rs + [r])[k] == rs[k];
      }
      if r.start <= i < r.end {
        assert (rs + [r])[|rs|] == r;
      }
    }
  }

  /** From every boundary of the text, the masked text reads on as valid. */
  lemma {:induction false} MaskOneValidFrom(text: seq<Byte>, r: Range, i: nat)
    requires Aligned(text, r) && i <= |text|
    requires r.start <= i < r.end || ValidFrom(text, i)
    requires r.end < |text| ==> ValidFrom(text, r.end)
    ensures ValidFrom(MaskOne(text, r), i)
    decreases |text| - i
  {
    var masked := MaskOne(text, r);
    if i < |text| {
      if r.start <= i < r.end {
        MaskOneValidFrom(text, r, i + 1);
      } else {
        var next := i + CharLen(text, i);
        assert i < r.start ==> next <= r.start;
        assert forall k | i <= k < next :: masked[k] == text[k];
        MaskOneValidFrom(text, r, next);
      }
    }
  }

  lemma MaskOneValid(text: seq<Byte>, r: Range)
    requires Valid(text) && Aligned(text, r)
    ensures Valid(MaskOne(text, r))
  {
    ValidAt(text, r.end);
    MaskOneValidFrom(text, r, 0);
  }

  /** A boundary of the original text stays a boundary however it is masked. */
  lemma BoundarySurvives(text: seq<Byte>, rs: seq<Range>, i: nat)
    requires Boundary(text, i)
    ensures Boundary(Masked(text, rs), i)
  {
  }

  lemma {:induction false} MaskedValid(text: seq<Byte>, rs: seq<Range>)
    requires Valid(text) && AllAligned(text, rs)
    ensures Valid(Masked(text, rs))
    decreases |rs|
  {
    if rs == [] {
      assert Masked(text, rs) == text;
    } else {
      var earlier, r := rs[..|rs| - 1], rs[|rs| - 1];
      assert rs == earlier + [r];
      MaskedValid(text, earlier);
      assert Aligned(text, r);
      BoundarySurvives(text, earlier, r.start);
      BoundarySurvives(text, earlier, r.end);
      MaskOneValid(Masked(text, earlier), r);
      MaskedAppend(text, earlier, r);
    }
  }

  /** Exactly the covered bytes other than newlines become spaces, and a non-blank
      boundary of the masked text is one of the original. */
  lemma MaskedKeeps(text: seq<Byte>, rs: seq<Range>, i: nat)
    requires i < |text|
    ensures |Masked(text, rs)| == |text|
    ensures Covered(rs, i) && text[i] != NEWLINE ==> Masked(text, rs)[i] == SPACE
    ensures !Covered(rs, i) || text[i] == NEWLINE ==> Masked(text, rs)[i] == text[i]
    ensures Masked(text, rs)[i] == NEWLINE <==> text[i] == NEWLINE
    ensures Masked(text, rs)[i] != SPACE && Boundary(Masked(text, rs), i) ==> Boundary(text, i)
  {
  }

  /** One mutable slice overwritten byte by byte. */
  method BlankSlice(buf: array<Byte>, r: Range)
    requires r.start <= r.end <= buf.Length
    modifies buf
    ensures buf[..] == MaskOne(old(buf[..]), r)
  {
    for i := r.start to r.end
      invariant forall k | 0 <= k < buf.Length ::
        buf[k] == if r.start <= k < i then Blanked(old(buf[k])) else old(buf[k])
    {
      if buf[i] != NEWLINE {
        buf[i] := SPACE;
      }
    }
  }

  function Flatten(rss: seq<seq<Range>>): seq<Range>
    decreases |rss|
  {
    if rss == [] then [] else Flatten(rss[..|rss| - 1]) + rss[|rss| - 1]
  }

  lemma {:induction false} FlattenMember(rss: seq<seq<Range>>, p: nat, k: nat)
    requires p < |rss| && k < |rss[p]|
    ensures rss[p][k] in Flatten(rss)
    decreases |rss|
  {
    if p < |rss| - 1 { FlattenMember(rss[..|rss| - 1], p, k); }
  }

  /** Some pattern matched a range that holds offset i. */
  ghost predicate Excluded(matches: seq<seq<Range>>, i: nat) {
    exists p, k | 0 <= p < |matches| && 0 <= k < |matches[p]| :: matches[p][k].start <= i < matches[p][k].end
  }

  lemma {:induction false} FlattenOnly(rss: seq<seq<Range>>, r: Range)
    requires r in Flatten(rss)
    ensures exists p, k | 0 <= p < |rss| && 0 <= k < |rss[p]| :: rss[p][k] == r
    decreases |rss|
  {
    var n := |rss| - 1;
    if r in rss[n] {
      var k :| 0 <= k < |rss[n]| && rss[n][k] == r;
    } else {
      FlattenOnly(rss[..n], r);
      var p, k :| 0 <= p < n && 0 <= k < |rss[..n][p]| && rss[..n][p][k] == r;
      assert rss[p][k] == r;
    }
  }

  lemma CoveredIffExcluded(matches: seq<seq<Range>>, i: nat)
    ensures Covered(Flatten(matches), i) <==> Excluded(matches, i)
  {
    var rs := Flatten(matches);
    if Covered(rs, i) {
      var k :| 0 <= k < |rs| && rs[k].start <= i < rs[k].end;
      FlattenOnly(matches, rs[k]);
    }
    if Excluded(matches, i) {
      var p, k :| 0 <= p < |matches| && 0 <= k < |matches[p]| && matches[p][k].start <= i < matches[p][k].end;
      FlattenMember(matches, p, k);
    }
  }

  /** What the masked prompt is, byte by byte. */
  ghost predicate BlanksExcluded(prompt: seq<Byte>, matches: seq<seq<Range>>, masked: seq<Byte>) {
    && |masked| == |prompt|
    && forall i | 0 <= i < |prompt| ::
         masked[i] == if Excluded(matches, i) && prompt[i] != NEWLINE then SPACE else prompt[i]
  }

  lemma MaskedBlanksExcluded(prompt: seq<Byte>, matches: seq<seq<Range>>)
    ensures BlanksExcluded(prompt, matches, Masked(prompt, Flatten(matches)))
  {
    forall i | 0 <= i < |prompt|
      ensures Masked(prompt, Flatten(matches))[i] ==
        if Excluded(matches, i) && prompt[i] != NEWLINE then SPACE else prompt[i]
    {
      MaskedKeeps(prompt, Flatten(matches), i);
      CoveredIffExcluded(matches, i);
    }
  }

  /** The masking loop: for each exclusion pattern the ranges it matched in the
      original prompt, each taken as a checked mutable slice of the buffer. The
      check never refuses. */
  method MaskExclusions(prompt: seq<Byte>, matches: seq<seq<Range>>) returns (masked: seq<Byte>, refused: int)
    requires Valid(prompt) && AllAligned(prompt, Flatten(matches))
    ensures masked == Masked(prompt, Flatten(matches)) && BlanksExcluded(prompt, matches, masked)
    ensures Valid(masked) && refused == 0
  {
    var buf := new Byte[|prompt|](i requires 0 <= i < |prompt| => prompt[i]);
    refused := 0;
    ghost var done: seq<Range> := [];
    assert buf[..] == Masked(prompt, done);
    for p := 0 to |matches|
      invariant done == Flatten(matches[..p]) && refused == 0
      invariant buf[..] == Masked(prompt, done)
    {
      ghost var before := done;
      assert matches[..p + 1][..p] == matches[..p];
      for k := 0 to |matches[p]|
        invariant done == before + matches[p][..k] && refused == 0
        invariant buf[..] == Masked(prompt, done)
      {
        var r := matches[p][k];
        FlattenMember(matches, p, k);
        assert Aligned(prompt, r);
        BoundarySurvives(prompt, done, r.start);
        BoundarySurvives(prompt, done, r.end);
        if Aligned(buf[..], r) {
          BlankSlice(buf, r);
        } else {
          refused := refused + 1;
        }
        MaskedAppend(prompt, done, r);
        done := done + [r];
        assert matches[p][..k + 1] == matches[p][..k] + [r];
      }
      assert matches[p][..|matches[p]|] == matches[p];
    }
    assert matches[..|matches|] == matches;
    masked := buf[..];
    MaskedValid(prompt, Flatten(matches));
    MaskedBlanksExcluded(prompt, matches);
  }

  // ---------------------------------------------------------------- splitting

  function Ticks(text: seq<Byte>, i: nat): nat
    requires i <= |text|
  {
    if i == 0 then 0 else Ticks(text, i - 1) + if text[i - 1] == BACKTICK then 1 else 0
  }

  /** A sentence ends here: a terminator preceded by an even number of back-ticks. */
  predicate CutAt(text: seq<Byte>, i: nat)
    requires i < |text|
  {
    text[i] in {DOT, BANG, QUESTION, NEWLINE} && Ticks(text, i) % 2 == 0
  }

  function TicksBefore(text: seq<Byte>, i: nat): set<nat>
    requires i <= |text|
  {
    set j: nat | j < i && text[j] == 0x60
  }

  lemma {:induction false} TicksCount(text: seq<Byte>, i: nat)
    requires i <= |text|
    ensures Ticks(text, i) == |TicksBefore(text, i)|
  {
    if i > 0 {
      TicksCount(text, i - 1);
      if text[i - 1] == BACKTICK {
        assert TicksBefore(text, i) == TicksBefore(text, i - 1) + {i - 1};
      } else {
        assert TicksBefore(text, i) == TicksBefore(text, i - 1);
      }
    }
  }

  /** A cut is a full stop, exclamation mark, question mark or newline after an even
      number of back-ticks, and nothing else. */
  lemma CutMeans(text: seq<Byte>, i: nat)
    requires i < |text|
    ensures CutAt(text, i) <==> text[i] in {0x2E, 0x21, 0x3F, 0x0A} && |TicksBefore(text, i)| % 2 == 0
  {
    TicksCount(text, i);
  }

  function PiecesFrom(text: seq<Byte>, start: nat, i: nat): (rs: seq<Range>)
    requires start <= i <= |text|
    ensures forall k | 0 <= k < |rs| :: rs[k].start < rs[k].end <= |text|
    decreases |text| - i
  {
    if i == |text| then if start < i then [Range(start, i)] else []
    else if CutAt(text, i) then [Range(start, i + 1)] + PiecesFrom(text, i + 1, i + 1)
    else PiecesFrom(text, start, i + 1)
  }

  function Pieces(text: seq<Byte>): seq<Range> { PiecesFrom(text, 0, 0) }

  function NonBlank(text: seq<Byte>, isBlank: seq<Byte> -> bool, rs: seq<Range>): seq<Range>
    requires forall k | 0 <= k < |rs| :: rs[k].start < rs[k].end <= |text|
  {
    if rs == [] then []
    else (if isBlank(text[rs[0].start..rs[0].end]) then [] else [rs[0]]) + NonBlank(text, isBlank, rs[1..])
  }

  /** Exactly the pieces that are not blank are kept, in their order. */
  ghost predicate KeepsNonBlank(text: seq<Byte>, isBlank: seq<Byte> -> bool, rs: seq<Range>, out: seq<Range>)
    requires forall k | 0 <= k < |rs| :: rs[k].start < rs[k].end <= |text|
  {
    && Consecutive(out)
    && (forall k | 0 <= k < |rs| :: rs[k] in out <==> !isBlank(text[rs[k].start..rs[k].end]))
    && forall r | r in out :: r in rs
  }

  predicate Consecutive(rs: seq<Range>) { forall i, j | 0 <= i < j < |rs| :: rs[i].end <= rs[j].start }

  lemma {:induction false} NonBlankOnly(text: seq<Byte>, isBlank: seq<Byte> -> bool, rs: seq<Range>, r: Range)
    requires forall k | 0 <= k < |rs| :: rs[k].start < rs[k].end <= |text|
    requires r.start <= r.end <= |text|
    ensures r in NonBlank(text, isBlank, rs) <==> r in rs && !isBlank(text[r.start..r.end])
  {
    if rs != [] {
      NonBlankOnly(text, isBlank, rs[1..], r);
      assert rs == [rs[0]] + rs[1..];
    }
  }

  lemma AfterFirst(rs: seq<Range>, r: Range)
    requires rs != [] && Consecutive(rs) && r in rs[1..]
    ensures rs[0].end <= r.start
  {
    var k :| 0 <= k < |rs[1..]| && rs[1..][k] == r;
    assert rs[k + 1] == r;
  }

  lemma {:induction false} NonBlankInOrder(text: seq<Byte>, isBlank: seq<Byte> -> bool, rs: seq<Range>)
    requires forall k | 0 <= k < |rs| :: rs[k].start < rs[k].end <= |text|
    requires Consecutive(rs)
    ensures Consecutive(NonBlank(text, isBlank, rs))
    ensures forall r | r in NonBlank(text, isBlank, rs) :: r in rs
  {
    if rs != [] {
      var rest := NonBlank(text, isBlank, rs[1..]);
      NonBlankInOrder(text, isBlank, rs[1..]);
      assert rs == [rs[0]] + rs[1..];
      forall i | 0 <= i < |rest| ensures rs[0].end <= rest[i].start { AfterFirst(rs, rest[i]); }
    }
  }

  lemma NonBlankKeeps(text: seq<Byte>, isBlank: seq<Byte> -> bool, rs: seq<Range>)
    requires forall k | 0 <= k < |rs| :: rs[k].start < rs[k].end <= |text|
    requires Consecutive(rs)
    ensures KeepsNonBlank(text, isBlank, rs, NonBlank(text, isBlank, rs))
  {
    var out := NonBlank(text, isBlank, rs);
    NonBlankInOrder(text, isBlank, rs);
    forall k | 0 <= k < |rs| ensures rs[k] in out <==> !isBlank(text[rs[k].start..rs[k].end]) {
      NonBlankOnly(text, isBlank, rs, rs[k]);
    }
  }

  function Joined(text: seq<Byte>, rs: seq<Range>): seq<Byte>
    requires forall k | 0 <= k < |rs| :: rs[k].start < rs[k].end <= |text|
  {
    if rs == [] then [] else text[rs[0].start..rs[0].end] + Joined(text, rs[1..])
  }

  /** The pieces tile the text in order, and each but the last ends in a cut byte. */
  ghost predicate Tiles(text: seq<Byte>, start: nat, rs: seq<Range>)
    requires start <= |text|
    requires forall k | 0 <= k < |rs| :: rs[k].start < rs[k].end <= |text|
  {
    && (rs == [] <==> start == |text|)
    && (rs != [] ==> rs[0].start == start && rs[|rs| - 1].end == |text|)
    && forall k | 0 <= k < |rs| - 1 :: rs[k].end == rs[k + 1].start && CutAt(text, rs[k].end - 1)
  }

  lemma {:induction false} PiecesTile(text: seq<Byte>, start: nat, i: nat)
    requires start <= i <= |text|
    ensures Tiles(text, start, PiecesFrom(text, start, i))
    decreases |text| - i
  {
    if i < |text| {
      if CutAt(text, i) {
        PiecesTile(text, i + 1, i + 1);
        ConsTiles(text, start, i + 1, PiecesFrom(text, i + 1, i + 1));
      } else {
        PiecesTile(text, start, i + 1);
      }
    }
  }

  lemma ConsTiles(text: seq<Byte>, start: nat, mid: nat, rest: seq<Range>)
    requires start < mid <= |text| && CutAt(text, mid - 1)
    requires forall k | 0 <= k < |rest| :: rest[k].start < rest[k].end <= |text|
    requires Tiles(text, mid, rest)
    ensures Tiles(text, start, [Range(start, mid)] + rest)
  {
    var rs := [Range(start, mid)] + rest;
    forall k | 0 <= k < |rs| - 1 ensures rs[k].end == rs[k + 1].start && CutAt(text, rs[k].end - 1) {
      assert k > 0 ==> rs[k] == rest[k - 1];
      assert rs[k + 1] == rest[k];
    }
  }

  /** No piece holds a cut byte before its last byte. */
  lemma {:induction false} NoCutInside(text: seq<Byte>, start: nat, i: nat, k: nat, c: nat)
    requires start <= i <= |text| && k < |PiecesFrom(text, start, i)|
    requires var piece := PiecesFrom(text, start, i)[k]; piece.start <= c < piece.end - 1 && i <= c
    ensures !CutAt(text, c)
    decreases |text| - i
  {
    PiecesTile(text, start, i);
    if i < |text| {
      if CutAt(text, i) {
        var rest := PiecesFrom(text, i + 1, i + 1);
        if k > 0 {
          assert PiecesFrom(text, start, i)[k] == rest[k - 1];
          PiecesStartAfter(text, i + 1, i + 1, k - 1);
          NoCutInside(text, i + 1, i + 1, k - 1, c);
        }
      } else if c > i {
        NoCutInside(text, start, i + 1, k, c);
      }
    }
  }

  lemma {:induction false} PiecesStartAfter(text: seq<Byte>, start: nat, i: nat, k: nat)
    requires start <= i <= |text| && k < |PiecesFrom(text, start, i)|
    ensures PiecesFrom(text, start, i)[k].start >= start
    decreases |text| - i
  {
    if i < |text| {
      if CutAt(text, i) {
        if k > 0 {
          assert PiecesFrom(text, start, i)[k] == PiecesFrom(text, i + 1, i + 1)[k - 1];
          PiecesStartAfter(text, i + 1, i + 1, k - 1);
        }
      } else {
        PiecesStartAfter(text, start, i + 1, k);
      }
    }
  }

  lemma LastPieceConcatenates(text: seq<Byte>, start: nat)
    requires start <= |text|
    ensures Joined(text, PiecesFrom(text, start, |text|)) == text[start..]
  {
    if start < |text| {
      var rs := [Range(start, |text|)];
      assert rs[1..] == [] && Joined(text, rs[1..]) == [];
    }
  }

  lemma JoinedCons(text: seq<Byte>, start: nat, mid: nat, rest: seq<Range>)
    requires start < mid <= |text| && forall k | 0 <= k < |rest| :: rest[k].start < rest[k].end <= |text|
    requires Joined(text, rest) == text[mid..]
    ensures Joined(text, [Range(start, mid)] + rest) == text[start..]
  {
    assert ([Range(start, mid)] + rest)[1..] == rest;
    assert text[start..] == text[start..mid] + text[mid..];
  }

  /** Joining the pieces gives back the text. */
  lemma {:induction false} PiecesConcatenate(text: seq<Byte>, start: nat, i: nat)
    requires start <= i <= |text|
    ensures Joined(text, PiecesFrom(text, start, i)) == text[start..]
    decreases |text| - i
  {
    if i < |text| {
      if CutAt(text, i) {
        PiecesConcatenate(text, i + 1, i + 1);
        JoinedCons(text, start, i + 1, PiecesFrom(text, i + 1, i + 1));
      } else {
        PiecesConcatenate(text, start, i + 1);
      }
    } else {
      LastPieceConcatenates(text, start);
    }
  }

  /** Every piece starts and ends on a character boundary, so slicing is safe. */
  lemma PieceBoundaries(text: seq<Byte>, k: nat)
    requires Valid(text) && k < |Pieces(text)|
    ensures Aligned(text, Pieces(text)[k])
  {
    PiecesTile(text, 0, 0);
    var rs := Pieces(text);
    if k > 0 {
      assert rs[k - 1].end == rs[k].start && CutAt(text, rs[k - 1].end - 1);
      AsciiBoundaries(text, rs[k].start - 1);
    }
    if k < |rs| - 1 {
      assert CutAt(text, rs[k].end - 1);
      AsciiBoundaries(text, rs[k].end - 1);
    }
  }

  function Sentences(text: seq<Byte>, isBlank: seq<Byte> -> bool, start: nat, i: nat): seq<Range>
    requires start <= i <= |text|
  {
    NonBlank(text, isBlank, PiecesFrom(text, start, i))
  }

  /** A segment is pushed unless trimming leaves nothing of it. */
  function KeepNonBlank(text: seq<Byte>, isBlank: seq<Byte> -> bool, start: nat, end: nat): seq<Range>
    requires start <= end <= |text|
  {
    if isBlank(text[start..end]) then [] else [Range(start, end)]
  }

  lemma SentencesStep(text: seq<Byte>, isBlank: seq<Byte> -> bool, start: nat, i: nat)
    requires start <= i < |text|
    ensures Sentences(text, isBlank, start, i) ==
      if CutAt(text, i)
      then KeepNonBlank(text, isBlank, start, i + 1) + Sentences(text, isBlank, i + 1, i + 1)
      else Sentences(text, isBlank, start, i + 1)
  {
    if CutAt(text, i) {
      assert PiecesFrom(text, start, i)[1..] == PiecesFrom(text, i + 1, i + 1);
    }
  }

  lemma SentencesEnd(text: seq<Byte>, isBlank: seq<Byte> -> bool, start: nat)
    requires start <= |text|
    ensures Sentences(text, isBlank, start, |text|) ==
      if start < |text| then KeepNonBlank(text, isBlank, start, |text|) else []
  {
    if start < |text| {
      var rs := PiecesFrom(text, start, |text|);
      assert rs == [Range(start, |text|)] && rs[1..] == [];
      assert NonBlank(text, isBlank, rs[1..]) == [];
    }
  }

  lemma Reassociate(a: seq<Range>, b: seq<Range>, c: seq<Range>)
    ensures a + b + c == a + (b + c)
  {
  }

  datatype Scan = Scan(start: nat, out: seq<Range>)

  /** Where the scanning loop stands at offset i. */
  function ScanTo(text: seq<Byte>, isBlank: seq<Byte> -> bool, i: nat): (scan: Scan)
    requires i <= |text|
    ensures scan.start <= i
  {
    if i == 0 then Scan(0, [])
    else
      var before := ScanTo(text, isBlank, i - 1);
      if CutAt(text, i - 1) then Scan(i, before.out + KeepNonBlank(text, isBlank, before.start, i)) else before
  }

  /** What is out and what is still to come. */
  function ScannedAndRest(text: seq<Byte>, isBlank: seq<Byte> -> bool, i: nat): seq<Range>
    requires i <= |text|
  {
    var scan := ScanTo(text, isBlank, i);
    scan.out + Sentences(text, isBlank, scan.start, i)
  }

  lemma ScanStep(text: seq<Byte>, isBlank: seq<Byte> -> bool, i: nat)
    requires 0 < i <= |text|
    ensures ScannedAndRest(text, isBlank, i) == ScannedAndRest(text, isBlank, i - 1)
  {
    var before := ScanTo(text, isBlank, i - 1);
    SentencesStep(text, isBlank, before.start, i - 1);
    if CutAt(text, i - 1) {
      Reassociate(before.out, KeepNonBlank(text, isBlank, before.start, i), Sentences(text, isBlank, i, i));
    }
  }

  lemma {:induction false} ScanKeepsSentences(text: seq<Byte>, isBlank: seq<Byte> -> bool, i: nat)
    requires i <= |text|
    ensures ScannedAndRest(text, isBlank, i) == NonBlank(text, isBlank, Pieces(text))
  {
    if i > 0 {
      ScanKeepsSentences(text, isBlank, i - 1);
      ScanStep(text, isBlank, i);
    }
  }

  lemma {:induction false} TilesConsecutive(text: seq<Byte>, start: nat, rs: seq<Range>, i: nat, j: nat)
    requires start <= |text| && forall k | 0 <= k < |rs| :: rs[k].start < rs[k].end <= |text|
    requires Tiles(text, start, rs) && i < j < |rs|
    ensures rs[i].end <= rs[j].start
    decreases j - i
  {
    if i + 1 < j { TilesConsecutive(text, start, rs, i + 1, j); }
  }

  lemma PiecesConsecutive(text: seq<Byte>)
    ensures Consecutive(Pieces(text))
  {
    var rs := Pieces(text);
    PiecesTile(text, 0, 0);
    forall i, j | 0 <= i < j < |rs| ensures rs[i].end <= rs[j].start {
      TilesConsecutive(text, 0, rs, i, j);
    }
  }

  /** The scanning loop, returning each non-blank sentence with its offset. */
  method SplitSentences(text: seq<Byte>, isBlank: seq<Byte> -> bool) returns (out: seq<Range>)
    ensures out == NonBlank(text, isBlank, Pieces(text)) && KeepsNonBlank(text, isBlank, Pieces(text), out)
  {
    out := [];
    var start := 0;
    var inBacktick := false;
    for i := 0 to |text|
      invariant inBacktick <==> Ticks(text, i) % 2 == 1
      invariant Scan(start, out) == ScanTo(text, isBlank, i)
    {
      if text[i] == BACKTICK {
        inBacktick := !inBacktick;
        continue;
      }
      if !inBacktick && text[i] in {DOT, BANG, QUESTION, NEWLINE} {
        out := out + KeepNonBlank(text, isBlank, start, i + 1);
        start := i + 1;
      }
    }
    ScanKeepsSentences(text, isBlank, |text|);
    SentencesEnd(text, isBlank, start);
    if start < |text| {
      out := out + KeepNonBlank(text, isBlank, start, |text|);
    }
    PiecesConsecutive(text);
    NonBlankKeeps(text, isBlank, Pieces(text));
  }

  // ------------------------------------------------------------------ windows

  datatype Slice = Ok(start: nat, end: nat) | Panic

  function Min(a: nat, b: nat): nat { if a <= b then a else b }

  /** Walking back over at most `window` characters. */
  function Back(s: seq<Byte>, p: nat, window: nat): (lo: nat)
    requires p <= |s|
    ensures lo <= p
  {
    if window == 0 || p == 0 then p else Back(s, PrevStart(s, p), window - 1)
  }

  /** Walking forward over at most `window` characters. */
  function Forward(s: seq<Byte>, p: nat, window: nat): (hi: nat)
    requires p <= |s|
    ensures p <= hi <= |s|
    decreases window
  {
    if window == 0 || p == |s| then p else Forward(s, NextStart(s, p), window - 1)
  }

  /** `window_around`: up to `window` characters on each side of `pos`, taken from
      the original prompt. Slicing off a character boundary panics, and an empty
      window falls back to the whole prompt. */
  function WindowAround(prompt: seq<Byte>, pos: nat, window: nat): Slice {
    var p := Min(pos, |prompt|);
    if !Boundary(prompt, p) then Panic
    else
      var lo := if window == 0 then 0 else Back(prompt, p, window);
      var hi := if window == 0 || pos > |prompt| then |prompt| else Forward(prompt, p, window);
      Ok(lo, hi)
  }

  lemma {:induction false} BackExact(s: seq<Byte>, p: nat, window: nat)
    requires p <= |s| && Boundary(s, p) && (s != [] ==> !IsContinuation(s[0]))
    ensures var lo := Back(s, p, window); Boundary(s, lo) && Chars(s, lo, p) == Min(window, Chars(s, 0, p))
    decreases window
  {
    if window > 0 && p > 0 {
      var q := PrevStart(s, p);
      BackExact(s, q, window - 1);
      OneChar(s, q, p);
      CharsSplit(s, 0, q, p);
      CharsSplit(s, Back(s, p, window), q, p);
    }
  }

  lemma {:induction false} ForwardExact(s: seq<Byte>, p: nat, window: nat)
    requires p <= |s| && Boundary(s, p) && (s != [] ==> !IsContinuation(s[0]))
    ensures var hi := Forward(s, p, window); Boundary(s, hi) && Chars(s, p, hi) == Min(window, Chars(s, p, |s|))
    decreases window
  {
    if window > 0 && p < |s| {
      var q := NextStart(s, p);
      ForwardExact(s, q, window - 1);
      OneChar(s, p, q);
      CharsSplit(s, p, q, |s|);
      CharsSplit(s, p, q, Forward(s, p, window));
    }
  }

  /** Decoding up to `window` characters from offset p. */
  function Skip(s: seq<Byte>, p: nat, window: nat): nat
    requires p <= |s| && ValidFrom(s, p)
    decreases window
  {
    if window == 0 || p == |s| then p else Skip(s, p + CharLen(s, p), window - 1)
  }

  /** Walking over character starts is decoding. */
  lemma {:induction false} ForwardDecodes(s: seq<Byte>, p: nat, window: nat)
    requires Valid(s) && p <= |s| && Boundary(s, p)
    ensures ValidFrom(s, p) && Forward(s, p, window) == Skip(s, p, window)
    decreases window
  {
    ValidAt(s, p);
    if window > 0 && p < |s| {
      NextStartIsCharEnd(s, p);
      ForwardDecodes(s, NextStart(s, p), window - 1);
    }
  }

  /** The window panics exactly off a boundary; otherwise it starts and ends on
      boundaries and holds min(window, available) characters on each side, or the
      whole prompt for an empty window. */
  lemma WindowExact(prompt: seq<Byte>, pos: nat, window: nat)
    requires Valid(prompt)
    ensures WindowAround(prompt, pos, window).Panic? <==> pos < |prompt| && !Boundary(prompt, pos)
    ensures var w, p := WindowAround(prompt, pos, window), Min(pos, |prompt|);
      w.Ok? ==>
        && w.start <= p <= w.end <= |prompt|
        && Boundary(prompt, w.start) && Boundary(prompt, w.end)
        && (window == 0 ==> w.start == 0 && w.end == |prompt|)
        && (window > 0 ==>
              && Chars(prompt, w.start, p) == Min(window, Chars(prompt, 0, p))
              && Chars(prompt, p, w.end) == Min(window, Chars(prompt, p, |prompt|)))
  {
    ValidAt(prompt, 0);
    var p := Min(pos, |prompt|);
    if Boundary(prompt, p) {
      BackExact(prompt, p, window);
      ForwardExact(prompt, p, window);
    }
  }

  // --------------------------------------------------------------- end to end

  lemma AnyPieceAligned(text: seq<Byte>, piece: Range)
    requires Valid(text) && piece in Pieces(text)
    ensures Aligned(text, piece)
  {
    var k :| 0 <= k < |Pieces(text)| && Pieces(text)[k] == piece;
    PieceBoundaries(text, k);
  }

  lemma PieceOffset(text: seq<Byte>, piece: Range, at: nat)
    requires Aligned(text, piece) && at < piece.end - piece.start
    requires Boundary(text[piece.start..piece.end], at)
    ensures Boundary(text, piece.start + at)
  {
    assert text[piece.start..piece.end][at] == text[piece.start + at];
  }

  lemma NonBlankPosition(prompt: seq<Byte>, rs: seq<Range>, masked: seq<Byte>, pos: nat, window: nat)
    requires Valid(prompt) && pos < |masked| && masked == Masked(prompt, rs)
    requires Boundary(masked, pos) && masked[pos] != SPACE
    ensures pos < |prompt|
    ensures Boundary(prompt, pos) && WindowAround(prompt, pos, window).Ok?
  {
    MaskedKeeps(prompt, rs, pos);
    WindowExact(prompt, pos, window);
  }

  /** A cue found at a non-blank byte of a sentence of the masked prompt is a
      character boundary of the original prompt, so its window is always safe. */
  lemma CueWindowsAreSafe(prompt: seq<Byte>, rs: seq<Range>, masked: seq<Byte>, piece: Range, at: nat, window: nat)
    requires Valid(prompt) && AllAligned(prompt, rs)
    requires masked == Masked(prompt, rs) && piece in Pieces(masked)
    requires piece.start <= piece.end <= |masked| && at < piece.end - piece.start
    requires Boundary(masked[piece.start..piece.end], at) && masked[piece.start + at] != SPACE
    ensures piece.start + at < |prompt| && Boundary(prompt, piece.start + at)
    ensures WindowAround(prompt, piece.start + at, window).Ok?
  {
    MaskedValid(prompt, rs);
    AnyPieceAligned(masked, piece);
    PieceOffset(masked, piece, at);
    NonBlankPosition(prompt, rs, masked, piece.start + at, window);
  }
}
