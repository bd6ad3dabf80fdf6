/** Addresses in the page store that all nodes of one recursion tree share:
    accumulator slots, their privacy to a node, and the listing that leaves them out. */
module RlmSlots {

  import opened Lexicographic

  /** A task id: 32 hexadecimal digits. */
  type Uuid = u: seq<nat> | |u| == 32 && forall i | 0 <= i < |u| :: u[i] < 16
    witness seq(32, _ => 0)

  const HEX_DIGITS: string := "0123456789abcdef"
  const ACCUM_PREFIX: string := "accum/"

  function Hex(digits: seq<nat>): (text: string)
    requires forall i | 0 <= i < |digits| :: digits[i] < 16
    ensures |text| == |digits|
  {
    seq(|digits|, i requires 0 <= i < |digits| => HEX_DIGITS[digits[i]])
  }

  /** The hyphenated text form (section 4 of RFC 9562). */
  function UuidText(id: Uuid): (text: string)
    ensures |text| == 36
  {
    Hex(id[..8]) + "-" + Hex(id[8..12]) + "-" + Hex(id[12..16]) + "-" + Hex(id[16..20]) + "-" + Hex(id[20..])
  }

  lemma HexInjective(a: seq<nat>, b: seq<nat>)
    requires forall i | 0 <= i < |a| :: a[i] < 16
    requires forall i | 0 <= i < |b| :: b[i] < 16
    requires Hex(a) == Hex(b)
    ensures a == b
  {
    forall i | 0 <= i < |a| ensures a[i] == b[i] {
      assert Hex(a)[i] == Hex(b)[i];
    }
  }

  lemma UuidTextInjective(a: Uuid, b: Uuid)
    requires UuidText(a) == UuidText(b)
    ensures a == b
  {
    var s, t := UuidText(a), UuidText(b);
    assert Hex(a[..8]) == s[..8] && Hex(b[..8]) == t[..8];
    assert Hex(a[8..12]) == s[9..13] && Hex(b[8..12]) == t[9..13];
    assert Hex(a[12..16]) == s[14..18] && Hex(b[12..16]) == t[14..18];
    assert Hex(a[16..20]) == s[19..23] && Hex(b[16..20]) == t[19..23];
    assert Hex(a[20..]) == s[24..] && Hex(b[20..]) == t[24..];
    HexInjective(a[..8], b[..8]);
    HexInjective(a[8..12], b[8..12]);
    HexInjective(a[12..16], b[12..16]);
    HexInjective(a[16..20], b[16..20]);
    HexInjective(a[20..], b[20..]);
    assert a == a[..8] + a[8..12] + a[12..16] + a[16..20] + a[20..];
    assert b == b[..8] + b[8..12] + b[12..16] + b[16..20] + b[20..];
  }

  /** The value of a hexadecimal digit. */
  function HexValue(c: char): int {
    if '0' <= c <= '9' then c as int - '0' as int else c as int - 'a' as int + 10
  }

  /** Where the i-th digit of an id stands in its text. */
  function TextPosition(i: nat): nat {
    if i < 8 then i else if i < 12 then i + 1 else if i < 16 then i + 2 else if i < 20 then i + 3 else i + 4
  }

  lemma HexReads(digits: seq<nat>, i: nat)
    requires (forall k | 0 <= k < |digits| :: digits[k] < 16) && i < |digits|
    ensures HexValue(Hex(digits)[i]) == digits[i]
  {
    assert HEX_DIGITS[digits[i]] == (if digits[i] < 10 then ('0' as int + digits[i]) as char
                                     else ('a' as int + digits[i] - 10) as char);
  }

  /** The text reads back as the id: its digits in order, hyphens after the 8th, 12th,
      16th and 20th. */
  lemma UuidTextReads(id: Uuid, i: nat)
    requires i < 32
    ensures HexValue(UuidText(id)[TextPosition(i)]) == id[i]
    ensures forall k | k in {8, 13, 18, 23} :: UuidText(id)[k] == '-'
  {
    var s := UuidText(id);
    if i < 8 {
      assert s[i] == Hex(id[..8])[i];
      HexReads(id[..8], i);
    } else if i < 12 {
      assert s[i + 1] == Hex(id[8..12])[i - 8];
      HexReads(id[8..12], i - 8);
    } else if i < 16 {
      assert s[i + 2] == Hex(id[12..16])[i - 12];
      HexReads(id[12..16], i - 12);
    } else if i < 20 {
      assert s[i + 3] == Hex(id[16..20])[i - 16];
      HexReads(id[16..20], i - 16);
    } else {
      assert s[i + 4] == Hex(id[20..])[i - 20];
      HexReads(id[20..], i - 20);
    }
  }

  /** The decimal text of an ordinal. */
  function Decimal(n: nat): (text: string)
    ensures |text| >= 1
  {
    if n < 10 then [HEX_DIGITS[n]] else Decimal(n / 10) + [HEX_DIGITS[n % 10]]
  }

  lemma DigitsDiffer(a: nat, b: nat)
    requires a < 10 && b < 10 && HEX_DIGITS[a] == HEX_DIGITS[b]
    ensures a == b
  {
  }

  lemma DecimalEnds(n: nat)
    ensures var s := Decimal(n); s[|s| - 1] == HEX_DIGITS[n % 10] && (n >= 10 ==> s[..|s| - 1] == Decimal(n / 10))
    ensures n < 10 <==> |Decimal(n)| == 1
  {
  }

  lemma {:induction false} DecimalInjective(m: nat, n: nat)
    requires Decimal(m) == Decimal(n)
    ensures m == n
    decreases m
  {
    DecimalEnds(m);
    DecimalEnds(n);
    DigitsDiffer(m % 10, n % 10);
    if m >= 10 {
      DecimalInjective(m / 10, n / 10);
    }
  }

  /** The number a decimal text denotes. */
  function DecimalValue(text: string): int {
    if text == [] then 0
    else 10 * DecimalValue(text[..|text| - 1]) + (text[|text| - 1] as int - '0' as int)
  }

  lemma {:induction false} DecimalReads(n: nat)
    ensures DecimalValue(Decimal(n)) == n
  {
    DecimalEnds(n);
    var s := Decimal(n);
    assert HEX_DIGITS[n % 10] == ('0' as int + n % 10) as char;
    if n >= 10 {
      DecimalReads(n / 10);
    } else {
      assert s[..|s| - 1] == [];
    }
  }

  lemma {:induction false} DecimalIsNotSummary(n: nat)
    ensures Decimal(n) != "summary"
  {
    assert Decimal(n)[|Decimal(n)| - 1] in "0123456789";
  }

  // ------------------------------------------------------- accumulator slots

  function AccumBase(node: Uuid): string {
    ACCUM_PREFIX + UuidText(node) + "/"
  }

  function AccumSlot(node: Uuid, key: string): string {
    AccumBase(node) + key
  }

  /** The address spells out prefix, id and key. */
  lemma AccumSlotText(node: Uuid, key: string)
    ensures var slot := AccumSlot(node, key);
      && |slot| == 43 + |key| && slot[..6] == "accum/" && slot[6..42] == UuidText(node)
      && slot[42] == '/' && slot[43..] == key
  {
  }

  /** The slots private to one stitching node. */
  predicate OwnedBy(node: Uuid, slot: string) {
    AccumBase(node) <= slot
  }

  predicate IsAccumSlot(slot: string) {
    ACCUM_PREFIX <= slot
  }

  /** Two accumulator slots coincide only for the same node and the same key, and
      no slot belongs to two nodes. */
  lemma AccumSlotInjective(a: Uuid, k: string, b: Uuid, l: string)
    ensures AccumSlot(a, k) == AccumSlot(b, l) <==> a == b && k == l
    ensures OwnedBy(b, AccumSlot(a, k)) <==> a == b
    ensures IsAccumSlot(AccumSlot(a, k))
  {
    var s := AccumSlot(a, k);
    assert s[6..42] == UuidText(a) && s[43..] == k;
    if OwnedBy(b, s) {
      OwnersAgree(a, b, s);
    }
    if a == b && AccumSlot(a, k) == AccumSlot(b, l) {
      assert AccumSlot(b, l)[43..] == l;
    }
  }

  lemma OwnersAgree(a: Uuid, b: Uuid, slot: string)
    requires OwnedBy(a, slot) && OwnedBy(b, slot)
    ensures a == b
  {
    assert slot[6..42] == AccumBase(a)[6..42] == UuidText(a);
    assert slot[6..42] == AccumBase(b)[6..42] == UuidText(b);
    UuidTextInjective(a, b);
  }

  lemma OwnedIsAccum(node: Uuid, slot: string)
    requires OwnedBy(node, slot)
    ensures IsAccumSlot(slot)
  {
    assert AccumBase(node)[..6] == ACCUM_PREFIX;
  }

  // ---------------------------------------------------------- store listings

  type Store = map<string, string>

  datatype Snippet = Snippet(slot: string, text: string)

  function Codes(s: string): seq<nat> { seq(|s|, i requires 0 <= i < |s| => s[i] as int) }

  /** Address order: bytewise lexicographic. */
  predicate Before(a: string, b: string) { Less(Codes(a), Codes(b)) }

  lemma BeforeAsymmetric(a: string, b: string)
    requires Before(a, b)
    ensures !Before(b, a) && a != b
  {
    LessIrreflexive(Codes(a));
    if Before(b, a) { LessTransitive(Codes(a), Codes(b), Codes(a)); }
  }

  predicate InOrder(slots: seq<string>) {
    forall i, j | 0 <= i < j < |slots| :: Before(slots[i], slots[j])
  }

  /** What the index hands out: every resident slot once, in address order. */
  ghost predicate IsListing(store: Store, slots: seq<string>) {
    InOrder(slots) && forall s :: s in slots <==> s in store
  }

  /** The listed slots that hold a page and are not accumulators. */
  function SourceSlots(store: Store, slots: seq<string>): (sources: seq<string>)
    ensures forall i | 0 <= i < |sources| :: sources[i] in store
  {
    if slots == [] then []
    else if IsAccumSlot(slots[0]) || slots[0] !in store then SourceSlots(store, slots[1..])
    else [slots[0]] + SourceSlots(store, slots[1..])
  }

  function Take<T>(xs: seq<T>, n: nat): seq<T> {
    if n <= |xs| then xs[..n] else xs
  }

  function Snippets(store: Store, slots: seq<string>): seq<Snippet>
    requires forall i | 0 <= i < |slots| :: slots[i] in store
  {
    seq(|slots|, i requires 0 <= i < |slots| => Snippet(slots[i], store[slots[i]]))
  }

  lemma SnippetsAppend(store: Store, slots: seq<string>, slot: string)
    requires slot in store && forall i | 0 <= i < |slots| :: slots[i] in store
    ensures Snippets(store, slots + [slot]) == Snippets(store, slots) + [Snippet(slot, store[slot])]
  {
  }

  lemma {:induction false} SourceSlotsContents(store: Store, slots: seq<string>)
    requires InOrder(slots)
    ensures InOrder(SourceSlots(store, slots))
    ensures forall s :: s in SourceSlots(store, slots) <==> s in slots && s in store && !("accum/" <= s)
    decreases |slots|
  {
    if slots != [] {
      assert InOrder(slots[1..]) by {
        forall i, j | 0 <= i < j < |slots| - 1 ensures Before(slots[1..][i], slots[1..][j]) {}
      }
      SourceSlotsContents(store, slots[1..]);
      assert slots == [slots[0]] + slots[1..];
      var rest := SourceSlots(store, slots[1..]);
      forall j | 0 <= j < |rest| ensures Before(slots[0], rest[j]) {
        assert rest[j] in slots[1..];
        var k :| 0 <= k < |slots| - 1 && slots[1..][k] == rest[j];
        assert slots[k + 1] == rest[j];
      }
    }
  }

  /** `store_snippets`: walks the listing, skips accumulator pages and pages that are
      not resident, stops at `max`. */
  method StoreSnippets(store: Store, slots: seq<string>, max: nat) returns (out: seq<Snippet>)
    ensures out == Snippets(store, Take(SourceSlots(store, slots), max))
    ensures |out| == if max <= |SourceSlots(store, slots)| then max else |SourceSlots(store, slots)|
    ensures forall i | 0 <= i < |out| ::
      out[i].slot == SourceSlots(store, slots)[i] && out[i].text == store[out[i].slot]
  {
    ghost var sources := SourceSlots(store, slots);
    out := [];
    var i := 0;
    while i < |slots| && |out| < max
      invariant 0 <= i <= |slots| && |out| <= max && |out| <= |sources|
      invariant SourceSlots(store, slots[i..]) == sources[|out|..]
      invariant out == Snippets(store, sources[..|out|])
    {
      assert slots[i..][1..] == slots[i + 1..];
      if !IsAccumSlot(slots[i]) && slots[i] in store {
        assert sources[|out|] == slots[i];
        assert sources[..|out| + 1] == sources[..|out|] + [slots[i]];
        SnippetsAppend(store, sources[..|out|], slots[i]);
        out := out + [Snippet(slots[i], store[slots[i]])];
      }
      i := i + 1;
    }
    assert i == |slots| ==> SourceSlots(store, slots[i..]) == [];
    assert Take(sources, max) == sources[..|out|];
  }

  lemma {:induction false} OrderedListsUnique(a: seq<string>, b: seq<string>)
    requires InOrder(a) && InOrder(b)
    requires forall s :: s in a <==> s in b
    ensures a == b
  {
    assert b != [] ==> b[0] in b;
    assert a != [] ==> a[0] in a;
    if a != [] {
      HeadsAgree(a, b);
      assert a == [a[0]] + a[1..] && b == [b[0]] + b[1..];
      TailOmitsHead(a);
      TailOmitsHead(b);
      assert InOrder(a[1..]) && InOrder(b[1..]);
      forall s ensures s in a[1..] <==> s in b[1..] {
        assert s in a <==> s == a[0] || s in a[1..];
        assert s in b <==> s == b[0] || s in b[1..];
      }
      OrderedListsUnique(a[1..], b[1..]);
    }
  }

  lemma TailOmitsHead(a: seq<string>)
    requires a != [] && InOrder(a)
    ensures a[0] !in a[1..]
  {
    forall k | 0 <= k < |a| - 1 ensures a[1..][k] != a[0] {
      BeforeAsymmetric(a[0], a[k + 1]);
    }
  }

  lemma HeadsAgree(a: seq<string>, b: seq<string>)
    requires a != [] && b != [] && InOrder(a) && InOrder(b)
    requires a[0] in b && b[0] in a
    ensures a[0] == b[0]
  {
    var j :| 0 <= j < |b| && b[j] == a[0];
    var i :| 0 <= i < |a| && a[i] == b[0];
    if i > 0 && j > 0 {
      assert Before(a[0], a[i]) && Before(b[0], b[j]);
      BeforeAsymmetric(a[0], b[0]);
    }
  }

  ghost predicate SameSources(a: Store, b: Store) {
    forall s | !IsAccumSlot(s) :: (s in a <==> s in b) && (s in a ==> a[s] == b[s])
  }

  /** The snippets listed from a store depend only on its non-accumulator pages. */
  lemma SnippetsIgnoreAccumulators(a: Store, slotsA: seq<string>, b: Store, slotsB: seq<string>, max: nat)
    requires IsListing(a, slotsA) && IsListing(b, slotsB) && SameSources(a, b)
    ensures SourceSlots(a, slotsA) == SourceSlots(b, slotsB)
    ensures Snippets(a, Take(SourceSlots(a, slotsA), max)) == Snippets(b, Take(SourceSlots(b, slotsB), max))
  {
    SourceSlotsContents(a, slotsA);
    SourceSlotsContents(b, slotsB);
    OrderedListsUnique(SourceSlots(a, slotsA), SourceSlots(b, slotsB));
    var slots := Take(SourceSlots(a, slotsA), max);
    forall i | 0 <= i < |slots| ensures a[slots[i]] == b[slots[i]] {
      assert SourceSlots(a, slotsA)[i] == slots[i] && slots[i] in SourceSlots(a, slotsA);
    }
  }
}
