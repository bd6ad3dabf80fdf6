/** The configuration upgrade: `merge_toml_values` and its use in `Config::upgrade`.
    A TOML table is a finite map (the crate's default table is ordered by key, so
    a map loses nothing); equality of values is the derived one, in which a
    not-a-number float differs from itself and the two zeros are equal. */
module TomlMerge {

  import opened Common

  datatype Double = NaN | Zero(negative: bool) | Infinite(negative: bool) | Finite(value: real)

  datatype Value =
    | Str(text: string)
    | Integer(number: int)
    | Float(double: Double)
    | Boolean(flag: bool)
    | Datetime(stamp: string)
    | Array(items: seq<Value>)
    | Table(entries: map<string, Value>)

  // ---------------------------------------------------------------- equality

  predicate SameDouble(a: Double, b: Double) {
    !a.NaN? && !b.NaN? && (a == b || (a.Zero? && b.Zero?))
  }

  /** The derived equality of TOML values. */
  predicate Same(a: Value, b: Value) {
    match (a, b)
    case (Float(x), Float(y)) => SameDouble(x, y)
    case (Array(xs), Array(ys)) => |xs| == |ys| && forall i | 0 <= i < |xs| :: Same(xs[i], ys[i])
    case (Table(m), Table(n)) => m.Keys == n.Keys && forall k | k in m :: Same(m[k], n[k])
    case (_, _) => a == b
  }

  predicate NaNFree(v: Value) {
    match v
    case Float(x) => !x.NaN?
    case Array(xs) => forall i | 0 <= i < |xs| :: NaNFree(xs[i])
    case Table(m) => forall k | k in m :: NaNFree(m[k])
    case _ => true
  }

  lemma {:induction false} SameSymmetric(a: Value, b: Value)
    requires Same(a, b)
    ensures Same(b, a)
    decreases a
  {
    match (a, b)
    case (Array(xs), Array(ys)) =>
      forall i | 0 <= i < |xs| ensures Same(ys[i], xs[i]) { SameSymmetric(xs[i], ys[i]); }
    case (Table(m), Table(n)) =>
      forall k | k in n ensures Same(n[k], m[k]) { SameSymmetric(m[k], n[k]); }
    case (_, _) =>
  }

  lemma {:induction false} SameTransitive(a: Value, b: Value, c: Value)
    requires Same(a, b) && Same(b, c)
    ensures Same(a, c)
    decreases a
  {
    match (a, b, c)
    case (Array(xs), Array(ys), Array(zs)) =>
      forall i | 0 <= i < |xs| ensures Same(xs[i], zs[i]) { SameTransitive(xs[i], ys[i], zs[i]); }
    case (Table(m), Table(n), Table(o)) =>
      forall k | k in m ensures Same(m[k], o[k]) { SameTransitive(m[k], n[k], o[k]); }
    case (_, _, _) =>
  }

  /** A value equals itself exactly when it holds no not-a-number. */
  lemma {:induction false} SameReflexiveIff(v: Value)
    ensures Same(v, v) <==> NaNFree(v)
  {
    match v
    case Array(xs) =>
      forall i | 0 <= i < |xs| ensures Same(xs[i], xs[i]) <==> NaNFree(xs[i]) { SameReflexiveIff(xs[i]); }
    case Table(m) =>
      forall k | k in m ensures Same(m[k], m[k]) <==> NaNFree(m[k]) { SameReflexiveIff(m[k]); }
    case _ =>
  }

  /** The value with its negative zeros made positive. */
  function Canonical(v: Value): Value {
    match v
    case Float(x) => if x.Zero? then Float(Zero(false)) else v
    case Array(xs) => Array(seq(|xs|, i requires 0 <= i < |xs| => Canonical(xs[i])))
    case Table(m) => Table(map k | k in m :: Canonical(m[k]))
    case _ => v
  }

  /** Equality is identity up to the sign of zero, among values that hold no
      not-a-number. */
  lemma {:induction false} SameIffCanonical(a: Value, b: Value)
    ensures Same(a, b) <==> NaNFree(a) && NaNFree(b) && Canonical(a) == Canonical(b)
    decreases a
  {
    match (a, b)
    case (Array(xs), Array(ys)) =>
      if |xs| == |ys| {
        forall i | 0 <= i < |xs|
          ensures Same(xs[i], ys[i]) <==> NaNFree(xs[i]) && NaNFree(ys[i]) && Canonical(xs[i]) == Canonical(ys[i])
        {
          SameIffCanonical(xs[i], ys[i]);
        }
        var ca, cb := Canonical(a).items, Canonical(b).items;
        assert forall i | 0 <= i < |xs| :: ca[i] == Canonical(xs[i]) && cb[i] == Canonical(ys[i]);
        if Same(a, b) { assert ca == cb; }
      } else {
        assert |Canonical(a).items| != |Canonical(b).items|;
      }
    case (Table(m), Table(n)) =>
      forall k | k in m && k in n
        ensures Same(m[k], n[k]) <==> NaNFree(m[k]) && NaNFree(n[k]) && Canonical(m[k]) == Canonical(n[k])
      {
        SameIffCanonical(m[k], n[k]);
      }
      assert Canonical(a).entries.Keys == m.Keys && Canonical(b).entries.Keys == n.Keys;
    case (_, _) =>
  }

  // ---------------------------------------------------------------- the merge

  predicate Contains(items: seq<Value>, v: Value) {
    exists i | 0 <= i < |items| :: Same(items[i], v)
  }

  function AppendMissing(items: seq<Value>, defaults: seq<Value>): seq<Value>
    decreases |defaults|
  {
    if defaults == [] then items
    else AppendMissing(if Contains(items, defaults[0]) then items else items + [defaults[0]], defaults[1..])
  }

  function MergeEntry(d: Value, u: Value, k: string): Value
    requires d.Table? && u.Table? && (k in d.entries || k in u.entries)
    decreases u, 0
  {
    if k !in u.entries then d.entries[k]
    else if k !in d.entries then u.entries[k]
    else Merge(d.entries[k], u.entries[k])
  }

  function Merge(defaults: Value, user: Value): Value
    decreases user, 1
  {
    match (defaults, user)
    case (Table(d), Table(u)) => Table(map k | k in d.Keys + u.Keys :: MergeEntry(defaults, user, k))
    case (Array(d), Array(u)) => Array(AppendMissing(u, d))
    case (_, _) => user
  }

  /** The array arm: the user's items, then each default item not yet present. */
  method MergeArrays(defaults: seq<Value>, user: seq<Value>) returns (merged: seq<Value>)
    ensures merged == AppendMissing(user, defaults)
  {
    merged := user;
    var i := 0;
    while i < |defaults|
      invariant 0 <= i <= |defaults|
      invariant AppendMissing(merged, defaults[i..]) == AppendMissing(user, defaults)
    {
      assert defaults[i..][1..] == defaults[i + 1..];
      if !Contains(merged, defaults[i]) {
        merged := merged + [defaults[i]];
      }
      i := i + 1;
    }
  }

  /** The recursive merge as written: the table arm walks the user's keys in any
      order, removing and reinserting entries of the default table. */
  method MergeTomlValues(defaults: Value, user: Value) returns (merged: Value)
    ensures merged == Merge(defaults, user)
    decreases user
  {
    match (defaults, user)
    case (Table(d), Table(u)) =>
      var table := d;
      var rest := u.Keys;
      while rest != {}
        invariant rest <= u.Keys
        invariant table.Keys == d.Keys + (u.Keys - rest)
        invariant forall k | k in table :: table[k] == if k in rest then d[k] else MergeEntry(defaults, user, k)
      {
        var key :| key in rest;
        var value := u[key];
        if key in table {
          var inner := MergeTomlValues(table[key], u[key]);
          value := inner;
        }
        table := (table - {key})[key := value];
        rest := rest - {key};
      }
      merged := Table(table);
      assert table == Merge(defaults, user).entries;
    case (Array(d), Array(u)) =>
      var items := MergeArrays(d, u);
      merged := Array(items);
    case (_, _) =>
      merged := user;
  }

  // ------------------------------------------------- meaning, path by path

  function Lookup(v: Value, path: seq<string>): Option<Value>
    decreases |path|
  {
    if path == [] then Some(v)
    else if v.Table? && path[0] in v.entries then Lookup(v.entries[path[0]], path[1..])
    else None
  }

  /** The user's value cuts the path off: it is not a table at some proper prefix. */
  predicate Cut(v: Value, path: seq<string>)
    decreases |path|
  {
    path != [] && (!v.Table? || (path[0] in v.entries && Cut(v.entries[path[0]], path[1..])))
  }

  /** What the merged configuration holds at every path. */
  lemma {:induction false} LookupMerged(d: Value, u: Value, path: seq<string>)
    ensures Lookup(Merge(d, u), path) ==
      match (Lookup(d, path), Lookup(u, path)) {
        case (Some(x), Some(y)) => Some(Merge(x, y))
        case (None, Some(y)) => Some(y)
        case (x, None) => if Cut(u, path) then None else x
      }
    decreases |path|
  {
    if path != [] && d.Table? && u.Table? {
      var k := path[0];
      if k in d.entries && k in u.entries {
        LookupMerged(d.entries[k], u.entries[k], path[1..]);
      } else if k in u.entries {
        LookupCut(u.entries[k], path[1..]);
      }
    } else {
      LookupCut(u, path);
    }
  }

  lemma {:induction false} LookupCut(v: Value, path: seq<string>)
    ensures Lookup(v, path).Some? ==> !Cut(v, path)
    ensures path != [] && !v.Table? ==> Cut(v, path)
    decreases |path|
  {
    if path != [] && v.Table? && path[0] in v.entries {
      LookupCut(v.entries[path[0]], path[1..]);
    }
  }

  // ------------------------------------------------------- when nothing is new

  /** The user's value already holds everything in the defaults. */
  predicate Absorbs(d: Value, u: Value) {
    match (d, u)
    case (Table(m), Table(n)) => forall k | k in m :: k in n && Absorbs(m[k], n[k])
    case (Array(xs), Array(ys)) => forall i | 0 <= i < |xs| :: Contains(ys, xs[i])
    case (_, _) => true
  }

  lemma {:induction false} AppendMissingGrows(items: seq<Value>, defaults: seq<Value>)
    ensures items <= AppendMissing(items, defaults)
    ensures AppendMissing(items, defaults) == items <==> forall i | 0 <= i < |defaults| :: Contains(items, defaults[i])
    decreases |defaults|
  {
    if defaults != [] {
      var next := if Contains(items, defaults[0]) then items else items + [defaults[0]];
      AppendMissingGrows(next, defaults[1..]);
      if Contains(items, defaults[0]) {
        assert forall i | 0 < i < |defaults| :: defaults[i] == defaults[1..][i - 1];
      }
    }
  }

  /** A merge leaves the user's value untouched exactly when it absorbs the defaults. */
  lemma {:induction false} MergeUnchangedIff(d: Value, u: Value)
    ensures Merge(d, u) == u <==> Absorbs(d, u)
    decreases u
  {
    match (d, u)
    case (Table(m), Table(n)) =>
      forall k | k in m && k in n ensures Merge(m[k], n[k]) == n[k] <==> Absorbs(m[k], n[k]) {
        MergeUnchangedIff(m[k], n[k]);
      }
      var merged := Merge(d, u).entries;
      if Absorbs(d, u) {
        forall k | k in n ensures merged[k] == n[k] { assert merged[k] == MergeEntry(d, u, k); }
        assert merged == n;
      } else {
        var k :| k in m && !(k in n && Absorbs(m[k], n[k]));
        assert k in merged && merged[k] == MergeEntry(d, u, k);
      }
    case (Array(xs), Array(ys)) =>
      AppendMissingGrows(ys, xs);
    case (_, _) =>
  }

  /** Every array reached through tables is free of not-a-number. */
  predicate Stable(v: Value) {
    match v
    case Table(m) => forall k | k in m :: Stable(m[k])
    case Array(xs) => forall i | 0 <= i < |xs| :: NaNFree(xs[i])
    case _ => true
  }

  lemma SameNeedsNaNFree(a: Value, b: Value)
    requires Same(a, b)
    ensures NaNFree(b)
  {
    SameSymmetric(a, b);
    SameTransitive(b, a, b);
    SameReflexiveIff(b);
  }

  /** Whatever extends a stable value absorbs it. */
  lemma {:induction false} AbsorbsItselfIff(v: Value)
    ensures Absorbs(v, v) <==> Stable(v)
  {
    match v
    case Table(m) =>
      forall k | k in m ensures Absorbs(m[k], m[k]) <==> Stable(m[k]) { AbsorbsItselfIff(m[k]); }
    case Array(xs) =>
      forall i | 0 <= i < |xs| ensures Contains(xs, xs[i]) <==> NaNFree(xs[i]) { ContainedIffNaNFree(xs, xs, i); }
    case _ =>
  }

  lemma ContainedIffNaNFree(items: seq<Value>, xs: seq<Value>, i: nat)
    requires i < |xs|
    requires NaNFree(xs[i]) ==> xs[i] in items
    ensures Contains(items, xs[i]) <==> NaNFree(xs[i])
  {
    if Contains(items, xs[i]) {
      var j :| 0 <= j < |items| && Same(items[j], xs[i]);
      SameNeedsNaNFree(items[j], xs[i]);
    }
    if NaNFree(xs[i]) {
      SameReflexiveIff(xs[i]);
    }
  }

  /** Merging a value with itself changes nothing, exactly for stable values. */
  lemma MergeIdempotentIff(v: Value)
    ensures Merge(v, v) == v <==> Stable(v)
  {
    MergeUnchangedIff(v, v);
    AbsorbsItselfIff(v);
  }

  // ---------------------------------------------------------- upgrading twice

  lemma {:induction false} AppendMissingContains(items: seq<Value>, defaults: seq<Value>, x: Value)
    requires Contains(items, x) || (NaNFree(x) && Contains(defaults, x))
    ensures Contains(AppendMissing(items, defaults), x)
    decreases |defaults|
  {
    if defaults != [] {
      var next := if Contains(items, defaults[0]) then items else items + [defaults[0]];
      if Contains(items, x) {
        var j :| 0 <= j < |items| && Same(items[j], x);
        assert next[j] == items[j];
      } else {
        var j :| 0 <= j < |defaults| && Same(defaults[j], x);
        if j == 0 {
          if Contains(items, defaults[0]) {
            var i :| 0 <= i < |items| && Same(items[i], defaults[0]);
            SameTransitive(items[i], defaults[0], x);
          } else {
            assert Same(next[|items|], x);
          }
        } else {
          assert Same(defaults[1..][j - 1], x);
        }
      }
      AppendMissingContains(next, defaults[1..], x);
    }
  }

  lemma {:induction false} MergedAbsorbsDefaults(d: Value, u: Value)
    requires Stable(d)
    ensures Absorbs(d, Merge(d, u))
    decreases u
  {
    match (d, u)
    case (Table(m), Table(n)) =>
      var merged := Merge(d, u).entries;
      forall k | k in m ensures k in merged && Absorbs(m[k], merged[k]) {
        assert merged[k] == MergeEntry(d, u, k);
        if k in n {
          MergedAbsorbsDefaults(m[k], n[k]);
        } else {
          AbsorbsItselfIff(m[k]);
        }
      }
    case (Array(xs), Array(ys)) =>
      forall i | 0 <= i < |xs| ensures Contains(AppendMissing(ys, xs), xs[i]) {
        SameReflexiveIff(xs[i]);
        AppendMissingContains(ys, xs, xs[i]);
      }
    case (_, _) =>
  }

  lemma {:induction false} SelfMergeAbsorbedNeedsStable(d: Value)
    requires Absorbs(d, Merge(d, d))
    ensures Stable(d)
  {
    match d
    case Table(m) =>
      forall k | k in m ensures Stable(m[k]) {
        assert Merge(d, d).entries[k] == MergeEntry(d, d, k);
        SelfMergeAbsorbedNeedsStable(m[k]);
      }
    case Array(xs) =>
      forall i | 0 <= i < |xs| ensures NaNFree(xs[i]) {
        var merged := AppendMissing(xs, xs);
        assert Contains(merged, xs[i]);
        var j :| 0 <= j < |merged| && Same(merged[j], xs[i]);
        SameNeedsNaNFree(merged[j], xs[i]);
      }
    case _ =>
  }

  predicate SecondMergeSettles(d: Value, u: Value) {
    Merge(d, Merge(d, u)) == Merge(d, u)
  }

  /** A second upgrade with the same defaults never changes a configuration,
      exactly when those defaults are stable. */
  lemma UpgradeClosedIff(d: Value)
    ensures (forall u :: SecondMergeSettles(d, u)) <==> Stable(d)
  {
    if Stable(d) {
      forall u ensures SecondMergeSettles(d, u) {
        MergedAbsorbsDefaults(d, u);
        MergeUnchangedIff(d, Merge(d, u));
      }
    }
    if forall u :: SecondMergeSettles(d, u) {
      assert SecondMergeSettles(d, d);
      MergeUnchangedIff(d, Merge(d, d));
      SelfMergeAbsorbedNeedsStable(d);
    }
  }

  lemma {:induction false} AppendMissingConcat(items: seq<Value>, xs: seq<Value>, ys: seq<Value>)
    ensures AppendMissing(items, xs + ys) == AppendMissing(AppendMissing(items, xs), ys)
    decreases |xs|
  {
    if xs == [] {
      assert xs + ys == ys;
    } else {
      assert (xs + ys)[1..] == xs[1..] + ys;
      AppendMissingConcat(if Contains(items, xs[0]) then items else items + [xs[0]], xs[1..], ys);
    }
  }

  /** Once the user's own items are settled, appending an already merged list
      reproduces it. */
  /** Positions below n, in order and without repeats. */
  predicate Increasing(ix: seq<nat>, n: nat) {
    && (forall i | 0 <= i < |ix| :: ix[i] < n)
    && forall i, j | 0 <= i < j < |ix| :: ix[i] < ix[j]
  }

  function At(xs: seq<Value>, ix: seq<nat>): seq<Value>
    requires Increasing(ix, |xs|)
  {
    seq(|ix|, i requires 0 <= i < |ix| => xs[ix[i]])
  }

  ghost predicate EqualsNone(xs: seq<Value>, v: Value) { forall i | 0 <= i < |xs| :: !Same(xs[i], v) }

  ghost predicate EqualsNoneBefore(xs: seq<Value>, ix: seq<nat>, d: nat)
    requires Increasing(ix, |xs|) && d < |xs|
  {
    forall j | 0 <= j < |ix| && ix[j] < d :: !Same(xs[ix[j]], xs[d])
  }

  /** A default is picked exactly if it equals none of the user's items and no default
      picked before it. */
  ghost predicate PickedIfMissing(items: seq<Value>, defaults: seq<Value>, ix: seq<nat>, d: nat)
    requires Increasing(ix, |defaults|) && d < |defaults|
  {
    d in ix <==> EqualsNone(items, defaults[d]) && EqualsNoneBefore(defaults, ix, d)
  }

  lemma AppendSnoc(items: seq<Value>, defaults: seq<Value>, n: nat)
    requires n < |defaults|
    ensures var before := AppendMissing(items, defaults[..n]);
      AppendMissing(items, defaults[..n + 1]) ==
        if Contains(before, defaults[n]) then before else before + [defaults[n]]
  {
    assert defaults[..n + 1] == defaults[..n] + [defaults[n]] && [defaults[n]][1..] == [];
    AppendMissingConcat(items, defaults[..n], [defaults[n]]);
  }

  lemma AtSnoc(xs: seq<Value>, ix: seq<nat>, n: nat)
    requires n < |xs| && Increasing(ix, n)
    ensures Increasing(ix, |xs|) && Increasing(ix + [n], n + 1) && Increasing(ix + [n], |xs|)
    ensures At(xs, ix + [n]) == At(xs, ix) + [xs[n]]
  {
  }

  lemma ContainsPicked(items: seq<Value>, defaults: seq<Value>, ix: seq<nat>, n: nat)
    requires n < |defaults| && Increasing(ix, n) && Increasing(ix, |defaults|)
    ensures Contains(items + At(defaults, ix), defaults[n]) <==>
      !(EqualsNone(items, defaults[n]) && EqualsNoneBefore(defaults, ix, n))
  {
    var all, v := items + At(defaults, ix), defaults[n];
    if i :| 0 <= i < |items| && Same(items[i], v) { assert Same(all[i], v); }
    if j :| 0 <= j < |ix| && ix[j] < n && Same(defaults[ix[j]], v) { assert Same(all[|items| + j], v); }
  }

  lemma LaterPickChangesNothing(items: seq<Value>, defaults: seq<Value>, ix: seq<nat>, n: nat, d: nat)
    requires d < n < |defaults| && Increasing(ix, n) && Increasing(ix, |defaults|)
    requires Increasing(ix + [n], |defaults|)
    ensures PickedIfMissing(items, defaults, ix + [n], d) <==> PickedIfMissing(items, defaults, ix, d)
  {
    var more := ix + [n];
    assert forall j | 0 <= j < |ix| :: more[j] == ix[j];
    assert d in more <==> d in ix;
  }

  /** The first n defaults have been dealt with by picking these. */
  ghost predicate Picks(items: seq<Value>, defaults: seq<Value>, ix: seq<nat>, n: nat)
    requires n <= |defaults|
  {
    && Increasing(ix, n) && Increasing(ix, |defaults|)
    && AppendMissing(items, defaults[..n]) == items + At(defaults, ix)
    && forall d | 0 <= d < n :: PickedIfMissing(items, defaults, ix, d)
  }

  lemma PickNext(items: seq<Value>, defaults: seq<Value>, ix: seq<nat>, n: nat)
    requires n < |defaults| && Picks(items, defaults, ix, n)
    requires !Contains(items + At(defaults, ix), defaults[n])
    ensures Picks(items, defaults, ix + [n], n + 1)
  {
    AppendSnoc(items, defaults, n);
    AtSnoc(defaults, ix, n);
    ContainsPicked(items, defaults, ix, n);
    forall d | 0 <= d < n ensures PickedIfMissing(items, defaults, ix + [n], d) {
      LaterPickChangesNothing(items, defaults, ix, n, d);
    }
    assert (ix + [n])[|ix|] == n;
    assert EqualsNoneBefore(defaults, ix + [n], n) <==> EqualsNoneBefore(defaults, ix, n);
  }

  lemma SkipNext(items: seq<Value>, defaults: seq<Value>, ix: seq<nat>, n: nat)
    requires n < |defaults| && Picks(items, defaults, ix, n)
    requires Contains(items + At(defaults, ix), defaults[n])
    ensures Picks(items, defaults, ix, n + 1)
  {
    AppendSnoc(items, defaults, n);
    ContainsPicked(items, defaults, ix, n);
  }

  lemma {:induction false} PicksExist(items: seq<Value>, defaults: seq<Value>, n: nat) returns (ix: seq<nat>)
    requires n <= |defaults|
    ensures Picks(items, defaults, ix, n)
  {
    if n == 0 {
      ix := [];
      assert items + At(defaults, ix) == items && defaults[..0] == [];
    } else {
      ix := PicksExist(items, defaults, n - 1);
      if Contains(items + At(defaults, ix), defaults[n - 1]) {
        SkipNext(items, defaults, ix, n - 1);
      } else {
        PickNext(items, defaults, ix, n - 1);
        ix := ix + [n - 1];
      }
    }
  }

  /** What merging arrays adds after the user's items: the missing defaults, each
      once, in their own order. */
  lemma AppendMissingMeans(items: seq<Value>, defaults: seq<Value>) returns (ix: seq<nat>)
    ensures Increasing(ix, |defaults|) && AppendMissing(items, defaults) == items + At(defaults, ix)
    ensures forall d | 0 <= d < |defaults| :: PickedIfMissing(items, defaults, ix, d)
  {
    ix := PicksExist(items, defaults, |defaults|);
    assert defaults[..|defaults|] == defaults;
  }

  lemma {:induction false} AppendMerged(items: seq<Value>, defaults: seq<Value>)
    requires forall i | 0 <= i < |items| :: NaNFree(items[i])
    ensures AppendMissing(items, AppendMissing(items, defaults)) == AppendMissing(items, defaults)
    decreases |defaults|
  {
    ArrayAssociative(items, items, defaults);
    forall i | 0 <= i < |items| ensures Contains(items, items[i]) { SameReflexiveIff(items[i]); }
    AppendMissingGrows(items, items);
  }

  lemma {:induction false} MergeWithOwnUser(d: Value, u: Value)
    requires Stable(u)
    ensures Merge(Merge(d, u), u) == Merge(d, u)
    decreases u
  {
    match (d, u)
    case (Table(m), Table(n)) =>
      var once, twice := Merge(d, u), Merge(Merge(d, u), u);
      assert once.entries.Keys == twice.entries.Keys;
      forall k | k in once.entries ensures twice.entries[k] == once.entries[k] {
        assert once.entries[k] == MergeEntry(d, u, k) && twice.entries[k] == MergeEntry(once, u, k);
        if k in m && k in n {
          MergeWithOwnUser(m[k], n[k]);
        } else if k in n {
          MergeIdempotentIff(n[k]);
        }
      }
      assert once.entries == twice.entries;
    case (Array(xs), Array(ys)) =>
      AppendMerged(ys, xs);
    case (_, _) =>
      MergeIdempotentIff(u);
  }

  predicate UserRemergeSettles(d: Value, u: Value) {
    Merge(Merge(d, u), u) == Merge(d, u)
  }

  /** Feeding a merge back in as the defaults changes nothing, exactly when the
      user's value is stable. */
  lemma DefaultsClosedIff(u: Value)
    ensures (forall d :: UserRemergeSettles(d, u)) <==> Stable(u)
  {
    if Stable(u) {
      forall d ensures UserRemergeSettles(d, u) { MergeWithOwnUser(d, u); }
    }
    if forall d :: UserRemergeSettles(d, u) {
      assert UserRemergeSettles(Boolean(true), u);
      MergeIdempotentIff(u);
    }
  }

  // ------------------------------------------------------------ associativity

  /** Array merging is associative for all arrays, repeated and not-a-number
      items included. */
  lemma {:induction false} ArrayAssociative(u: seq<Value>, e: seq<Value>, d: seq<Value>)
    ensures AppendMissing(AppendMissing(u, e), d) == AppendMissing(u, AppendMissing(e, d))
    decreases |d|
  {
    if d != [] {
      if Contains(e, d[0]) {
        ContainedAfterAppend(u, e, d[0]);
        ArrayAssociative(u, e, d[1..]);
      } else {
        AppendMissingConcat(u, e, [d[0]]);
        ArrayAssociative(u, e + [d[0]], d[1..]);
      }
    }
  }

  lemma ContainedAfterAppend(u: seq<Value>, e: seq<Value>, x: Value)
    requires Contains(e, x)
    ensures Contains(AppendMissing(u, e), x)
  {
    var j :| 0 <= j < |e| && Same(e[j], x);
    SameNeedsNaNFree(e[j], x);
    AppendMissingContains(u, e, x);
  }

  predicate SameContainer(a: Value, b: Value) {
    (a.Table? && b.Table?) || (a.Array? && b.Array?)
  }

  /** No path has the outer two values of one container kind and a middle value of
      another kind in between, unless the merge there would change nothing. */
  predicate AssociativeAt(d: Value, e: Value, u: Value)
    decreases u
  {
    if d.Table? && e.Table? && u.Table? then
      forall k | k in d.entries && k in e.entries && k in u.entries ::
        AssociativeAt(d.entries[k], e.entries[k], u.entries[k])
    else
      SameContainer(d, u) && !SameContainer(d, e) ==> Absorbs(d, u)
  }

  lemma TablesAssociativeAtKey(d: Value, e: Value, u: Value, k: string)
    requires d.Table? && e.Table? && u.Table?
    requires k in d.entries || k in e.entries || k in u.entries
    ensures k in Merge(d, Merge(e, u)).entries && k in Merge(Merge(d, e), u).entries
    ensures k in d.entries && k in e.entries && k in u.entries ==>
      && Merge(d, Merge(e, u)).entries[k] == Merge(d.entries[k], Merge(e.entries[k], u.entries[k]))
      && Merge(Merge(d, e), u).entries[k] == Merge(Merge(d.entries[k], e.entries[k]), u.entries[k])
    ensures !(k in d.entries && k in e.entries && k in u.entries) ==>
      Merge(d, Merge(e, u)).entries[k] == Merge(Merge(d, e), u).entries[k]
  {
    var eu, de := Merge(e, u), Merge(d, e);
    assert Merge(d, eu).entries[k] == MergeEntry(d, eu, k);
    assert Merge(de, u).entries[k] == MergeEntry(de, u, k);
    if k in eu.entries { assert eu.entries[k] == MergeEntry(e, u, k); }
    if k in de.entries { assert de.entries[k] == MergeEntry(d, e, k); }
  }

  lemma NotAllTablesAssociativeIff(d: Value, e: Value, u: Value)
    requires !(d.Table? && e.Table? && u.Table?)
    ensures Merge(d, Merge(e, u)) == Merge(Merge(d, e), u) <==> AssociativeAt(d, e, u)
  {
    if d.Array? && e.Array? && u.Array? {
      ArrayAssociative(u.items, e.items, d.items);
    } else {
      MergeUnchangedIff(d, u);
    }
  }

  /** Three tables merge into the keys of all three, either way. */
  lemma MergedKeys(d: Value, e: Value, u: Value)
    requires d.Table? && e.Table? && u.Table?
    ensures Merge(d, Merge(e, u)).Table? && Merge(Merge(d, e), u).Table?
    ensures Merge(d, Merge(e, u)).entries.Keys == d.entries.Keys + e.entries.Keys + u.entries.Keys
    ensures Merge(Merge(d, e), u).entries.Keys == d.entries.Keys + e.entries.Keys + u.entries.Keys
  {
  }

  predicate AssociativeAtKey(d: Value, e: Value, u: Value, k: string)
    requires d.Table? && e.Table? && u.Table?
  {
    k in d.entries && k in e.entries && k in u.entries ==> AssociativeAt(d.entries[k], e.entries[k], u.entries[k])
  }

  /** The order in which two upgrades are combined does not matter, exactly under
      `AssociativeAt`. */
  lemma {:induction false} MergeAssociativeIff(d: Value, e: Value, u: Value)
    ensures Merge(d, Merge(e, u)) == Merge(Merge(d, e), u) <==> AssociativeAt(d, e, u)
    decreases u
  {
    if d.Table? && e.Table? && u.Table? {
      var left, right := Merge(d, Merge(e, u)).entries, Merge(Merge(d, e), u).entries;
      MergedKeys(d, e, u);
      forall k | k in left ensures left[k] == right[k] <==> AssociativeAtKey(d, e, u, k) {
        TablesAssociativeAtKey(d, e, u, k);
        if k in d.entries && k in e.entries && k in u.entries {
          MergeAssociativeIff(d.entries[k], e.entries[k], u.entries[k]);
        }
      }
      assert AssociativeAt(d, e, u) <==> forall k | k in left :: AssociativeAtKey(d, e, u, k);
    } else {
      NotAllTablesAssociativeIff(d, e, u);
    }
  }

  /** Two inputs on which the laws fail: an array holding not-a-number grows when
      merged with itself, and a scalar between two arrays breaks associativity. */
  lemma LawsFailWithoutTheirConditions()
    ensures var v := Array([Float(NaN)]); Merge(v, v) == Array([Float(NaN), Float(NaN)])
    ensures var d, e, u := Array([Integer(1)]), Boolean(true), Array([Integer(2)]);
      Merge(d, Merge(e, u)) == Array([Integer(2), Integer(1)]) && Merge(Merge(d, e), u) == u
  {
    var nan := [Float(NaN)];
    assert !Contains(nan, nan[0]);
    assert nan[1..] == [];
    assert AppendMissing(nan, nan) == AppendMissing(nan + nan, []);
    var one, two := [Integer(1)], [Integer(2)];
    assert !Contains(two, one[0]);
    assert AppendMissing(two, one) == AppendMissing(two + one, []);
  }

  // ------------------------------------------------------------ Config::upgrade

  /** The file written by an upgrade: the defaults when there is no file yet. */
  function Upgrade(defaults: Value, existing: Option<Value>): Value {
    match existing
    case Some(user) => Merge(defaults, user)
    case None => defaults
  }

  /** Upgrading again never changes the file, for every prior file or none. */
  lemma SecondUpgradeChangesNothing(defaults: Value, existing: Option<Value>)
    requires Stable(defaults)
    ensures Upgrade(defaults, Some(Upgrade(defaults, existing))) == Upgrade(defaults, existing)
  {
    MergeIdempotentIff(defaults);
    UpgradeClosedIff(defaults);
    if existing.Some? {
      assert SecondMergeSettles(defaults, existing.value);
    }
  }

  predicate IsScalar(v: Value) { !v.Table? && !v.Array? }

  /** The user's scalar settings survive an upgrade, whatever the defaults say. */
  lemma UserScalarsWin(defaults: Value, user: Value, path: seq<string>)
    requires Lookup(user, path).Some? && IsScalar(Lookup(user, path).value)
    ensures Lookup(Upgrade(defaults, Some(user)), path) == Lookup(user, path)
  {
    LookupMerged(defaults, user, path);
  }

  /** A user's array keeps its items in front. */
  lemma UserItemsStayInFront(defaults: Value, user: Value, path: seq<string>)
    requires Lookup(user, path).Some? && Lookup(user, path).value.Array?
    ensures var after := Lookup(Upgrade(defaults, Some(user)), path);
      after.Some? && after.value.Array? && Lookup(user, path).value.items <= after.value.items
  {
    LookupMerged(defaults, user, path);
    var d := Lookup(defaults, path);
    if d.Some? && d.value.Array? { AppendMissingGrows(Lookup(user, path).value.items, d.value.items); }
  }

  /** A path the user does not have gets the default, unless the user's own value
      ends it with something that is not a table; without a file all paths do. */
  lemma MissingPathsGetDefaults(defaults: Value, existing: Option<Value>, path: seq<string>)
    requires existing.Some? ==> Lookup(existing.value, path).None?
    ensures Lookup(Upgrade(defaults, existing), path) ==
      if existing.Some? && Cut(existing.value, path) then None else Lookup(defaults, path)
  {
    if existing.Some? { LookupMerged(defaults, existing.value, path); }
  }
}
