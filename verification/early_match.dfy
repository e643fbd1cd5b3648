/**
 `Element.matches` of the early list revision (graph/graph.py): it walks the
 product of elements and keyword names, emits an element once for every
 keyword it matches, and lets `getattr` raise when an element lacks a name.
 */
module EarlyMatch {
  import opened Values
  import opened Element
  import opened Attributes
  import opened Seqs

  /** `getattr(elem, key) == kwds.get(key)`: a predicate is a function object and never equals an attribute. */
  predicate EqualsSpec(v: Value, spec: Cond) {
    spec.Equals? && spec.expected == v
  }

  /** `x` has the name of condition `c` and its value equals the expected one. */
  predicate KeyMatches(h: Heap, x: Value, c: Condition) {
    GetAttr(Early, h, x, c.0).Some? && EqualsSpec(GetAttr(Early, h, x, c.0).value, c.1)
  }

  /** How many of the conditions `x` matches. */
  function MatchCount(h: Heap, x: Value, conds: seq<Condition>): nat {
    if |conds| == 0 then 0
    else (if KeyMatches(h, x, conds[0]) then 1 else 0) + MatchCount(h, x, conds[1..])
  }

  /** `x` lacks none of the names the conditions ask about. */
  predicate HasAllNames(h: Heap, x: Value, conds: seq<Condition>) {
    forall j :: 0 <= j < |conds| ==> GetAttr(Early, h, x, conds[j].0).Some?
  }

  /** The inner loop of the product for one element: one copy of it per matching key. */
  function PerKey(h: Heap, x: Value, conds: seq<Condition>): Result<seq<Value>>
    decreases |conds|
  {
    if |conds| == 0 then Ok([])
    else match GetAttr(Early, h, x, conds[0].0)
      case None => Err(MissingAttribute(conds[0].0))
      case Some(v) =>
        match PerKey(h, x, conds[1..])
        case Err(e) => Err(e)
        case Ok(rest) => Ok((if EqualsSpec(v, conds[0].1) then [x] else []) + rest)
  }

  /** `matches(_list, **kwds)`: elements outer, keys inner, as `itertools.product` orders them. */
  function Matches(h: Heap, xs: seq<Value>, conds: seq<Condition>): Result<seq<Value>>
    decreases |xs|
  {
    if |xs| == 0 then Ok([])
    else match PerKey(h, xs[0], conds)
      case Err(e) => Err(e)
      case Ok(r) =>
        match Matches(h, xs[1..], conds)
        case Err(e) => Err(e)
        case Ok(rest) => Ok(r + rest)
  }

  function Copies(x: Value, n: nat): (r: seq<Value>)
    ensures |r| == n && forall i :: 0 <= i < n ==> r[i] == x
  {
    if n == 0 then [] else [x] + Copies(x, n - 1)
  }

  /** One element: it fails exactly when a name is missing, and otherwise appears once per matched key. */
  lemma {:induction false} PerKeySpec(h: Heap, x: Value, conds: seq<Condition>)
    ensures PerKey(h, x, conds).Ok? <==> HasAllNames(h, x, conds)
    ensures PerKey(h, x, conds).Ok? ==> PerKey(h, x, conds).value == Copies(x, MatchCount(h, x, conds))
    decreases |conds|
  {
    if |conds| > 0 {
      PerKeySpec(h, x, conds[1..]);
      HasAllNamesCons(h, x, conds);
      var n := MatchCount(h, x, conds[1..]);
      if KeyMatches(h, x, conds[0]) {
        assert [x] + Copies(x, n) == Copies(x, n + 1);
      }
    }
  }

  lemma HasAllNamesCons(h: Heap, x: Value, conds: seq<Condition>)
    requires |conds| > 0
    ensures HasAllNames(h, x, conds) <==> GetAttr(Early, h, x, conds[0].0).Some? && HasAllNames(h, x, conds[1..])
  {
    if HasAllNames(h, x, conds) {
      forall j | 0 <= j < |conds[1..]| ensures GetAttr(Early, h, x, conds[1..][j].0).Some? {
        assert conds[1..][j] == conds[j + 1];
      }
    }
    if GetAttr(Early, h, x, conds[0].0).Some? && HasAllNames(h, x, conds[1..]) {
      forall j | 0 <= j < |conds| ensures GetAttr(Early, h, x, conds[j].0).Some? {
        if j > 0 { assert conds[j] == conds[1..][j - 1]; }
      }
    }
  }

  /** The product raises exactly when some element lacks some asked-for name. */
  lemma {:induction false} MatchesFailsIff(h: Heap, xs: seq<Value>, conds: seq<Condition>)
    ensures Matches(h, xs, conds).Err? <==> exists i :: 0 <= i < |xs| && !HasAllNames(h, xs[i], conds)
    decreases |xs|
  {
    if |xs| > 0 {
      PerKeySpec(h, xs[0], conds);
      MatchesFailsIff(h, xs[1..], conds);
      if exists i :: 0 <= i < |xs[1..]| && !HasAllNames(h, xs[1..][i], conds) {
        var i :| 0 <= i < |xs[1..]| && !HasAllNames(h, xs[1..][i], conds);
        assert xs[i + 1] == xs[1..][i];
      }
      if exists i :: 0 <= i < |xs| && !HasAllNames(h, xs[i], conds) {
        var i :| 0 <= i < |xs| && !HasAllNames(h, xs[i], conds);
        if i > 0 { assert xs[1..][i - 1] == xs[i]; }
      }
    }
  }

  /** Each member of `xs` repeated as often as `count` says, in order. */
  function Repeat(xs: seq<Value>, count: Value -> nat): seq<Value>
  {
    if |xs| == 0 then [] else Copies(xs[0], count(xs[0])) + Repeat(xs[1..], count)
  }

  /** A successful product repeats each element once per matched key, elements in input order. */
  lemma {:induction false} MatchesIsRepeat(h: Heap, xs: seq<Value>, conds: seq<Condition>)
    requires Matches(h, xs, conds).Ok?
    ensures Matches(h, xs, conds).value == Repeat(xs, x => MatchCount(h, x, conds))
    decreases |xs|
  {
    if |xs| > 0 {
      PerKeySpec(h, xs[0], conds);
      MatchesIsRepeat(h, xs[1..], conds);
    }
  }

  lemma Distrib(m: int, c: int)
    ensures (m + 1) * c == m * c + c
  {
  }

  /** Multiplicity of a repetition: occurrences in `xs` times the repeat count. */
  lemma {:induction false} RepeatCount(xs: seq<Value>, count: Value -> nat, y: Value)
    ensures multiset(Repeat(xs, count))[y] == multiset(xs)[y] * count(y)
    decreases |xs|
  {
    if |xs| == 0 {
      assert multiset(xs)[y] == 0;
    } else {
      var x := xs[0];
      var a, b := Copies(x, count(x)), Repeat(xs[1..], count);
      RepeatCount(xs[1..], count, y);
      CopiesCount(x, count(x), y);
      MultisetCons(xs, y);
      assert multiset(a + b)[y] == multiset(a)[y] + multiset(b)[y];
      if x == y {
        Distrib(multiset(xs[1..])[y], count(y));
      }
    }
  }

  lemma MultisetCons(xs: seq<Value>, y: Value)
    requires |xs| > 0
    ensures multiset(xs)[y] == (if xs[0] == y then 1 else 0) + multiset(xs[1..])[y]
  {
    assert xs == [xs[0]] + xs[1..];
    assert multiset(xs) == multiset([xs[0]]) + multiset(xs[1..]);
  }

  /**
   Multiplicity: every element occurs in the result as often as it occurs in
   the input times the number of keys it matches, so several keys act as an
   OR that repeats elements.
   */
  lemma MatchesCount(h: Heap, xs: seq<Value>, conds: seq<Condition>, y: Value)
    requires Matches(h, xs, conds).Ok?
    ensures multiset(Matches(h, xs, conds).value)[y] == multiset(xs)[y] * MatchCount(h, y, conds)
  {
    MatchesIsRepeat(h, xs, conds);
    RepeatCount(xs, x => MatchCount(h, x, conds), y);
  }

  lemma {:induction false} CopiesCount(x: Value, n: nat, y: Value)
    ensures multiset(Copies(x, n))[y] == if x == y then n else 0
    decreases n
  {
    if n == 0 {
      assert Copies(x, n) == [];
    } else {
      CopiesCount(x, n - 1, y);
      assert Copies(x, n) == [x] + Copies(x, n - 1);
      assert multiset(Copies(x, n)) == multiset([x]) + multiset(Copies(x, n - 1));
    }
  }

  /** With a single keyword the product is an order-preserving equality filter. */
  lemma {:induction false} MatchesOneKey(h: Heap, xs: seq<Value>, c: Condition)
    requires Matches(h, xs, [c]).Ok?
    ensures Matches(h, xs, [c]).value == Keep(xs, x => KeyMatches(h, x, c))
    decreases |xs|
  {
    if |xs| > 0 {
      PerKeySpec(h, xs[0], [c]);
      MatchesOneKey(h, xs[1..], c);
      assert [c][1..] == [];
      assert MatchCount(h, xs[0], [c]) == if KeyMatches(h, xs[0], c) then 1 else 0;
    }
  }
}
