/**
 The result container of the list-based revisions, `ElementList`, and the
 traversal selectors of vertices and edges that fill it.

 A selector call returns a sequence of handles. Asking an `ElementList` for a
 name its members carry forwards the request: when every member that has the
 name has a method under it, calling the result calls each such member and
 concatenates what they return; otherwise the result lists the members'
 values under that name.
 */
module ElementList {
  import opened Values
  import opened Element
  import opened Attributes
  import opened Seqs
  import EarlyMatch

  // ---------------------------------------------------------------------
  // filter (current revision)
  // ---------------------------------------------------------------------

  /** `ElementList._matches`: a predicate is applied to the looked-up value, any other value is compared with it. */
  predicate CondHolds(h: Heap, x: Value, c: Condition) {
    var got := Lookup(Current, h, x, c.0);
    match c.1
    case Equals(e) => got == e
    case Satisfies(p) => p(got)
  }

  predicate HoldsAll(h: Heap, x: Value, conds: seq<Condition>) {
    forall j :: 0 <= j < |conds| ==> CondHolds(h, x, conds[j])
  }

  /** `ElementList.filter`: the members narrowed one keyword at a time, in keyword order. */
  function Filter(h: Heap, xs: seq<Value>, conds: seq<Condition>): seq<Value>
    decreases |conds|
  {
    if |conds| == 0 then xs
    else Filter(h, Keep(xs, x => CondHolds(h, x, conds[0])), conds[1..])
  }

  /** Successive narrowing is one pass keeping the members that satisfy every condition. */
  lemma {:induction false} FilterIsConjunction(h: Heap, xs: seq<Value>, conds: seq<Condition>)
    ensures Filter(h, xs, conds) == Keep(xs, x => HoldsAll(h, x, conds))
    decreases |conds|
  {
    if |conds| == 0 {
      KeepAllOf(xs, x => HoldsAll(h, x, conds));
    } else {
      var p := x => CondHolds(h, x, conds[0]);
      var q := x => HoldsAll(h, x, conds[1..]);
      var pq := x => HoldsAll(h, x, conds);
      FilterIsConjunction(h, Keep(xs, p), conds[1..]);
      forall x ensures pq(x) == (p(x) && q(x)) {
        HoldsAllCons(h, x, conds);
      }
      KeepCompose(xs, p, q, pq);
    }
  }

  lemma HoldsAllCons(h: Heap, x: Value, conds: seq<Condition>)
    requires |conds| > 0
    ensures HoldsAll(h, x, conds) <==> CondHolds(h, x, conds[0]) && HoldsAll(h, x, conds[1..])
  {
    if CondHolds(h, x, conds[0]) && HoldsAll(h, x, conds[1..]) {
      forall j | 0 <= j < |conds| ensures CondHolds(h, x, conds[j]) {
        if j > 0 { assert conds[j] == conds[1..][j - 1]; }
      }
    }
    if HoldsAll(h, x, conds) {
      forall j | 0 <= j < |conds[1..]| ensures CondHolds(h, x, conds[1..][j]) {
        assert conds[1..][j] == conds[j + 1];
      }
    }
  }

  /**
   What `filter` returns: the members satisfying every condition, each with
   all its occurrences, in their original order; no condition keeps all.
   */
  lemma FilterSpec(h: Heap, xs: seq<Value>, conds: seq<Condition>)
    ensures IsSubseq(Filter(h, xs, conds), xs)
    ensures forall y :: y in Filter(h, xs, conds) <==> y in xs && HoldsAll(h, y, conds)
    ensures forall y :: multiset(Filter(h, xs, conds))[y] == if HoldsAll(h, y, conds) then multiset(xs)[y] else 0
    ensures |conds| == 0 ==> Filter(h, xs, conds) == xs
  {
    var p := x => HoldsAll(h, x, conds);
    FilterIsConjunction(h, xs, conds);
    KeepIsSubseq(xs, p);
    forall y ensures y in Keep(xs, p) <==> y in xs && p(y) {
      KeepMembers(xs, p, y);
    }
    forall y ensures multiset(Keep(xs, p))[y] == if p(y) then multiset(xs)[y] else 0 {
      KeepCount(xs, p, y);
    }
  }

  lemma FilterAppend(h: Heap, xs: seq<Value>, ys: seq<Value>, conds: seq<Condition>)
    ensures Filter(h, xs + ys, conds) == Filter(h, xs, conds) + Filter(h, ys, conds)
  {
    FilterIsConjunction(h, xs + ys, conds);
    FilterIsConjunction(h, xs, conds);
    FilterIsConjunction(h, ys, conds);
    KeepAppend(xs, ys, x => HoldsAll(h, x, conds));
  }

  /**
   `_get` falls back to None, so a member without the attribute is treated as
   one whose attribute is None: it passes `attr=None` and a predicate sees None.
   */
  lemma MissingReadsAsNone(h: Heap, x: Value, attr: string, spec: Cond)
    requires !x.Dict? && GetAttr(Current, h, x, attr).None?
    ensures CondHolds(h, x, (attr, spec)) <==> match spec
      case Equals(e) => e == Nil
      case Satisfies(p) => p(Nil)
  {
  }

  // ---------------------------------------------------------------------
  // Traversal selectors
  // ---------------------------------------------------------------------

  /** The vertex methods that take only keyword conditions and return a list. */
  datatype Selector = Out | OutE | In | InE | Both | BothE

  function SelectorName(s: Selector): string {
    match s
    case Out => "out"
    case OutE => "outE"
    case In => "in_"
    case InE => "inE"
    case Both => "both"
    case BothE => "bothE"
  }

  function SelectorNamed(name: string): (r: Option<Selector>)
    ensures r.Some? ==> SelectorName(r.value) == name && name in VertexMethods
    ensures forall s :: SelectorName(s) == name ==> r == Some(s)
  {
    if name == "out" then Some(Out)
    else if name == "outE" then Some(OutE)
    else if name == "in_" then Some(In)
    else if name == "inE" then Some(InE)
    else if name == "both" then Some(Both)
    else if name == "bothE" then Some(BothE)
    else None
  }

  /** The stored neighbourhood a selector reads, the two-sided ones as out-list followed by in-list. */
  function Adjacent(r: VertexRec, s: Selector): seq<Value> {
    match s
    case Out => VertexRefs(r.out)
    case OutE => EdgeRefs(r.outE)
    case In => VertexRefs(r.in_)
    case InE => EdgeRefs(r.inE)
    case Both => VertexRefs(r.out) + VertexRefs(r.in_)
    case BothE => EdgeRefs(r.outE) + EdgeRefs(r.inE)
  }

  /** `Vertex.out/outE/in_/inE(**kwds)`: the stored list, filtered when conditions are given. */
  function SelectStored(h: Heap, u: VertexId, s: Selector, conds: seq<Condition>): seq<Value>
    requires Holds(h, u)
  {
    if |conds| > 0 then Filter(h, Adjacent(h.vertices[u], s), conds) else Adjacent(h.vertices[u], s)
  }

  /** The selectors of the current revision; `both`/`bothE` call the one-sided ones and concatenate. */
  function Select(h: Heap, u: VertexId, s: Selector, conds: seq<Condition>): seq<Value>
    requires Holds(h, u)
  {
    match s
    case Both => SelectStored(h, u, Out, conds) + SelectStored(h, u, In, conds)
    case BothE => SelectStored(h, u, OutE, conds) + SelectStored(h, u, InE, conds)
    case _ => SelectStored(h, u, s, conds)
  }

  /**
   Every selector, with or without conditions, is `filter` applied to the
   neighbourhood it reads; for `both` filtering each side and concatenating
   equals filtering the concatenation.
   */
  lemma SelectIsFilter(h: Heap, u: VertexId, s: Selector, conds: seq<Condition>)
    requires Holds(h, u)
    ensures Select(h, u, s, conds) == Filter(h, Adjacent(h.vertices[u], s), conds)
  {
    var r := h.vertices[u];
    match s
    case Both => FilterAppend(h, VertexRefs(r.out), VertexRefs(r.in_), conds);
    case BothE => FilterAppend(h, EdgeRefs(r.outE), EdgeRefs(r.inE), conds);
    case _ =>
  }

  /** In a well-formed arena `both()` and `bothE()` have the same length: neighbours and edges are stored in step. */
  lemma BothInStep(rev: Rev, h: Heap, u: VertexId)
    requires Valid(rev, h) && Holds(h, u)
    ensures |Select(h, u, Both, [])| == |Select(h, u, BothE, [])|
  {
    var r := h.vertices[u];
    assert OutEdgesMatch(h, u) && InEdgesMatch(h, u) by {
      assert ValidVertex(rev, h, u);
    }
    assert |r.out| == |r.outE| && |r.in_| == |r.inE|;
    assert Select(h, u, Both, []) == VertexRefs(r.out) + VertexRefs(r.in_);
    assert Select(h, u, BothE, []) == EdgeRefs(r.outE) + EdgeRefs(r.inE);
  }

  /**
   The early revision's selectors: without conditions the stored lists
   (`both` concatenates them); with conditions only `out` filters, through
   `matches`, and every other selector returns an empty list.
   */
  function EarlySelect(h: Heap, u: VertexId, s: Selector, conds: seq<Condition>): (r: Result<seq<Value>>)
    requires Holds(h, u)
    ensures |conds| == 0 ==> r == Ok(Adjacent(h.vertices[u], s))
    ensures |conds| > 0 && s != Out ==> r == Ok([])
    ensures |conds| > 0 && s == Out ==> r == EarlyMatch.Matches(h, VertexRefs(h.vertices[u].out), conds)
  {
    if |conds| == 0 then Ok(Adjacent(h.vertices[u], s))
    else if s == Out then EarlyMatch.Matches(h, VertexRefs(h.vertices[u].out), conds)
    else Ok([])
  }

  /**
   With one keyword that every member holds as a keyword attribute, the early
   `matches` neither raises nor repeats: it keeps what the current `filter`
   keeps, in the same order.
   */
  lemma {:induction false} EarlyOneKeyIsFilter(h: Heap, xs: seq<Value>, k: string, v: Value)
    requires forall i :: 0 <= i < |xs| ==> xs[i].VertexRef? && Holds(h, xs[i].v) && k in h.vertices[xs[i].v].attrs
    ensures EarlyMatch.Matches(h, xs, [(k, Equals(v))]) == Ok(Filter(h, xs, [(k, Equals(v))]))
    decreases |xs|
  {
    var c: Condition := (k, Equals(v));
    assert [c][1..] == [];
    if |xs| > 0 {
      var x := xs[0];
      EarlyOneKeyIsFilter(h, xs[1..], k, v);
      KeywordWins(Early, h, x.v, k);
      KeywordWins(Current, h, x.v, k);
      var got := h.vertices[x.v].attrs[k];
      assert CondHolds(h, x, c) <==> got == v;
      assert [c][0] == c && EarlyMatch.PerKey(h, x, [c][1..]) == Ok([]);
      var mine: seq<Value> := if got == v then [x] else [];
      assert mine + [] == mine;
      assert EarlyMatch.PerKey(h, x, [c]) == Ok(mine);
      assert Filter(h, xs, [c]) == mine + Filter(h, xs[1..], [c]);
      assert EarlyMatch.Matches(h, xs, [c]) == Ok(mine + Filter(h, xs[1..], [c]));
    }
  }

  /** `u.out(k=v)` is the same in the early and the current revision when every out-neighbour has `k` as a keyword. */
  lemma EarlyOutAgreesWithCurrent(h: Heap, u: VertexId, k: string, v: Value)
    requires Holds(h, u)
    requires forall i :: 0 <= i < |h.vertices[u].out| ==>
      Holds(h, h.vertices[u].out[i]) && k in h.vertices[h.vertices[u].out[i]].attrs
    ensures EarlySelect(h, u, Out, [(k, Equals(v))]) == Ok(Select(h, u, Out, [(k, Equals(v))]))
  {
    EarlyOneKeyIsFilter(h, VertexRefs(h.vertices[u].out), k, v);
  }

  /** `Edge.inV()` / `Edge.outV()`: the stored endpoint lists; conditions are accepted and ignored. */
  function EdgeSelect(h: Heap, e: EdgeId, name: string): seq<Value>
    requires e < |h.edges| && name in EdgeMethods
  {
    if name == "inV" then VertexRefs(h.edges[e].inV) else VertexRefs(h.edges[e].outV)
  }

  /**
   Calling a method value with keyword conditions. Only the traversal
   selectors are modelled as callable this way; a non-method raises TypeError.
   */
  function Invoke(rev: ListRev, h: Heap, m: Value, conds: seq<Condition>): (r: Result<seq<Value>>)
    ensures !Callable(m) ==> r == Err(NotCallable)
    ensures m.Bound? && m.receiver.EdgeRef? && m.receiver.e < |h.edges| && m.name in EdgeMethods
      ==> r == Ok(EdgeSelect(h, m.receiver.e, m.name))
    ensures m.Bound? && m.receiver.VertexRef? && Holds(h, m.receiver.v) && SelectorNamed(m.name).Some?
      ==> r == (if rev == Current then Ok(Select(h, m.receiver.v, SelectorNamed(m.name).value, conds))
                else EarlySelect(h, m.receiver.v, SelectorNamed(m.name).value, conds))
  {
    if !m.Bound? then Err(NotCallable)
    else match m.receiver
      case VertexRef(u) =>
        if Holds(h, u) && SelectorNamed(m.name).Some? then
          var s := SelectorNamed(m.name).value;
          if rev == Current then Ok(Select(h, u, s, conds)) else EarlySelect(h, u, s, conds)
        else Err(Unsupported(m.name))
      case EdgeRef(e) =>
        if e < |h.edges| && m.name in EdgeMethods then Ok(EdgeSelect(h, e, m.name))
        else Err(Unsupported(m.name))
      case _ => Err(Unsupported(m.name))
  }

  // ---------------------------------------------------------------------
  // Forwarding: ElementList.__getattr__
  // ---------------------------------------------------------------------

  /** The members that have the name (`hasattr`), in list order. */
  function Holders(rev: ListRev, h: Heap, xs: seq<Value>, name: string): seq<Value> {
    Keep(xs, x => GetAttr(rev, h, x, name).Some?)
  }

  predicate CallableOrAbsent(rev: ListRev, h: Heap, x: Value, name: string) {
    GetAttr(rev, h, x, name).Some? ==> Callable(GetAttr(rev, h, x, name).value)
  }

  /** `_callable`: `all` over the holders, so true when no member has the name. */
  function AllCallable(rev: ListRev, h: Heap, xs: seq<Value>, name: string): (b: bool)
    ensures b <==> forall x :: x in Holders(rev, h, xs, name) ==>
      var a := GetAttr(rev, h, x, name); a.Some? && Callable(a.value)
    decreases |xs|
  {
    if |xs| == 0 then true
    else CallableOrAbsent(rev, h, xs[0], name) && AllCallable(rev, h, xs[1..], name)
  }

  /** The non-callable branch: the holders' values under the name, one per holder, not flattened. */
  function Project(rev: ListRev, h: Heap, xs: seq<Value>, name: string): (r: seq<Value>)
    ensures |r| == |Holders(rev, h, xs, name)|
    ensures forall i :: 0 <= i < |r| ==> GetAttr(rev, h, Holders(rev, h, xs, name)[i], name) == Some(r[i])
    decreases |xs|
  {
    if |xs| == 0 then []
    else match GetAttr(rev, h, xs[0], name)
      case Some(v) => [v] + Project(rev, h, xs[1..], name)
      case None => Project(rev, h, xs[1..], name)
  }

  /** What `getattr(elementlist, name)` yields: the forwarding function, or the list of values. */
  datatype Access = Call | Values(items: seq<Value>)

  function Forward(rev: ListRev, h: Heap, xs: seq<Value>, name: string): (a: Access)
    ensures a.Call? <==> forall x :: x in Holders(rev, h, xs, name) ==>
      var m := GetAttr(rev, h, x, name); m.Some? && Callable(m.value)
    ensures a.Values? ==> |a.items| == |Holders(rev, h, xs, name)|
    ensures a.Values? ==> forall i :: 0 <= i < |a.items| ==>
      GetAttr(rev, h, Holders(rev, h, xs, name)[i], name) == Some(a.items[i])
  {
    if AllCallable(rev, h, xs, name) then Call else Values(Project(rev, h, xs, name))
  }

  /** One member's call: the method under the name applied to the conditions; a member without the name adds nothing. */
  function CallOne(rev: ListRev, h: Heap, x: Value, name: string, conds: seq<Condition>): Result<seq<Value>> {
    match GetAttr(rev, h, x, name)
    case None => Ok([])
    case Some(m) => Invoke(rev, h, m, conds)
  }

  /** Chaining two outcomes: the first error, or the concatenation. */
  function Then(a: Result<seq<Value>>, b: Result<seq<Value>>): Result<seq<Value>> {
    match a
    case Err(e) => Err(e)
    case Ok(x) =>
      match b
      case Err(e) => Err(e)
      case Ok(y) => Ok(x + y)
  }

  /** `callme(**kwds)`: call every holder in list order and chain the results; the first raise propagates. */
  function CallForwarded(rev: ListRev, h: Heap, xs: seq<Value>, name: string, conds: seq<Condition>): Result<seq<Value>>
    decreases |xs|
  {
    if |xs| == 0 then Ok([])
    else if GetAttr(rev, h, xs[0], name).None? then CallForwarded(rev, h, xs[1..], name, conds)
    else Then(CallOne(rev, h, xs[0], name, conds), CallForwarded(rev, h, xs[1..], name, conds))
  }

  /** Forwarding over a concatenation is forwarding over each part, chained. */
  lemma {:induction false} CallForwardedAppend(rev: ListRev, h: Heap, xs: seq<Value>, ys: seq<Value>, name: string, conds: seq<Condition>)
    ensures CallForwarded(rev, h, xs + ys, name, conds)
      == Then(CallForwarded(rev, h, xs, name, conds), CallForwarded(rev, h, ys, name, conds))
    decreases |xs|
  {
    if |xs| == 0 {
      assert xs + ys == ys;
      match CallForwarded(rev, h, ys, name, conds)
      case Err(_) =>
      case Ok(b) => assert [] + b == b;
    } else {
      assert (xs + ys)[0] == xs[0];
      assert (xs + ys)[1..] == xs[1..] + ys;
      CallForwardedAppend(rev, h, xs[1..], ys, name, conds);
      match CallOne(rev, h, xs[0], name, conds)
      case Err(_) =>
      case Ok(r) =>
        match CallForwarded(rev, h, xs[1..], name, conds)
        case Err(_) =>
        case Ok(a) =>
          match CallForwarded(rev, h, ys, name, conds)
          case Err(_) =>
          case Ok(b) => assert r + (a + b) == (r + a) + b;
    }
  }

  lemma CallForwardedSingle(rev: ListRev, h: Heap, x: Value, name: string, conds: seq<Condition>)
    ensures CallForwarded(rev, h, [x], name, conds) == CallOne(rev, h, x, name, conds)
  {
    assert [x][1..] == [];
    match CallOne(rev, h, x, name, conds)
    case Err(_) =>
    case Ok(r) => assert r + [] == r;
  }

  /** What each member's call returns, in member order, when none of them raises. */
  function Answers(rev: ListRev, h: Heap, xs: seq<Value>, name: string, conds: seq<Condition>): (r: seq<seq<Value>>)
    requires forall i :: 0 <= i < |xs| ==> CallOne(rev, h, xs[i], name, conds).Ok?
    ensures |r| == |xs|
  {
    seq(|xs|, i requires 0 <= i < |xs| => CallOne(rev, h, xs[i], name, conds).value)
  }

  /** The forwarded call raises exactly when the call on some member raises. */
  lemma {:induction false} CallForwardedFailsIff(rev: ListRev, h: Heap, xs: seq<Value>, name: string, conds: seq<Condition>)
    ensures CallForwarded(rev, h, xs, name, conds).Err? <==>
      exists i :: 0 <= i < |xs| && CallOne(rev, h, xs[i], name, conds).Err?
    decreases |xs|
  {
    if |xs| > 0 {
      CallForwardedFailsIff(rev, h, xs[1..], name, conds);
      CallForwardedFailStep(rev, h, xs, name, conds);
      if exists i :: 0 <= i < |xs[1..]| && CallOne(rev, h, xs[1..][i], name, conds).Err? {
        var i :| 0 <= i < |xs[1..]| && CallOne(rev, h, xs[1..][i], name, conds).Err?;
        assert xs[i + 1] == xs[1..][i];
      }
      if exists i :: 0 <= i < |xs| && CallOne(rev, h, xs[i], name, conds).Err? {
        var i :| 0 <= i < |xs| && CallOne(rev, h, xs[i], name, conds).Err?;
        if i > 0 { assert xs[1..][i - 1] == xs[i]; }
      }
    }
  }

  lemma CallForwardedFailStep(rev: ListRev, h: Heap, xs: seq<Value>, name: string, conds: seq<Condition>)
    requires |xs| > 0
    ensures CallForwarded(rev, h, xs, name, conds).Err? <==>
      CallOne(rev, h, xs[0], name, conds).Err? || CallForwarded(rev, h, xs[1..], name, conds).Err?
  {
  }

  /**
   When no member's call raises, `callme` returns the members' answers
   concatenated in member order; members without the name answer nothing.
   */
  lemma {:induction false} CallForwardedFlatten(rev: ListRev, h: Heap, xs: seq<Value>, name: string, conds: seq<Condition>)
    requires forall i :: 0 <= i < |xs| ==> CallOne(rev, h, xs[i], name, conds).Ok?
    ensures CallForwarded(rev, h, xs, name, conds) == Ok(Flatten(Answers(rev, h, xs, name, conds)))
    decreases |xs|
  {
    if |xs| > 0 {
      var rest := xs[1..];
      forall i | 0 <= i < |rest| ensures CallOne(rev, h, rest[i], name, conds).Ok? {
        assert rest[i] == xs[i + 1];
      }
      CallForwardedFlatten(rev, h, rest, name, conds);
      CallForwardedStep(rev, h, xs, name, conds);
      var a := Answers(rev, h, xs, name, conds);
      assert a[1..] == Answers(rev, h, rest, name, conds);
      assert Flatten(a) == a[0] + Flatten(a[1..]);
    }
  }

  /** One step of `callme`: the head's answer, then the rest's, an absent name answering nothing. */
  lemma CallForwardedStep(rev: ListRev, h: Heap, xs: seq<Value>, name: string, conds: seq<Condition>)
    requires |xs| > 0 && CallOne(rev, h, xs[0], name, conds).Ok? && CallForwarded(rev, h, xs[1..], name, conds).Ok?
    ensures CallForwarded(rev, h, xs, name, conds)
      == Ok(CallOne(rev, h, xs[0], name, conds).value + CallForwarded(rev, h, xs[1..], name, conds).value)
  {
    var tail := CallForwarded(rev, h, xs[1..], name, conds).value;
    if GetAttr(rev, h, xs[0], name).None? {
      assert CallOne(rev, h, xs[0], name, conds).value == [];
      assert [] + tail == tail;
    }
  }

  /** Members that lack the name are skipped: forwarding over the holders alone gives the same outcome. */
  lemma {:induction false} CallForwardedSkipsNonHolders(rev: ListRev, h: Heap, xs: seq<Value>, name: string, conds: seq<Condition>)
    ensures CallForwarded(rev, h, xs, name, conds) == CallForwarded(rev, h, Holders(rev, h, xs, name), name, conds)
    decreases |xs|
  {
    if |xs| == 0 {
      assert Holders(rev, h, xs, name) == [];
    } else {
      var x := xs[0];
      var p := x => GetAttr(rev, h, x, name).Some?;
      CallForwardedSkipsNonHolders(rev, h, xs[1..], name, conds);
      var rest := Holders(rev, h, xs[1..], name);
      var tail := CallForwarded(rev, h, xs[1..], name, conds);
      assert Holders(rev, h, xs, name) == (if p(x) then [x] else []) + rest;
      if p(x) {
        var hs := [x] + rest;
        assert hs[0] == x && hs[1..] == rest;
        assert CallForwarded(rev, h, hs, name, conds) == Then(CallOne(rev, h, x, name, conds), tail);
      } else {
        assert Holders(rev, h, xs, name) == rest;
      }
    }
  }

  /**
   `o.outE().inV()` is `o.out()`: in a well-formed arena each out-edge's
   `inV` holds exactly its head, so forwarding `inV` over the out-edges
   lists the out-neighbours, in order. Every edge has the name as a method,
   so the forwarding branch is taken.
   */
  lemma OutEInVIsOut(rev: ListRev, h: Heap, u: VertexId, conds: seq<Condition>)
    requires Valid(rev, h) && Holds(h, u)
    ensures Forward(rev, h, EdgeRefs(h.vertices[u].outE), "inV") == Call
    ensures CallForwarded(rev, h, EdgeRefs(h.vertices[u].outE), "inV", conds) == Ok(VertexRefs(h.vertices[u].out))
  {
    assert ValidVertex(rev, h, u);
    var r := h.vertices[u];
    ForwardEndpoints(rev, h, r.outE, r.out, "inV", conds);
  }

  /** `o.inE().outV()` is `o.in_()`. */
  lemma InEOutVIsIn(rev: ListRev, h: Heap, u: VertexId, conds: seq<Condition>)
    requires Valid(rev, h) && Holds(h, u)
    ensures Forward(rev, h, EdgeRefs(h.vertices[u].inE), "outV") == Call
    ensures CallForwarded(rev, h, EdgeRefs(h.vertices[u].inE), "outV", conds) == Ok(VertexRefs(h.vertices[u].in_))
  {
    assert ValidVertex(rev, h, u);
    var r := h.vertices[u];
    ForwardEndpoints(rev, h, r.inE, r.in_, "outV", conds);
  }

  /** The endpoint of edge `e` that `name` selects. */
  function Endpoint(h: Heap, e: EdgeId, name: string): VertexId
    requires e < |h.edges|
  {
    if name == "inV" then h.edges[e].to else h.edges[e].from
  }

  /** Forwarding an endpoint selector over edges lists, edge by edge, the endpoint each one selects. */
  lemma {:induction false} ForwardEndpoints(rev: ListRev, h: Heap, es: seq<EdgeId>, vs: seq<VertexId>, name: string, conds: seq<Condition>)
    requires Valid(rev, h) && name in EdgeMethods && |es| == |vs|
    requires forall i :: 0 <= i < |es| ==> es[i] < |h.edges| && Endpoint(h, es[i], name) == vs[i]
    ensures Forward(rev, h, EdgeRefs(es), name) == Call
    ensures CallForwarded(rev, h, EdgeRefs(es), name, conds) == Ok(VertexRefs(vs))
    decreases |es|
  {
    if |es| == 0 {
      assert EdgeRefs(es) == [];
      assert VertexRefs(vs) == [];
    } else {
      var e := es[0];
      assert ValidEdge(rev, h, e);
      EdgeSelectorIsBound(rev, h, e, name);
      ForwardEndpoints(rev, h, es[1..], vs[1..], name, conds);
      assert EdgeRefs(es) == [EdgeRef(e)] + EdgeRefs(es[1..]);
      assert VertexRefs(vs) == [VertexRef(vs[0])] + VertexRefs(vs[1..]);
      assert EdgeSelect(h, e, name) == [VertexRef(vs[0])];
      assert CallOne(rev, h, EdgeRef(e), name, conds) == Ok([VertexRef(vs[0])]);
      CallForwardedAppend(rev, h, [EdgeRef(e)], EdgeRefs(es[1..]), name, conds);
      CallForwardedSingle(rev, h, EdgeRef(e), name, conds);
    }
  }
}
