/**
 Worked examples of the element model: the behaviours the docstrings
 describe for small graphs, each derived from the general contracts.
 */
module Scenarios {
  import opened Values
  import opened Element
  import opened Attributes
  import opened ElementList
  import Registry
  import EarlyMatch
  import Seqs

  /** The predicate condition `lambda x: x > 3` on integer attributes. */
  predicate AboveThree(x: Value) {
    x.Int? && x.i > 3
  }

  /**
   `e = u.edgeto(v)` between two unconnected vertices: `u.out()` is `[v]`,
   `u.outE()` is `[e]`, `v.in_()` is `[u]`, `v.inE()` is `[e]`, and the edge
   lists `v` as its `inV` and `u` as its `outV`.
   */
  lemma ConnectFresh(h: Heap, u: VertexId, v: VertexId, weight: Value, labelArg: Value)
    requires Holds(h, u) && Holds(h, v) && u != v
    requires h.vertices[u].out == [] && h.vertices[u].outE == []
    requires h.vertices[v].in_ == [] && h.vertices[v].inE == []
    ensures var (h', e) := EdgeTo(Current, h, u, v, weight, labelArg);
      && Select(h', u, Out, []) == [VertexRef(v)]
      && Select(h', u, OutE, []) == [EdgeRef(e)]
      && Select(h', v, In, []) == [VertexRef(u)]
      && Select(h', v, InE, []) == [EdgeRef(e)]
      && EdgeSelect(h', e, "inV") == [VertexRef(v)]
      && EdgeSelect(h', e, "outV") == [VertexRef(u)]
  {
    var (h', e) := EdgeTo(Current, h, u, v, weight, labelArg);
    SelectOneEdge(h', u, v, e);
  }

  lemma SelectOneEdge(h: Heap, u: VertexId, v: VertexId, e: EdgeId)
    requires Holds(h, u) && Holds(h, v) && e < |h.edges|
    requires h.vertices[u].out == [v] && h.vertices[u].outE == [e]
    requires h.vertices[v].in_ == [u] && h.vertices[v].inE == [e]
    requires h.edges[e].inV == [v] && h.edges[e].outV == [u]
    ensures Select(h, u, Out, []) == [VertexRef(v)] && Select(h, u, OutE, []) == [EdgeRef(e)]
    ensures Select(h, v, In, []) == [VertexRef(u)] && Select(h, v, InE, []) == [EdgeRef(e)]
    ensures EdgeSelect(h, e, "inV") == [VertexRef(v)] && EdgeSelect(h, e, "outV") == [VertexRef(u)]
  {
  }

  /**
   `t.edgeto(u)` (edge `e1`) then `u.edgeto(w)` (edge `e2`) on unconnected
   vertices: `u.bothE()` is `[e2, e1]`, out-edges first, and `u.both()` is
   `[w, t]`.
   */
  lemma BothOrder(h: Heap, t: VertexId, u: VertexId, w: VertexId, weight: Value, labelArg: Value)
    requires Holds(h, t) && Holds(h, u) && Holds(h, w) && t != u && u != w && t != w
    requires h.vertices[u].out == [] && h.vertices[u].outE == [] && h.vertices[u].in_ == [] && h.vertices[u].inE == []
    ensures var (h1, e1) := EdgeTo(Current, h, t, u, weight, labelArg);
      var (h2, e2) := EdgeTo(Current, h1, u, w, weight, labelArg);
      && Select(h2, u, BothE, []) == [EdgeRef(e2), EdgeRef(e1)]
      && Select(h2, u, Both, []) == [VertexRef(w), VertexRef(t)]
  {
    var (h1, e1) := EdgeTo(Current, h, t, u, weight, labelArg);
    BothAfterOutEdge(h1, u, w, t, e1, weight, labelArg);
  }

  /** `u` with one in-edge `e1` from `t` and no out-edges gains the out-edge `e2` to `w`. */
  lemma BothAfterOutEdge(h1: Heap, u: VertexId, w: VertexId, t: VertexId, e1: EdgeId, weight: Value, labelArg: Value)
    requires Holds(h1, u) && Holds(h1, w) && u != w
    requires h1.vertices[u].out == [] && h1.vertices[u].outE == [] && h1.vertices[u].in_ == [t] && h1.vertices[u].inE == [e1]
    ensures var (h2, e2) := EdgeTo(Current, h1, u, w, weight, labelArg);
      && Select(h2, u, BothE, []) == [EdgeRef(e2), EdgeRef(e1)]
      && Select(h2, u, Both, []) == [VertexRef(w), VertexRef(t)]
  {
    var (h2, e2) := EdgeTo(Current, h1, u, w, weight, labelArg);
    BothOfOneEach(h2, u, w, t, e2, e1);
  }

  lemma BothOfOneEach(h: Heap, u: VertexId, w: VertexId, t: VertexId, e2: EdgeId, e1: EdgeId)
    requires Holds(h, u)
    requires h.vertices[u].out == [w] && h.vertices[u].outE == [e2] && h.vertices[u].in_ == [t] && h.vertices[u].inE == [e1]
    ensures Select(h, u, BothE, []) == [EdgeRef(e2), EdgeRef(e1)]
    ensures Select(h, u, Both, []) == [VertexRef(w), VertexRef(t)]
  {
    assert EdgeRefs([e2]) + EdgeRefs([e1]) == [EdgeRef(e2), EdgeRef(e1)];
    assert VertexRefs([w]) + VertexRefs([t]) == [VertexRef(w), VertexRef(t)];
  }

  /**
   After `graph.addedge(t, u)` from a vertex without out-edges,
   `t.outE().inV()` is `[u]`: forwarding flattens one level per step.
   */
  lemma ChainAfterAddEdge(h: Heap, g: Registry.Graph, t: VertexId, u: VertexId, weight: Value, labelArg: Value)
    requires Valid(Current, h) && Holds(h, t) && Holds(h, u) && h.vertices[t].outE == []
    ensures var (h', _, _) := Registry.AddEdge(h, g, t, u, weight, labelArg);
      CallForwarded(Current, h', Select(h', t, OutE, []), "inV", []) == Ok([VertexRef(u)])
  {
    var (h1, e) := EdgeTo(Current, h, t, u, weight, labelArg);
    EdgeToPreservesValid(Current, h, t, u, weight, labelArg);
    StampEdgePreservesValid(Current, h1, e, |g.es|);
    var (h', _, _) := Registry.AddEdge(h, g, t, u, weight, labelArg);
    assert h' == StampEdge(h1, e, |g.es|);
    assert ValidVertex(Current, h', t);
    assert |h'.vertices[t].out| == 1 && h'.vertices[t].out[0] == u;
    OutEInVIsOut(Current, h', t, []);
    assert VertexRefs(h'.vertices[t].out) == [VertexRef(u)];
  }

  /**
   When `u.name` is `"X"`, asking a list holding `u` for `name` gives `["X"]`:
   a keyword value is not callable, so the list collects values instead of
   forwarding a call.
   */
  lemma ProjectKeyword(h: Heap, u: VertexId)
    requires Holds(h, u) && "name" in h.vertices[u].attrs && h.vertices[u].attrs["name"] == Str("X")
    ensures Forward(Current, h, [VertexRef(u)], "name") == Values([Str("X")])
  {
    assert GetAttr(Current, h, VertexRef(u), "name") == Some(Str("X"));
    assert [VertexRef(u)][1..] == [];
    assert !AllCallable(Current, h, [VertexRef(u)], "name");
    assert Project(Current, h, [VertexRef(u)], "name") == [Str("X")];
  }

  /** `Keep` over three members, unfolded. */
  lemma KeepThree(xs: seq<Value>, p: Value -> bool)
    requires |xs| == 3
    ensures Seqs.Keep(xs, p) == (if p(xs[0]) then [xs[0]] else []) + (if p(xs[1]) then [xs[1]] else []) + (if p(xs[2]) then [xs[2]] else [])
  {
    var a := if p(xs[0]) then [xs[0]] else [];
    var b := if p(xs[1]) then [xs[1]] else [];
    var c := if p(xs[2]) then [xs[2]] else [];
    assert xs[1..][0] == xs[1] && xs[1..][1..][0] == xs[2];
    assert xs[1..][1..][1..] == [];
    assert Seqs.Keep(xs[1..][1..], p) == c + [] == c;
    assert Seqs.Keep(xs[1..], p) == b + c;
    assert Seqs.Keep(xs, p) == a + (b + c) == a + b + c;
  }

  /**
   Three out-neighbours whose `value` is 1, 3 and 5: `out(value=5)` keeps only
   the third, and so does a predicate condition asking for more than 3.
   */
  lemma FilterByValue(h: Heap, s: VertexId, a: VertexId, b: VertexId, c: VertexId)
    requires Holds(h, s) && Holds(h, a) && Holds(h, b) && Holds(h, c)
    requires h.vertices[s].out == [a, b, c]
    requires h.vertices[a].attrs == map["value" := Int(1)]
    requires h.vertices[b].attrs == map["value" := Int(3)]
    requires h.vertices[c].attrs == map["value" := Int(5)]
    ensures Select(h, s, Out, [("value", Equals(Int(5)))]) == [VertexRef(c)]
    ensures Select(h, s, Out, [("value", Satisfies(AboveThree))]) == [VertexRef(c)]
  {
    var xs := VertexRefs([a, b, c]);
    assert xs == [VertexRef(a), VertexRef(b), VertexRef(c)];
    assert Adjacent(h.vertices[s], Out) == xs;
    ValueIs(h, a, 1);
    ValueIs(h, b, 3);
    ValueIs(h, c, 5);
    OnlyThirdKept(h, xs, ("value", Equals(Int(5))));
    OnlyThirdKept(h, xs, ("value", Satisfies(AboveThree)));
  }

  lemma ValueIs(h: Heap, a: VertexId, n: int)
    requires Holds(h, a) && h.vertices[a].attrs == map["value" := Int(n)]
    ensures Lookup(Current, h, VertexRef(a), "value") == Int(n)
  {
  }

  /** Filtering three members on one condition that only the third satisfies. */
  lemma OnlyThirdKept(h: Heap, xs: seq<Value>, c: Condition)
    requires |xs| == 3 && !CondHolds(h, xs[0], c) && !CondHolds(h, xs[1], c) && CondHolds(h, xs[2], c)
    ensures Filter(h, xs, [c]) == [xs[2]]
  {
    assert [c][1..] == [];
    assert Filter(h, xs, [c]) == Seqs.Keep(xs, x => CondHolds(h, x, c));
    KeepThree(xs, x => CondHolds(h, x, c));
    assert [] + [] + [xs[2]] == [xs[2]];
  }

  /**
   An element matching two keywords: the early revision's `matches` lists it
   twice (one entry per matched key), while the current `filter` keeps it once.
   */
  lemma EarlyRepeats(h: Heap, w: VertexId)
    requires Holds(h, w) && h.vertices[w].attrs == map["a" := Int(1), "b" := Int(1)]
    ensures EarlyMatch.Matches(h, [VertexRef(w)], [("a", Equals(Int(1))), ("b", Equals(Int(1)))])
      == Ok([VertexRef(w), VertexRef(w)])
  {
    var x := VertexRef(w);
    var ca: Condition := ("a", Equals(Int(1)));
    var cb: Condition := ("b", Equals(Int(1)));
    assert GetAttr(Early, h, x, "a") == Some(Int(1)) && GetAttr(Early, h, x, "b") == Some(Int(1));
    assert [ca, cb][1..] == [cb] && [cb][1..] == [];
    assert EarlyMatch.PerKey(h, x, []) == Ok([]);
    assert [x] + [] == [x] && [x] + [x] == [x, x] && [x, x] + [] == [x, x];
    assert EarlyMatch.PerKey(h, x, [cb]) == Ok([x]);
    assert EarlyMatch.PerKey(h, x, [ca, cb]) == Ok([x, x]);
    assert [x][1..] == [];
    assert EarlyMatch.Matches(h, [], [ca, cb]) == Ok([]);
  }

  lemma CurrentKeepsOnce(h: Heap, w: VertexId)
    requires Holds(h, w) && h.vertices[w].attrs == map["a" := Int(1), "b" := Int(1)]
    ensures Filter(h, [VertexRef(w)], [("a", Equals(Int(1))), ("b", Equals(Int(1)))]) == [VertexRef(w)]
  {
    var x := VertexRef(w);
    var ca: Condition := ("a", Equals(Int(1)));
    var cb: Condition := ("b", Equals(Int(1)));
    assert Lookup(Current, h, x, "a") == Int(1) && Lookup(Current, h, x, "b") == Int(1);
    assert [ca, cb][1..] == [cb] && [cb][1..] == [] && [x][1..] == [] && [x] + [] == [x];
    assert Seqs.Keep([x], y => CondHolds(h, y, ca)) == [x];
    assert Seqs.Keep([x], y => CondHolds(h, y, cb)) == [x];
  }

  /** `addvertex(obj, uuid=...)` raises: `uuid` is a field of every vertex. */
  lemma UuidIsTaken(h: Heap, g: Registry.Graph, uuid: string, obj: Value, labelArg: Value, z: Value)
    ensures Registry.AddVertex(h, g, uuid, obj, labelArg, [("uuid", z)]) == Err(NameTaken("uuid"))
  {
    assert "uuid" in Taken(Current, VertexKind);
    assert [("uuid", z)][1..] == [];
  }

  /**
   `Vertex(obj, label=z)` in the current revision: `label` binds to the
   constructor's parameter, never to the keywords, and the new vertex's
   `label` reads `z`.
   */
  lemma LabelParameterStored(h: Heap, uuid: string, obj: Value, z: Value)
    ensures CreateVertex(Current, h, uuid, obj, z, []).Ok?
    ensures var (h', u) := CreateVertex(Current, h, uuid, obj, z, []).value;
      GetAttr(Current, h', VertexRef(u), "label") == Some(z)
  {
    SetAttrsSucceedsIff(Taken(Current, VertexKind), map[], []);
    var (h', u) := CreateVertex(Current, h, uuid, obj, z, []).value;
    var r := h'.vertices[u];
    assert r.labelValue == Some(z) && r.attrs == map[] && r.idx.None?;
    assert "label" in VertexDict(r) && VertexDict(r)["label"] == z;
  }

  /** The early revision has no `label` field, so the keyword is stored. */
  lemma LabelStoredInEarly(uuid: string, obj: Value, labelArg: Value, z: Value)
    ensures NewVertex(Early, uuid, obj, labelArg, [("label", z)]).Ok?
  {
    LabelFreeInEarly();
  }

  lemma LabelFreeInEarly()
    ensures "label" !in Taken(Early, VertexKind)
  {
    LabelNotAMethod();
    assert "label" !in FieldNames(Early, VertexKind) && "label" !in ClassData;
  }

  lemma LabelNotAMethod()
    ensures "label" !in ClassMethods(Early, VertexKind)
  {
    assert "label" !in ObjectMethods;
  }
}
