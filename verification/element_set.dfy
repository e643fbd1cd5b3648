/**
 The set-based revision (graph/element.py). Adjacency is kept in frozensets
 that every connection replaces by their union with the new element, the
 result container is a frozenset, `matches` intersects one set per keyword,
 and of the selectors only `out` and `outE` honour conditions.

 Its records are those of the list revisions with sets in place of lists;
 `Abs` forgets order and repetition of a list arena, and connecting vertices
 commutes with it.
 */
module ElementSet {
  import opened Values
  import opened Element
  import opened Attributes
  import EarlyMatch
  import ElementList
  import Seqs

  datatype SVertex = SVertex(
    uuid: string, obj: Value, labelValue: Option<Value>,
    out: set<VertexId>, outE: set<EdgeId>, in_: set<VertexId>, inE: set<EdgeId>,
    idx: Option<int>, attrs: map<string, Value>)

  datatype SEdge = SEdge(
    from: VertexId, to: VertexId, weight: Value, labelValue: Option<Value>,
    inV: set<VertexId>, outV: set<VertexId>,
    idx: Option<int>, attrs: map<string, Value>)

  datatype SHeap = SHeap(vertices: seq<SVertex>, edges: seq<SEdge>)

  function Elems(xs: seq<nat>): (r: set<nat>)
    ensures forall x :: x in r <==> x in xs
  {
    set x | x in xs
  }

  function SVertexOf(r: VertexRec): SVertex {
    SVertex(r.uuid, r.obj, r.labelValue, Elems(r.out), Elems(r.outE), Elems(r.in_), Elems(r.inE), r.idx, r.attrs)
  }

  function SEdgeOf(r: EdgeRec): SEdge {
    SEdge(r.from, r.to, r.weight, r.labelValue, Elems(r.inV), Elems(r.outV), r.idx, r.attrs)
  }

  /** A list arena seen with sets: the same records, each list replaced by the set of its members. */
  function Abs(h: Heap): (s: SHeap)
    ensures |s.vertices| == |h.vertices| && |s.edges| == |h.edges|
    ensures forall u :: 0 <= u < |h.vertices| ==> s.vertices[u] == SVertexOf(h.vertices[u])
    ensures forall e :: 0 <= e < |h.edges| ==> s.edges[e] == SEdgeOf(h.edges[e])
  {
    SHeap(seq(|h.vertices|, i requires 0 <= i < |h.vertices| => SVertexOf(h.vertices[i])),
          seq(|h.edges|, i requires 0 <= i < |h.edges| => SEdgeOf(h.edges[i])))
  }

  // ---------------------------------------------------------------------
  // Construction and connection
  // ---------------------------------------------------------------------

  /** `Vertex(obj, label, **kwds)` of this revision, placed under a fresh handle. */
  function SCreateVertex(h: SHeap, uuid: string, obj: Value, labelArg: Value, kwds: seq<(string, Value)>): (r: Result<(SHeap, VertexId)>)
    ensures r.Ok? <==> Storable(Taken(SetBased, VertexKind), map[], kwds)
    ensures r.Ok? ==> r.value.1 == |h.vertices| && r.value.0.edges == h.edges
    ensures r.Ok? ==> r.value.0.vertices == h.vertices + [SVertexOf(NewVertex(SetBased, uuid, obj, labelArg, kwds).value)]
  {
    match NewVertex(SetBased, uuid, obj, labelArg, kwds)
    case Err(e) => Err(e)
    case Ok(rec) => Ok((SHeap(h.vertices + [SVertexOf(rec)], h.edges), |h.vertices|))
  }

  /**
   `u.edgeto(v, weight, label)`: every adjacency set of the two ends is
   replaced by its union with the new neighbour or edge, so connecting the
   same pair again adds an edge but no neighbour.
   */
  function SEdgeTo(h: SHeap, u: VertexId, v: VertexId, weight: Value, labelArg: Value): (r: (SHeap, EdgeId))
    requires u < |h.vertices| && v < |h.vertices|
    ensures r.1 == |h.edges| && |r.0.edges| == |h.edges| + 1 && r.0.edges[..r.1] == h.edges
    ensures var rec := r.0.edges[r.1];
      rec.from == u && rec.to == v && rec.inV == {v} && rec.outV == {u}
      && rec.weight == weight && rec.labelValue == Some(labelArg) && rec.idx.None? && rec.attrs == map[]
    ensures |r.0.vertices| == |h.vertices|
    ensures r.0.vertices[u].out == h.vertices[u].out + {v}
    ensures r.0.vertices[u].outE == h.vertices[u].outE + {r.1}
    ensures r.0.vertices[v].in_ == h.vertices[v].in_ + {u}
    ensures r.0.vertices[v].inE == h.vertices[v].inE + {r.1}
    ensures u != v ==> r.0.vertices[u].in_ == h.vertices[u].in_ && r.0.vertices[u].inE == h.vertices[u].inE
    ensures u != v ==> r.0.vertices[v].out == h.vertices[v].out && r.0.vertices[v].outE == h.vertices[v].outE
    ensures forall w :: 0 <= w < |h.vertices| ==> SSameExceptAdjacency(r.0.vertices[w], h.vertices[w])
    ensures forall w :: 0 <= w < |h.vertices| && w != u && w != v ==> r.0.vertices[w] == h.vertices[w]
  {
    var e := |h.edges|;
    var rec := SEdgeOf(NewEdge(SetBased, u, v, weight, labelArg, []).value);
    var ru := h.vertices[u];
    var vs := h.vertices[u := ru.(out := ru.out + {v}, outE := ru.outE + {e})];
    var rv := vs[v];
    var vs' := vs[v := rv.(in_ := rv.in_ + {u}, inE := rv.inE + {e})];
    (SHeap(vs', h.edges + [rec.(inV := rec.inV + {v}, outV := rec.outV + {u})]), e)
  }

  /** Everything but the four adjacency sets is the same. */
  predicate SSameExceptAdjacency(a: SVertex, b: SVertex) {
    a.uuid == b.uuid && a.obj == b.obj && a.labelValue == b.labelValue && a.idx == b.idx && a.attrs == b.attrs
  }

  /** `v.edgefrom(u, weight, label)`: the bookkeeping starts at `v`. */
  function SEdgeFrom(h: SHeap, v: VertexId, u: VertexId, weight: Value, labelArg: Value): (SHeap, EdgeId)
    requires u < |h.vertices| && v < |h.vertices|
  {
    var e := |h.edges|;
    var rec := SEdgeOf(NewEdge(SetBased, u, v, weight, labelArg, []).value);
    var rv := h.vertices[v];
    var vs := h.vertices[v := rv.(in_ := rv.in_ + {u}, inE := rv.inE + {e})];
    var ru := vs[u];
    var vs' := vs[u := ru.(out := ru.out + {v}, outE := ru.outE + {e})];
    (SHeap(vs', h.edges + [rec.(inV := rec.inV + {v}, outV := rec.outV + {u})]), e)
  }

  lemma SEdgeFromIsSEdgeTo(h: SHeap, u: VertexId, v: VertexId, weight: Value, labelArg: Value)
    requires u < |h.vertices| && v < |h.vertices|
    ensures SEdgeFrom(h, v, u, weight, labelArg) == SEdgeTo(h, u, v, weight, labelArg)
  {
    var (a, _) := SEdgeFrom(h, v, u, weight, labelArg);
    var (b, _) := SEdgeTo(h, u, v, weight, labelArg);
    assert |a.vertices| == |b.vertices|;
    forall w | 0 <= w < |a.vertices| ensures a.vertices[w] == b.vertices[w] {
    }
    assert a.vertices == b.vertices;
  }

  /**
   Connecting the same ordered pair twice: `u` gains two distinct out-edges
   but `v` only once as out-neighbour, where the list revisions would record it twice.
   */
  lemma ConnectTwice(h: SHeap, u: VertexId, v: VertexId, weight: Value, labelArg: Value)
    requires u < |h.vertices| && v < |h.vertices|
    ensures var (h1, e1) := SEdgeTo(h, u, v, weight, labelArg);
      var (h2, e2) := SEdgeTo(h1, u, v, weight, labelArg);
      && e1 != e2
      && h2.vertices[u].out == h.vertices[u].out + {v}
      && h2.vertices[u].outE == h.vertices[u].outE + {e1, e2}
  {
    var (h1, e1) := SEdgeTo(h, u, v, weight, labelArg);
    var (h2, e2) := SEdgeTo(h1, u, v, weight, labelArg);
    assert h2.vertices[u].out == h1.vertices[u].out + {v};
  }

  lemma ElemsAppend(xs: seq<nat>, x: nat)
    ensures Elems(xs + [x]) == Elems(xs) + {x}
  {
  }

  /** The set revision connects as the list revision does, up to order and repetition. */
  lemma AbsEdgeTo(h: Heap, u: VertexId, v: VertexId, weight: Value, labelArg: Value)
    requires Holds(h, u) && Holds(h, v)
    ensures Abs(EdgeTo(SetBased, h, u, v, weight, labelArg).0) == SEdgeTo(Abs(h), u, v, weight, labelArg).0
  {
    var (lh, e) := EdgeTo(SetBased, h, u, v, weight, labelArg);
    var a := Abs(lh);
    var (b, _) := SEdgeTo(Abs(h), u, v, weight, labelArg);
    forall w | 0 <= w < |a.vertices| ensures a.vertices[w] == b.vertices[w] {
      AbsEdgeToVertex(h, u, v, weight, labelArg, w);
    }
    forall d | 0 <= d < |a.edges| ensures a.edges[d] == b.edges[d] {
      AbsEdgeToEdge(h, u, v, weight, labelArg, d);
    }
    assert a.vertices == b.vertices;
    assert a.edges == b.edges;
  }

  lemma AbsEdgeToEdge(h: Heap, u: VertexId, v: VertexId, weight: Value, labelArg: Value, d: EdgeId)
    requires Holds(h, u) && Holds(h, v) && d <= |h.edges|
    ensures SEdgeOf(EdgeTo(SetBased, h, u, v, weight, labelArg).0.edges[d])
      == SEdgeTo(Abs(h), u, v, weight, labelArg).0.edges[d]
  {
    var (lh, e) := EdgeTo(SetBased, h, u, v, weight, labelArg);
    var (b, _) := SEdgeTo(Abs(h), u, v, weight, labelArg);
    if d < e {
      assert lh.edges[..e][d] == h.edges[d];
      assert b.edges[..e][d] == Abs(h).edges[d];
    }
  }

  lemma AbsEdgeToVertex(h: Heap, u: VertexId, v: VertexId, weight: Value, labelArg: Value, w: VertexId)
    requires Holds(h, u) && Holds(h, v) && Holds(h, w)
    ensures SVertexOf(EdgeTo(SetBased, h, u, v, weight, labelArg).0.vertices[w])
      == SEdgeTo(Abs(h), u, v, weight, labelArg).0.vertices[w]
  {
    var (lh, e) := EdgeTo(SetBased, h, u, v, weight, labelArg);
    var r, r' := h.vertices[w], lh.vertices[w];
    assert SameExceptAdjacency(r', r);
    if w == u {
      ElemsAppend(r.out, v);
      ElemsAppend(r.outE, e);
    }
    if w == v {
      ElemsAppend(r.in_, u);
      ElemsAppend(r.inE, e);
    }
  }

  /** Construction too: the set arena of a list arena built by the same calls. */
  lemma AbsCreateVertex(h: Heap, uuid: string, obj: Value, labelArg: Value, kwds: seq<(string, Value)>)
    requires CreateVertex(SetBased, h, uuid, obj, labelArg, kwds).Ok?
    ensures SCreateVertex(Abs(h), uuid, obj, labelArg, kwds).Ok?
    ensures var (lh, u) := CreateVertex(SetBased, h, uuid, obj, labelArg, kwds).value;
      SCreateVertex(Abs(h), uuid, obj, labelArg, kwds).value == (Abs(lh), u)
  {
    AbsAppendVertex(h, NewVertex(SetBased, uuid, obj, labelArg, kwds).value);
  }

  lemma AbsAppendVertex(h: Heap, rec: VertexRec)
    ensures Abs(Heap(h.vertices + [rec], h.edges)) == SHeap(Abs(h).vertices + [SVertexOf(rec)], Abs(h).edges)
  {
    var a := Abs(Heap(h.vertices + [rec], h.edges));
    var b := SHeap(Abs(h).vertices + [SVertexOf(rec)], Abs(h).edges);
    forall i | 0 <= i < |a.vertices| ensures a.vertices[i] == b.vertices[i] {
      if i < |h.vertices| { assert (h.vertices + [rec])[i] == h.vertices[i]; }
    }
    assert a.vertices == b.vertices;
  }

  // ---------------------------------------------------------------------
  // Attributes
  // ---------------------------------------------------------------------

  function VertexSet(vs: set<VertexId>): (r: set<Value>)
    ensures forall x :: x in r <==> x.VertexRef? && x.v in vs
  {
    set v | v in vs :: VertexRef(v)
  }

  function EdgeSet(es: set<EdgeId>): (r: set<Value>)
    ensures forall x :: x in r <==> x.EdgeRef? && x.e in es
  {
    set e | e in es :: EdgeRef(e)
  }

  function SVertexDict(r: SVertex): map<string, Value> {
    var fields := map[
      "uuid" := Str(r.uuid), "obj" := r.obj,
      "_out" := FSet(VertexSet(r.out)), "_outE" := FSet(EdgeSet(r.outE)),
      "_in_" := FSet(VertexSet(r.in_)), "_inE" := FSet(EdgeSet(r.inE))];
    var labelled := if r.labelValue.Some? then fields["label" := r.labelValue.value] else fields;
    var stamped := if r.idx.Some? then labelled["idx" := Int(r.idx.value)] else labelled;
    stamped + r.attrs
  }

  function SEdgeDict(r: SEdge): map<string, Value> {
    var fields := map[
      "from_" := VertexRef(r.from), "to" := VertexRef(r.to), "weight" := r.weight,
      "_inV" := FSet(VertexSet(r.inV)), "_outV" := FSet(VertexSet(r.outV))];
    var labelled := if r.labelValue.Some? then fields["label" := r.labelValue.value] else fields;
    var stamped := if r.idx.Some? then labelled["idx" := Int(r.idx.value)] else labelled;
    stamped + r.attrs
  }

  /** `getattr(x, name)` in this revision, None when `hasattr` is false. */
  function SGetAttr(h: SHeap, x: Value, name: string): Option<Value> {
    match x
    case VertexRef(u) =>
      if u < |h.vertices| then Resolve(SetBased, VertexKind, SVertexDict(h.vertices[u]), x, name) else None
    case EdgeRef(e) =>
      if e < |h.edges| then Resolve(SetBased, EdgeKind, SEdgeDict(h.edges[e]), x, name) else None
    case _ => None
  }

  lemma SEdgeDictKeys(r: SEdge)
    ensures SEdgeDict(r).Keys ==
      {"from_", "to", "weight", "_inV", "_outV"}
      + (if r.labelValue.Some? then {"label"} else {})
      + (if r.idx.Some? then {"idx"} else {})
      + r.attrs.Keys
  {
  }

  lemma SVertexDictKeys(r: SVertex)
    ensures SVertexDict(r).Keys ==
      {"uuid", "obj", "_out", "_outE", "_in_", "_inE"}
      + (if r.labelValue.Some? then {"label"} else {})
      + (if r.idx.Some? then {"idx"} else {})
      + r.attrs.Keys
  {
  }

  /**
   The names taken at construction in this revision are exactly the names a
   fresh vertex without keywords already has, `matches` included.
   */
  lemma STakenIsPresentOnFreshVertex(h: SHeap, uuid: string, obj: Value, labelArg: Value, name: string)
    ensures SCreateVertex(h, uuid, obj, labelArg, []).Ok?
    ensures var (h', u) := SCreateVertex(h, uuid, obj, labelArg, []).value;
      SGetAttr(h', VertexRef(u), name).Some? <==> name in Taken(SetBased, VertexKind)
  {
    SetAttrsSucceedsIff(Taken(SetBased, VertexKind), map[], []);
    var (h', u) := SCreateVertex(h, uuid, obj, labelArg, []).value;
    var r := h'.vertices[u];
    assert r.attrs == map[] && r.idx.None? && r.labelValue.Some?;
    BareSVertexHasTaken(r, VertexRef(u), name);
  }

  lemma BareSVertexHasTaken(r: SVertex, x: Value, name: string)
    requires r.attrs == map[] && r.idx.None? && r.labelValue.Some?
    ensures Resolve(SetBased, VertexKind, SVertexDict(r), x, name).Some? <==> name in Taken(SetBased, VertexKind)
  {
    SVertexDictKeys(r);
    assert SVertexDict(r).Keys == FieldNames(SetBased, VertexKind);
    ResolvePresent(SetBased, VertexKind, SVertexDict(r), x, name);
  }

  /** The same for the edge `edgeto` creates in this revision. */
  lemma STakenIsPresentOnFreshEdge(h: SHeap, from: VertexId, to: VertexId, weight: Value, labelArg: Value, name: string)
    ensures NewEdge(SetBased, from, to, weight, labelArg, []).Ok?
    ensures var h' := SHeap(h.vertices, h.edges + [SEdgeOf(NewEdge(SetBased, from, to, weight, labelArg, []).value)]);
      SGetAttr(h', EdgeRef(|h.edges|), name).Some? <==> name in Taken(SetBased, EdgeKind)
  {
    SetAttrsSucceedsIff(Taken(SetBased, EdgeKind), map[], []);
    var r := SEdgeOf(NewEdge(SetBased, from, to, weight, labelArg, []).value);
    assert r.attrs == map[] && r.idx.None? && r.labelValue.Some?;
    BareSEdgeAppended(h, r, name);
  }

  lemma BareSEdgeAppended(h: SHeap, r: SEdge, name: string)
    requires r.attrs == map[] && r.idx.None? && r.labelValue.Some?
    ensures SGetAttr(SHeap(h.vertices, h.edges + [r]), EdgeRef(|h.edges|), name).Some? <==> name in Taken(SetBased, EdgeKind)
  {
    var h' := SHeap(h.vertices, h.edges + [r]);
    assert h'.edges[|h.edges|] == r;
    BareSEdgeHasTaken(r, EdgeRef(|h.edges|), name);
  }

  lemma BareSEdgeHasTaken(r: SEdge, x: Value, name: string)
    requires r.attrs == map[] && r.idx.None? && r.labelValue.Some?
    ensures Resolve(SetBased, EdgeKind, SEdgeDict(r), x, name).Some? <==> name in Taken(SetBased, EdgeKind)
  {
    SEdgeDictKeys(r);
    assert SEdgeDict(r).Keys == FieldNames(SetBased, EdgeKind);
    ResolvePresent(SetBased, EdgeKind, SEdgeDict(r), x, name);
  }

  lemma SEdgeSelectorIsBound(h: SHeap, e: EdgeId, name: string)
    requires e < |h.edges| && h.edges[e].attrs.Keys !! Taken(SetBased, EdgeKind)
    requires name in EdgeMethods
    ensures SGetAttr(h, EdgeRef(e), name) == Some(Bound(EdgeRef(e), name))
  {
    MethodIsTaken(SetBased, EdgeKind, name);
    SEdgeMethodResolves(h, e, name);
  }

  lemma SEdgeMethodResolves(h: SHeap, e: EdgeId, name: string)
    requires e < |h.edges| && name in EdgeMethods && name !in h.edges[e].attrs
    ensures SGetAttr(h, EdgeRef(e), name) == Some(Bound(EdgeRef(e), name))
  {
    var r := h.edges[e];
    MethodIsTaken(SetBased, EdgeKind, name);
    SelectorsAreNotFields();
    SEdgeDictKeys(r);
    ResolveMethod(SetBased, EdgeKind, SEdgeDict(r), EdgeRef(e), name);
  }

  // ---------------------------------------------------------------------
  // matches: an intersection over the keywords
  // ---------------------------------------------------------------------

  /** `hasattr(elem, key) and getattr(elem, key) == kwds.get(key)`: a missing name fails the test instead of raising. */
  predicate SKeyMatches(h: SHeap, x: Value, c: Condition) {
    SGetAttr(h, x, c.0).Some? && EarlyMatch.EqualsSpec(SGetAttr(h, x, c.0).value, c.1)
  }

  /** The members passing one keyword's test. */
  function KeySet(h: SHeap, xs: set<Value>, c: Condition): set<Value> {
    set x | x in xs && SKeyMatches(h, x, c)
  }

  /** The per-keyword sets, in keyword order. */
  function KeySets(h: SHeap, xs: set<Value>, conds: seq<Condition>): (r: seq<set<Value>>)
    ensures |r| == |conds|
    ensures forall j :: 0 <= j < |conds| ==> r[j] == KeySet(h, xs, conds[j])
  {
    seq(|conds|, j requires 0 <= j < |conds| => KeySet(h, xs, conds[j]))
  }

  /** The intersection of the per-keyword sets holds exactly the members passing every keyword. */
  lemma IntersectionIsConjunction(h: SHeap, xs: set<Value>, conds: seq<Condition>, y: Value)
    requires |conds| > 0
    ensures y in Seqs.Meet(KeySets(h, xs, conds)) <==> y in xs && forall j :: 0 <= j < |conds| ==> SKeyMatches(h, y, conds[j])
  {
    var sets := KeySets(h, xs, conds);
    Seqs.MeetMembers(sets, y);
    if forall j :: 0 <= j < |sets| ==> y in sets[j] {
      assert y in sets[0];
    }
  }

  /**
   `matches(_list, **kwds)`: members passing every keyword (AND), each once.
   Without keywords there is nothing to intersect and Python raises.
   */
  function SMatches(h: SHeap, xs: set<Value>, conds: seq<Condition>): (r: Result<set<Value>>)
    ensures r.Err? <==> |conds| == 0
    ensures r.Ok? ==> forall y :: y in r.value <==>
      y in xs && forall j :: 0 <= j < |conds| ==> SKeyMatches(h, y, conds[j])
  {
    if |conds| == 0 then Err(NoSets)
    else
      assert forall y :: y in Seqs.Meet(KeySets(h, xs, conds)) <==>
          y in xs && forall j :: 0 <= j < |conds| ==> SKeyMatches(h, y, conds[j]) by {
        forall y ensures y in Seqs.Meet(KeySets(h, xs, conds)) <==>
            y in xs && forall j :: 0 <= j < |conds| ==> SKeyMatches(h, y, conds[j]) {
          IntersectionIsConjunction(h, xs, conds, y);
        }
      }
      Ok(Seqs.Meet(KeySets(h, xs, conds)))
  }

  // ---------------------------------------------------------------------
  // Selectors
  // ---------------------------------------------------------------------

  /** What a selector reads; `both`/`bothE` are unions. */
  function SAdjacent(r: SVertex, s: ElementList.Selector): set<Value> {
    match s
    case Out => VertexSet(r.out)
    case OutE => EdgeSet(r.outE)
    case In => VertexSet(r.in_)
    case InE => EdgeSet(r.inE)
    case Both => VertexSet(r.out) + VertexSet(r.in_)
    case BothE => EdgeSet(r.outE) + EdgeSet(r.inE)
  }

  /**
   The selectors of this revision: the stored set without conditions; with
   conditions `out`/`outE` go through `matches`, and the others return `{}`,
   an empty dict rather than a set.
   */
  function SSelect(h: SHeap, u: VertexId, s: ElementList.Selector, conds: seq<Condition>): (r: Value)
    requires u < |h.vertices|
    ensures |conds| == 0 ==> r == FSet(SAdjacent(h.vertices[u], s))
    ensures |conds| > 0 && (s.Out? || s.OutE?) ==> r.FSet? && forall y :: y in r.elems <==>
      y in SAdjacent(h.vertices[u], s) && forall j :: 0 <= j < |conds| ==> SKeyMatches(h, y, conds[j])
    ensures |conds| > 0 && !(s.Out? || s.OutE?) ==> r == Dict(map[])
  {
    if |conds| == 0 then FSet(SAdjacent(h.vertices[u], s))
    else if s.Out? || s.OutE? then FSet(SMatches(h, SAdjacent(h.vertices[u], s), conds).value)
    else Dict(map[])
  }

  /** A method value called with keyword conditions; non-selector methods are not modelled. */
  function SInvoke(h: SHeap, m: Value, conds: seq<Condition>): (r: Result<Value>)
    ensures !Callable(m) <==> r == Err(NotCallable)
    ensures r.Err? && Callable(m) ==> r.error == Unsupported(m.name)
    ensures m.Bound? && m.receiver.VertexRef? && m.receiver.v < |h.vertices| && ElementList.SelectorNamed(m.name).Some?
      ==> r == Ok(SSelect(h, m.receiver.v, ElementList.SelectorNamed(m.name).value, conds))
    ensures m.Bound? && m.receiver.EdgeRef? && m.receiver.e < |h.edges| && m.name == "inV"
      ==> r == Ok(FSet(VertexSet(h.edges[m.receiver.e].inV)))
    ensures m.Bound? && m.receiver.EdgeRef? && m.receiver.e < |h.edges| && m.name == "outV"
      ==> r == Ok(FSet(VertexSet(h.edges[m.receiver.e].outV)))
  {
    if !m.Bound? then Err(NotCallable)
    else match m.receiver
      case VertexRef(u) =>
        if u < |h.vertices| && ElementList.SelectorNamed(m.name).Some? then
          Ok(SSelect(h, u, ElementList.SelectorNamed(m.name).value, conds))
        else Err(Unsupported(m.name))
      case EdgeRef(e) =>
        if e < |h.edges| && m.name in EdgeMethods then
          Ok(FSet(VertexSet(if m.name == "inV" then h.edges[e].inV else h.edges[e].outV)))
        else Err(Unsupported(m.name))
      case _ => Err(Unsupported(m.name))
  }

  // ---------------------------------------------------------------------
  // Forwarding: ElementSet.__getattr__
  // ---------------------------------------------------------------------

  /** What iterating a selector's result yields: a set's members, a dict's keys. */
  function Members(v: Value): set<Value> {
    match v
    case FSet(s) => s
    case Dict(m) => set k | k in m.Keys :: Str(k)
    case _ => {}
  }

  /** `_callable`: every member that has the name has a method under it. */
  predicate SAllCallable(h: SHeap, xs: set<Value>, name: string) {
    forall x :: x in xs && SGetAttr(h, x, name).Some? ==> Callable(SGetAttr(h, x, name).value)
  }

  function SCallOne(h: SHeap, x: Value, name: string, conds: seq<Condition>): Result<Value> {
    match SGetAttr(h, x, name)
    case None => Ok(FSet({}))
    case Some(m) => SInvoke(h, m, conds)
  }

  /** The call `callme` makes on one member, as a function of the member. */
  function CallOf(h: SHeap, name: string, conds: seq<Condition>): Value -> Result<Value> {
    x => SCallOne(h, x, name, conds)
  }

  /**
   The union of the sets `call` returns over the members of `xs`, or the
   error of a member whose call raises. Members are visited in the
   frozenset's iteration order, which the model does not fix: when several
   raise, one of their errors surfaces.
   */
  ghost function UnionOfCalls(xs: set<Value>, call: Value -> Result<Value>): (r: Result<set<Value>>)
    ensures r.Err? <==> exists x :: x in xs && call(x).Err?
    ensures r.Err? ==> exists x :: x in xs && call(x) == Err(r.error)
    ensures r.Ok? ==> forall y :: y in r.value <==> exists x :: x in xs && call(x).Ok? && y in Members(call(x).value)
  {
    if forall x :: x in xs ==> call(x).Ok? then
      Ok(set x, y | x in xs && call(x).Ok? && y in Members(call(x).value) :: y)
    else
      var x :| x in xs && call(x).Err?;
      Err(call(x).error)
  }

  /** `callme(**kwds)` over a frozenset: the union of the holders' results, or the error of a member that raises. */
  ghost function SCallForwarded(h: SHeap, xs: set<Value>, name: string, conds: seq<Condition>): (r: Result<set<Value>>)
    requires SAllCallable(h, xs, name)
    ensures r.Err? <==> exists x :: x in xs && SCallOne(h, x, name, conds).Err?
    ensures r.Err? ==> exists x :: x in xs && SCallOne(h, x, name, conds) == Err(r.error)
    ensures r.Ok? ==> forall y :: y in r.value <==>
      exists x :: x in xs && SCallOne(h, x, name, conds).Ok? && y in Members(SCallOne(h, x, name, conds).value)
  {
    UnionOfCalls(xs, CallOf(h, name, conds))
  }

  predicate Hashable(v: Value) {
    !v.List? && !v.Dict?
  }

  /**
   The non-callable branch: `ElementSet(values)`. Equal values collapse into
   one, and a list or dict value cannot enter a frozenset.
   */
  function SProject(h: SHeap, xs: set<Value>, name: string): (r: Result<set<Value>>)
    ensures r.Err? <==> exists x :: x in xs && SGetAttr(h, x, name).Some? && !Hashable(SGetAttr(h, x, name).value)
    ensures r.Ok? ==> forall y :: y in r.value <==> exists x :: x in xs && SGetAttr(h, x, name) == Some(y)
  {
    if exists x :: x in xs && SGetAttr(h, x, name).Some? && !Hashable(SGetAttr(h, x, name).value) then Err(Unhashable)
    else Ok(set x | x in xs && SGetAttr(h, x, name).Some? :: SGetAttr(h, x, name).value)
  }

  datatype SetAccess = SetCall | SetValues(items: Result<set<Value>>)

  function SForward(h: SHeap, xs: set<Value>, name: string): (a: SetAccess)
    ensures a.SetCall? <==> SAllCallable(h, xs, name)
    ensures a.SetValues? ==> a.items == SProject(h, xs, name)
  {
    if SAllCallable(h, xs, name) then SetCall else SetValues(SProject(h, xs, name))
  }

  /** In a well-formed arena an out-edge of `u` starts at `u`, ends at an out-neighbour, and lists that end as `inV`. */
  lemma OutEdgeFacts(h: Heap, u: VertexId, e: EdgeId)
    requires Valid(SetBased, h) && Holds(h, u) && e in h.vertices[u].outE
    ensures e < |h.edges| && h.edges[e].to in h.vertices[u].out && h.edges[e].inV == [h.edges[e].to]
    ensures h.edges[e].attrs.Keys !! Taken(SetBased, EdgeKind)
  {
    var r := h.vertices[u];
    assert ValidVertex(SetBased, h, u);
    var i :| 0 <= i < |r.outE| && r.outE[i] == e;
    assert r.out[i] in r.out;
    assert ValidEdge(SetBased, h, e);
  }

  /** Each out-edge of `u` answers `inV` with the set holding its head, which is an out-neighbour of `u`. */
  lemma SOutEdgeInV(h: Heap, u: VertexId, e: EdgeId, conds: seq<Condition>)
    requires Valid(SetBased, h) && Holds(h, u) && e in h.vertices[u].outE
    ensures e < |h.edges| && h.edges[e].to in h.vertices[u].out
    ensures SGetAttr(Abs(h), EdgeRef(e), "inV") == Some(Bound(EdgeRef(e), "inV"))
    ensures SCallOne(Abs(h), EdgeRef(e), "inV", conds) == Ok(FSet({VertexRef(h.edges[e].to)}))
  {
    OutEdgeFacts(h, u, e);
    var sh := Abs(h);
    assert sh.edges[e] == SEdgeOf(h.edges[e]);
    SEdgeSelectorIsBound(sh, e, "inV");
    assert sh.edges[e].inV == {h.edges[e].to};
    assert SInvoke(sh, Bound(EdgeRef(e), "inV"), conds) == Ok(FSet(VertexSet({h.edges[e].to})));
    assert VertexSet({h.edges[e].to}) == {VertexRef(h.edges[e].to)};
  }

  /**
   When every member answers the call with a one-element set, and those
   elements are exactly `outs`, the union of the calls is `outs`.
   */
  lemma UnionOfSingletons(xs: set<Value>, call: Value -> Result<Value>, f: Value -> Value, outs: set<Value>)
    requires forall x :: x in xs ==> call(x) == Ok(FSet({f(x)}))
    requires forall x :: x in xs ==> f(x) in outs
    requires forall y :: y in outs ==> exists x :: x in xs && f(x) == y
    ensures UnionOfCalls(xs, call) == Ok(outs)
  {
    UnionWithin(xs, call, f, outs);
    UnionCovers(xs, call, f, outs);
    var got := UnionOfCalls(xs, call).value;
    assert got <= outs && outs <= got;
    assert got == outs;
    assert UnionOfCalls(xs, call) == Ok(got);
  }

  lemma UnionWithin(xs: set<Value>, call: Value -> Result<Value>, f: Value -> Value, outs: set<Value>)
    requires forall x :: x in xs ==> call(x) == Ok(FSet({f(x)}))
    requires forall x :: x in xs ==> f(x) in outs
    ensures UnionOfCalls(xs, call).Ok? && UnionOfCalls(xs, call).value <= outs
  {
    var res := UnionOfCalls(xs, call);
    forall y | y in res.value ensures y in outs {
      var x :| x in xs && call(x).Ok? && y in Members(call(x).value);
    }
  }

  lemma UnionCovers(xs: set<Value>, call: Value -> Result<Value>, f: Value -> Value, outs: set<Value>)
    requires forall x :: x in xs ==> call(x) == Ok(FSet({f(x)}))
    requires forall y :: y in outs ==> exists x :: x in xs && f(x) == y
    ensures UnionOfCalls(xs, call).Ok? && outs <= UnionOfCalls(xs, call).value
  {
    var res := UnionOfCalls(xs, call);
    forall y | y in outs ensures y in res.value {
      var x :| x in xs && f(x) == y;
      assert y in Members(call(x).value);
    }
  }

  /** The head of an edge handle, for the edges of `h`. */
  function Head(h: Heap, x: Value): Value {
    if x.EdgeRef? && x.e < |h.edges| then VertexRef(h.edges[x.e].to) else Nil
  }

  /**
   `o.outE().inV()` is `o.out()` in this revision too, for every arena the
   operations build (the abstraction of a well-formed list arena).
   */
  lemma SOutEInVIsOut(h: Heap, u: VertexId, conds: seq<Condition>)
    requires Valid(SetBased, h) && Holds(h, u)
    ensures var sh := Abs(h);
      && SForward(sh, EdgeSet(sh.vertices[u].outE), "inV") == SetCall
      && SCallForwarded(sh, EdgeSet(sh.vertices[u].outE), "inV", conds) == Ok(VertexSet(sh.vertices[u].out))
  {
    var sh := Abs(h);
    var r := h.vertices[u];
    assert sh.vertices[u] == SVertexOf(r);
    var xs := EdgeSet(sh.vertices[u].outE);
    var outs := VertexSet(sh.vertices[u].out);
    var f := x => Head(h, x);
    forall x | x in xs
      ensures SGetAttr(sh, x, "inV") == Some(Bound(x, "inV"))
      ensures CallOf(sh, "inV", conds)(x) == Ok(FSet({f(x)}))
      ensures f(x) in outs
    {
      SOutEdgeInV(h, u, x.e, conds);
    }
    forall y | y in outs ensures exists x :: x in xs && f(x) == y {
      OutNeighbourHasEdge(h, u, y.v);
      var e :| e in r.outE && e < |h.edges| && h.edges[e].to == y.v;
      assert EdgeRef(e) in xs && f(EdgeRef(e)) == y;
    }
    assert SAllCallable(sh, xs, "inV");
    UnionOfSingletons(xs, CallOf(sh, "inV", conds), f, outs);
  }

  /** Every out-neighbour is the head of some out-edge. */
  lemma OutNeighbourHasEdge(h: Heap, u: VertexId, w: VertexId)
    requires Valid(SetBased, h) && Holds(h, u) && w in h.vertices[u].out
    ensures exists e :: e in h.vertices[u].outE && e < |h.edges| && h.edges[e].to == w
  {
    var r := h.vertices[u];
    assert ValidVertex(SetBased, h, u);
    var i :| 0 <= i < |r.out| && r.out[i] == w;
    assert r.outE[i] in r.outE;
  }
}
