/**
 Vertices and edges of the list-based revisions (pylgrim/element.py, the
 current one, and graph/graph.py, the early one) kept in an arena: a vertex
 or edge is a handle, its state an immutable record, and every operation
 that mutates objects in Python is a function from arena to arena.
 */
module Element {
  import opened Values

  /** The three revisions of the element classes kept in the repository. */
  datatype Rev = Current | SetBased | Early

  datatype Kind = VertexKind | EdgeKind

  /** The methods every Python 3 object has (3.8 to 3.10; later versions add `__getstate__`). */
  const ObjectMethods: set<string> := {
    "__class__", "__delattr__", "__dir__", "__eq__", "__format__", "__ge__",
    "__getattribute__", "__gt__", "__hash__", "__init__", "__init_subclass__",
    "__le__", "__lt__", "__ne__", "__new__", "__reduce__", "__reduce_ex__",
    "__repr__", "__setattr__", "__sizeof__", "__str__", "__subclasshook__"
  }

  /** The data attributes every instance of a user-defined class has. */
  const ClassData: set<string> := {"__dict__", "__doc__", "__module__", "__weakref__"}

  const VertexMethods: set<string> := {
    "edgeto", "edgefrom", "__rshift__", "__lshift__",
    "out", "outE", "in_", "inE", "both", "bothE"
  }

  const EdgeMethods: set<string> := {"inV", "outV"}

  /** Methods the `Element` base class adds: `idx` in the current revision, `matches` in the two older ones. */
  function ElementMethods(rev: Rev): set<string> {
    match rev
    case Current => {"idx"}
    case SetBased => {"idx", "matches"}
    case Early => {"matches"}
  }

  /** Names a class provides: methods (callable) and the class data attributes. */
  function ClassMethods(rev: Rev, kind: Kind): set<string> {
    ObjectMethods + ElementMethods(rev) + (if kind == VertexKind then VertexMethods else EdgeMethods)
  }

  /** Instance fields a constructor assigns before handing the keywords to `Element.__init__`. */
  function FieldNames(rev: Rev, kind: Kind): set<string> {
    var own := if kind == VertexKind then {"uuid", "obj", "_out", "_outE", "_in_", "_inE"}
               else {"from_", "to", "weight", "_inV", "_outV"};
    if rev == Early then own else own + {"label"}
  }

  /** The names `hasattr` finds on an element while its keywords are being stored. */
  function Taken(rev: Rev, kind: Kind): set<string> {
    FieldNames(rev, kind) + ClassData + ClassMethods(rev, kind)
  }

  datatype VertexRec = VertexRec(
    uuid: string,
    obj: Value,
    labelValue: Option<Value>, // `label`; None: the revision has no such field
    out: seq<VertexId>,
    outE: seq<EdgeId>,
    in_: seq<VertexId>,
    inE: seq<EdgeId>,
    idx: Option<int>,         // the position stamped by the graph registry, once stamped
    attrs: map<string, Value> // the user keywords
  )

  datatype EdgeRec = EdgeRec(
    from: VertexId,
    to: VertexId,
    weight: Value,
    labelValue: Option<Value>,
    inV: seq<VertexId>,
    outV: seq<VertexId>,
    idx: Option<int>,
    attrs: map<string, Value>
  )

  datatype Heap = Heap(vertices: seq<VertexRec>, edges: seq<EdgeRec>)

  /** Keyword names `kwds` can store on top of `acc`: none taken, none already set, none repeated. */
  ghost predicate Storable(taken: set<string>, acc: map<string, Value>, kwds: seq<(string, Value)>) {
    forall i :: 0 <= i < |kwds| ==>
      && kwds[i].0 !in taken
      && kwds[i].0 !in acc
      && forall j :: 0 <= j < i ==> kwds[j].0 != kwds[i].0
  }

  ghost function Names(kwds: seq<(string, Value)>): set<string> {
    set i | 0 <= i < |kwds| :: kwds[i].0
  }

  /**
   The loop of `Element.__init__`: store the keywords in call order, raising
   on the first one whose name is already present on the object.
   */
  function SetAttrs(taken: set<string>, acc: map<string, Value>, kwds: seq<(string, Value)>): Result<map<string, Value>>
    decreases |kwds|
  {
    if |kwds| == 0 then Ok(acc)
    else
      var (k, v) := kwds[0];
      if k in taken || k in acc then Err(NameTaken(k))
      else SetAttrs(taken, acc[k := v], kwds[1..])
  }

  /** Storing succeeds exactly when no keyword is taken, already set, or repeated. */
  lemma {:induction false} SetAttrsSucceedsIff(taken: set<string>, acc: map<string, Value>, kwds: seq<(string, Value)>)
    ensures SetAttrs(taken, acc, kwds).Ok? <==> Storable(taken, acc, kwds)
    decreases |kwds|
  {
    if |kwds| > 0 {
      var (k, v) := kwds[0];
      if !(k in taken || k in acc) {
        SetAttrsSucceedsIff(taken, acc[k := v], kwds[1..]);
        if Storable(taken, acc, kwds) {
          forall i | 0 <= i < |kwds[1..]|
            ensures kwds[1..][i].0 !in taken && kwds[1..][i].0 !in acc[k := v]
          {
            assert kwds[1..][i] == kwds[i + 1];
          }
        }
        if Storable(taken, acc[k := v], kwds[1..]) {
          forall i | 0 <= i < |kwds|
            ensures kwds[i].0 !in taken && kwds[i].0 !in acc && forall j :: 0 <= j < i ==> kwds[j].0 != kwds[i].0
          {
            if i > 0 {
              assert kwds[i] == kwds[1..][i - 1];
              forall j | 0 <= j < i ensures kwds[j].0 != kwds[i].0 {
                if j > 0 { assert kwds[j] == kwds[1..][j - 1]; }
              }
            }
          }
        }
      }
    }
  }

  /** After storing, every keyword is present with its value and earlier attributes are kept. */
  lemma {:induction false} SetAttrsStores(taken: set<string>, acc: map<string, Value>, kwds: seq<(string, Value)>)
    requires SetAttrs(taken, acc, kwds).Ok?
    ensures var m := SetAttrs(taken, acc, kwds).value;
      && m.Keys == acc.Keys + Names(kwds)
      && (forall k :: k in acc ==> m[k] == acc[k])
      && (forall i :: 0 <= i < |kwds| ==> m[kwds[i].0] == kwds[i].1)
    decreases |kwds|
  {
    if |kwds| > 0 {
      var (k, v) := kwds[0];
      SetAttrsStores(taken, acc[k := v], kwds[1..]);
      assert Names(kwds) == {k} + Names(kwds[1..]) by {
        forall n | n in Names(kwds) ensures n in {k} + Names(kwds[1..]) {
          var i :| 0 <= i < |kwds| && kwds[i].0 == n;
          if i > 0 { assert kwds[1..][i - 1].0 == n; }
        }
        forall n | n in Names(kwds[1..]) ensures n in Names(kwds) {
          var i :| 0 <= i < |kwds[1..]| && kwds[1..][i].0 == n;
          assert kwds[i + 1].0 == n;
        }
      }
      var m := SetAttrs(taken, acc, kwds).value;
      forall i | 0 <= i < |kwds| ensures m[kwds[i].0] == kwds[i].1 {
        if i > 0 { assert kwds[i] == kwds[1..][i - 1]; }
      }
    }
  }

  /** A refused call names the first offending keyword: everything before it could be stored. */
  lemma {:induction false} SetAttrsRefusesFirstClash(taken: set<string>, acc: map<string, Value>, kwds: seq<(string, Value)>)
    requires SetAttrs(taken, acc, kwds).Err?
    ensures exists i ::
      && 0 <= i < |kwds|
      && Storable(taken, acc, kwds[..i])
      && !Storable(taken, acc, kwds[..i + 1])
      && SetAttrs(taken, acc, kwds).error == NameTaken(kwds[i].0)
    decreases |kwds|
  {
    var (k, v) := kwds[0];
    if k in taken || k in acc {
      assert kwds[..0] == [] && kwds[..1] == [kwds[0]];
      assert !Storable(taken, acc, kwds[..1]);
    } else {
      SetAttrsRefusesFirstClash(taken, acc[k := v], kwds[1..]);
      var i :| 0 <= i < |kwds[1..]| && Storable(taken, acc[k := v], kwds[1..][..i])
        && !Storable(taken, acc[k := v], kwds[1..][..i + 1])
        && SetAttrs(taken, acc[k := v], kwds[1..]).error == NameTaken(kwds[1..][i].0);
      StorableCons(taken, acc, kwds[..i + 1]);
      assert kwds[..i + 1][1..] == kwds[1..][..i];
      StorableCons(taken, acc, kwds[..i + 2]);
      assert kwds[..i + 2][1..] == kwds[1..][..i + 1];
    }
  }

  /** Storing a keyword list is storing its head, then its tail on top. */
  lemma StorableCons(taken: set<string>, acc: map<string, Value>, kwds: seq<(string, Value)>)
    requires |kwds| > 0
    ensures Storable(taken, acc, kwds) <==>
      kwds[0].0 !in taken && kwds[0].0 !in acc && Storable(taken, acc[kwds[0].0 := kwds[0].1], kwds[1..])
  {
    SetAttrsSucceedsIff(taken, acc, kwds);
    if kwds[0].0 !in taken && kwds[0].0 !in acc {
      SetAttrsSucceedsIff(taken, acc[kwds[0].0 := kwds[0].1], kwds[1..]);
    }
  }

  /** `Vertex(obj, label, **kwds)`: in the early revision `label` is not a parameter and there is no such field. */
  function NewVertex(rev: Rev, uuid: string, obj: Value, labelArg: Value, kwds: seq<(string, Value)>): (r: Result<VertexRec>)
    ensures r.Ok? <==> Storable(Taken(rev, VertexKind), map[], kwds)
    ensures r.Err? ==> exists i :: 0 <= i < |kwds| && r.error == NameTaken(kwds[i].0)
    ensures r.Ok? ==> r.value.attrs.Keys == Names(kwds) && r.value.attrs.Keys !! Taken(rev, VertexKind)
    ensures r.Ok? ==> forall i :: 0 <= i < |kwds| ==> r.value.attrs[kwds[i].0] == kwds[i].1
    ensures r.Ok? ==> r.value.out == r.value.outE == r.value.in_ == r.value.inE == [] && r.value.idx.None?
    ensures r.Ok? ==>
      r.value.uuid == uuid && r.value.obj == obj && r.value.labelValue == (if rev == Early then None else Some(labelArg))
  {
    SetAttrsSucceedsIff(Taken(rev, VertexKind), map[], kwds);
    match SetAttrs(Taken(rev, VertexKind), map[], kwds)
    case Err(e) =>
      SetAttrsRefusesFirstClash(Taken(rev, VertexKind), map[], kwds);
      Err(e)
    case Ok(attrs) =>
      SetAttrsStores(Taken(rev, VertexKind), map[], kwds);
      Ok(VertexRec(uuid, obj, if rev == Early then None else Some(labelArg), [], [], [], [], None, attrs))
  }

  /** `Edge(from_, to, weight, label, **kwds)`; the early revision has no `label`. */
  function NewEdge(rev: Rev, from: VertexId, to: VertexId, weight: Value, labelArg: Value, kwds: seq<(string, Value)>): (r: Result<EdgeRec>)
    ensures r.Ok? <==> Storable(Taken(rev, EdgeKind), map[], kwds)
    ensures r.Err? ==> exists i :: 0 <= i < |kwds| && r.error == NameTaken(kwds[i].0)
    ensures r.Ok? ==> r.value.attrs.Keys == Names(kwds) && r.value.attrs.Keys !! Taken(rev, EdgeKind)
    ensures r.Ok? ==> forall i :: 0 <= i < |kwds| ==> r.value.attrs[kwds[i].0] == kwds[i].1
    ensures r.Ok? ==> r.value.from == from && r.value.to == to && r.value.inV == r.value.outV == [] && r.value.idx.None?
    ensures r.Ok? ==> r.value.weight == weight && r.value.labelValue == (if rev == Early then None else Some(labelArg))
  {
    SetAttrsSucceedsIff(Taken(rev, EdgeKind), map[], kwds);
    match SetAttrs(Taken(rev, EdgeKind), map[], kwds)
    case Err(e) =>
      SetAttrsRefusesFirstClash(Taken(rev, EdgeKind), map[], kwds);
      Err(e)
    case Ok(attrs) =>
      SetAttrsStores(Taken(rev, EdgeKind), map[], kwds);
      Ok(EdgeRec(from, to, weight, if rev == Early then None else Some(labelArg), [], [], None, attrs))
  }

  /** Construct a vertex and place it in the arena under a fresh handle; nothing is placed when construction raises. */
  function CreateVertex(rev: Rev, h: Heap, uuid: string, obj: Value, labelArg: Value, kwds: seq<(string, Value)>): (r: Result<(Heap, VertexId)>)
    ensures r.Ok? <==> NewVertex(rev, uuid, obj, labelArg, kwds).Ok?
    ensures r.Ok? ==> r.value.1 == |h.vertices| && r.value.0.edges == h.edges
    ensures r.Ok? ==> r.value.0.vertices == h.vertices + [NewVertex(rev, uuid, obj, labelArg, kwds).value]
  {
    match NewVertex(rev, uuid, obj, labelArg, kwds)
    case Err(e) => Err(e)
    case Ok(rec) => Ok((Heap(h.vertices + [rec], h.edges), |h.vertices|))
  }

  predicate Holds(h: Heap, u: VertexId) {
    u < |h.vertices|
  }

  /**
   `u.edgeto(v, weight, label)`: a new edge from `u` to `v`, recorded at both
   ends and in the edge's own endpoint lists, in the order the source appends.
   */
  function EdgeTo(rev: Rev, h: Heap, u: VertexId, v: VertexId, weight: Value, labelArg: Value): (r: (Heap, EdgeId))
    requires Holds(h, u) && Holds(h, v)
    ensures r.1 == |h.edges| && |r.0.edges| == |h.edges| + 1 && r.0.edges[..r.1] == h.edges
    ensures var rec := r.0.edges[r.1];
      rec.from == u && rec.to == v && rec.inV == [v] && rec.outV == [u]
      && rec.weight == weight && rec.labelValue == (if rev == Early then None else Some(labelArg))
      && rec.idx.None? && rec.attrs == map[]
    ensures |r.0.vertices| == |h.vertices|
    ensures r.0.vertices[u].out == h.vertices[u].out + [v]
    ensures r.0.vertices[u].outE == h.vertices[u].outE + [r.1]
    ensures r.0.vertices[v].in_ == h.vertices[v].in_ + [u]
    ensures r.0.vertices[v].inE == h.vertices[v].inE + [r.1]
    ensures u != v ==> r.0.vertices[u].in_ == h.vertices[u].in_ && r.0.vertices[u].inE == h.vertices[u].inE
    ensures u != v ==> r.0.vertices[v].out == h.vertices[v].out && r.0.vertices[v].outE == h.vertices[v].outE
    ensures forall w :: 0 <= w < |h.vertices| ==> SameExceptAdjacency(r.0.vertices[w], h.vertices[w])
    ensures forall w :: 0 <= w < |h.vertices| && w != u && w != v ==> r.0.vertices[w] == h.vertices[w]
  {
    var e := |h.edges|;
    var rec := NewEdge(rev, u, v, weight, labelArg, []).value;
    var ru := h.vertices[u];
    var vs := h.vertices[u := ru.(out := ru.out + [v], outE := ru.outE + [e])];
    var rv := vs[v];
    var vs' := vs[v := rv.(in_ := rv.in_ + [u], inE := rv.inE + [e])];
    (Heap(vs', h.edges + [rec.(inV := rec.inV + [v], outV := rec.outV + [u])]), e)
  }

  /** `v.edgefrom(u, weight, label)`: the same edge, with the bookkeeping done on `v` first. */
  function EdgeFrom(rev: Rev, h: Heap, v: VertexId, u: VertexId, weight: Value, labelArg: Value): (r: (Heap, EdgeId))
    requires Holds(h, u) && Holds(h, v)
  {
    var e := |h.edges|;
    var rec := NewEdge(rev, u, v, weight, labelArg, []).value;
    var rv := h.vertices[v];
    var vs := h.vertices[v := rv.(in_ := rv.in_ + [u], inE := rv.inE + [e])];
    var ru := vs[u];
    var vs' := vs[u := ru.(out := ru.out + [v], outE := ru.outE + [e])];
    (Heap(vs', h.edges + [rec.(inV := rec.inV + [v], outV := rec.outV + [u])]), e)
  }

  /** Only the four adjacency lists may differ. */
  predicate SameExceptAdjacency(a: VertexRec, b: VertexRec) {
    a.uuid == b.uuid && a.obj == b.obj && a.labelValue == b.labelValue && a.idx == b.idx && a.attrs == b.attrs
  }

  /** `v.edgefrom(u)` leaves exactly the state `u.edgeto(v)` leaves, self-loops included. */
  lemma EdgeFromIsEdgeTo(rev: Rev, h: Heap, u: VertexId, v: VertexId, weight: Value, labelArg: Value)
    requires Holds(h, u) && Holds(h, v)
    ensures EdgeFrom(rev, h, v, u, weight, labelArg) == EdgeTo(rev, h, u, v, weight, labelArg)
  {
    var (a, e) := EdgeFrom(rev, h, v, u, weight, labelArg);
    var (b, e') := EdgeTo(rev, h, u, v, weight, labelArg);
    assert |a.vertices| == |b.vertices|;
    forall w | 0 <= w < |a.vertices| ensures a.vertices[w] == b.vertices[w] {
    }
    assert a.vertices == b.vertices;
  }

  /** `Element.idx(n)`: the registry stamps a position on a vertex. */
  function StampVertex(h: Heap, u: VertexId, n: int): (r: Heap)
    requires Holds(h, u)
    ensures r.edges == h.edges && |r.vertices| == |h.vertices|
    ensures r.vertices[u].idx == Some(n)
    ensures r.vertices[u] == h.vertices[u].(idx := Some(n))
    ensures forall w :: 0 <= w < |h.vertices| && w != u ==> r.vertices[w] == h.vertices[w]
  {
    Heap(h.vertices[u := h.vertices[u].(idx := Some(n))], h.edges)
  }

  function StampEdge(h: Heap, e: EdgeId, n: int): (r: Heap)
    requires e < |h.edges|
    ensures r.vertices == h.vertices && |r.edges| == |h.edges|
    ensures r.edges[e] == h.edges[e].(idx := Some(n))
    ensures forall d :: 0 <= d < |h.edges| && d != e ==> r.edges[d] == h.edges[d]
  {
    Heap(h.vertices, h.edges[e := h.edges[e].(idx := Some(n))])
  }

  // ---------------------------------------------------------------------
  // Well-formedness of an arena built by the operations above
  // ---------------------------------------------------------------------

  /**
   The i-th out-edge of `u` leads to its i-th out-neighbour, the i-th in-edge
   comes from its i-th in-neighbour (so the lists move in lock-step), and its
   user attributes never shadow a taken name.
   */
  ghost predicate ValidVertex(rev: Rev, h: Heap, u: VertexId)
    requires Holds(h, u)
  {
    var r := h.vertices[u];
    && OutEdgesMatch(h, u)
    && InEdgesMatch(h, u)
    && r.attrs.Keys !! Taken(rev, VertexKind)
    && (r.labelValue.None? <==> rev == Early)
  }

  ghost predicate OutEdgesMatch(h: Heap, u: VertexId)
    requires Holds(h, u)
  {
    var r := h.vertices[u];
    && |r.out| == |r.outE|
    && forall i :: 0 <= i < |r.outE| ==>
         r.outE[i] < |h.edges| && h.edges[r.outE[i]].from == u && h.edges[r.outE[i]].to == r.out[i]
  }

  ghost predicate InEdgesMatch(h: Heap, u: VertexId)
    requires Holds(h, u)
  {
    var r := h.vertices[u];
    && |r.in_| == |r.inE|
    && forall i :: 0 <= i < |r.inE| ==>
         r.inE[i] < |h.edges| && h.edges[r.inE[i]].to == u && h.edges[r.inE[i]].from == r.in_[i]
  }

  /** An edge joins two arena vertices, lists them as its endpoints, and is recorded at both of them. */
  ghost predicate ValidEdge(rev: Rev, h: Heap, e: EdgeId)
    requires e < |h.edges|
  {
    var r := h.edges[e];
    && Holds(h, r.from) && Holds(h, r.to)
    && r.inV == [r.to] && r.outV == [r.from]
    && e in h.vertices[r.from].outE && e in h.vertices[r.to].inE
    && r.attrs.Keys !! Taken(rev, EdgeKind)
    && (r.labelValue.None? <==> rev == Early)
  }

  ghost predicate Valid(rev: Rev, h: Heap) {
    && (forall u :: 0 <= u < |h.vertices| ==> ValidVertex(rev, h, u))
    && (forall e :: 0 <= e < |h.edges| ==> ValidEdge(rev, h, e))
  }

  lemma EmptyHeapValid(rev: Rev)
    ensures Valid(rev, Heap([], []))
  {
  }

  lemma CreateVertexPreservesValid(rev: Rev, h: Heap, uuid: string, obj: Value, labelArg: Value, kwds: seq<(string, Value)>)
    requires Valid(rev, h)
    requires CreateVertex(rev, h, uuid, obj, labelArg, kwds).Ok?
    ensures Valid(rev, CreateVertex(rev, h, uuid, obj, labelArg, kwds).value.0)
  {
    var h' := CreateVertex(rev, h, uuid, obj, labelArg, kwds).value.0;
    forall u | 0 <= u < |h'.vertices| ensures ValidVertex(rev, h', u) {
      if u < |h.vertices| {
        assert ValidVertex(rev, h, u);
      }
    }
    forall e | 0 <= e < |h'.edges| ensures ValidEdge(rev, h', e) {
      assert ValidEdge(rev, h, e);
    }
  }

  /** Edge creation keeps the arena well formed: lock-step lists, endpoints recorded at both ends. */
  lemma EdgeToPreservesValid(rev: Rev, h: Heap, u: VertexId, v: VertexId, weight: Value, labelArg: Value)
    requires Valid(rev, h) && Holds(h, u) && Holds(h, v)
    ensures Valid(rev, EdgeTo(rev, h, u, v, weight, labelArg).0)
  {
    var (h', e) := EdgeTo(rev, h, u, v, weight, labelArg);
    forall w | 0 <= w < |h'.vertices| ensures ValidVertex(rev, h', w) {
      EdgeToKeepsVertexValid(rev, h, u, v, weight, labelArg, w);
    }
    forall d | 0 <= d < |h'.edges| ensures ValidEdge(rev, h', d) {
      if d < |h.edges| {
        EdgeToKeepsEdgeValid(rev, h, u, v, weight, labelArg, d);
      } else {
        assert ValidVertex(rev, h, u);
        assert h'.vertices[u].outE == h.vertices[u].outE + [e];
        assert h'.vertices[v].inE == h.vertices[v].inE + [e];
      }
    }
  }

  lemma EdgeToKeepsVertexValid(rev: Rev, h: Heap, u: VertexId, v: VertexId, weight: Value, labelArg: Value, w: VertexId)
    requires Holds(h, u) && Holds(h, v) && Holds(h, w) && ValidVertex(rev, h, w)
    ensures ValidVertex(rev, EdgeTo(rev, h, u, v, weight, labelArg).0, w)
  {
    EdgeToKeepsOutEdgesMatch(rev, h, u, v, weight, labelArg, w);
    EdgeToKeepsInEdgesMatch(rev, h, u, v, weight, labelArg, w);
  }

  lemma EdgeToKeepsOutEdgesMatch(rev: Rev, h: Heap, u: VertexId, v: VertexId, weight: Value, labelArg: Value, w: VertexId)
    requires Holds(h, u) && Holds(h, v) && Holds(h, w) && OutEdgesMatch(h, w)
    ensures OutEdgesMatch(EdgeTo(rev, h, u, v, weight, labelArg).0, w)
  {
    var (h', e) := EdgeTo(rev, h, u, v, weight, labelArg);
    var r, r' := h.vertices[w], h'.vertices[w];
    forall i | 0 <= i < |r'.outE|
      ensures r'.outE[i] < |h'.edges| && h'.edges[r'.outE[i]].from == w && h'.edges[r'.outE[i]].to == r'.out[i]
    {
      if i < |r.outE| {
        assert r'.outE[i] == r.outE[i] && r'.out[i] == r.out[i];
        assert h'.edges[..e][r.outE[i]] == h.edges[r.outE[i]];
      }
    }
  }

  lemma EdgeToKeepsInEdgesMatch(rev: Rev, h: Heap, u: VertexId, v: VertexId, weight: Value, labelArg: Value, w: VertexId)
    requires Holds(h, u) && Holds(h, v) && Holds(h, w) && InEdgesMatch(h, w)
    ensures InEdgesMatch(EdgeTo(rev, h, u, v, weight, labelArg).0, w)
  {
    var (h', e) := EdgeTo(rev, h, u, v, weight, labelArg);
    var r, r' := h.vertices[w], h'.vertices[w];
    forall i | 0 <= i < |r'.inE|
      ensures r'.inE[i] < |h'.edges| && h'.edges[r'.inE[i]].to == w && h'.edges[r'.inE[i]].from == r'.in_[i]
    {
      if i < |r.inE| {
        assert r'.inE[i] == r.inE[i] && r'.in_[i] == r.in_[i];
        assert h'.edges[..e][r.inE[i]] == h.edges[r.inE[i]];
      }
    }
  }

  lemma EdgeToKeepsEdgeValid(rev: Rev, h: Heap, u: VertexId, v: VertexId, weight: Value, labelArg: Value, d: EdgeId)
    requires Holds(h, u) && Holds(h, v) && d < |h.edges| && ValidEdge(rev, h, d)
    ensures ValidEdge(rev, EdgeTo(rev, h, u, v, weight, labelArg).0, d)
  {
    var (h', e) := EdgeTo(rev, h, u, v, weight, labelArg);
    assert h'.edges[..e][d] == h.edges[d];
    var r := h.edges[d];
    assert h.vertices[r.from].outE <= h'.vertices[r.from].outE;
    assert h.vertices[r.to].inE <= h'.vertices[r.to].inE;
  }

  lemma StampVertexPreservesValid(rev: Rev, h: Heap, u: VertexId, n: int)
    requires Valid(rev, h) && Holds(h, u)
    ensures Valid(rev, StampVertex(h, u, n))
  {
    var h' := StampVertex(h, u, n);
    forall w | 0 <= w < |h'.vertices| ensures ValidVertex(rev, h', w) {
      assert ValidVertex(rev, h, w);
    }
    forall e | 0 <= e < |h'.edges| ensures ValidEdge(rev, h', e) {
      assert ValidEdge(rev, h, e);
    }
  }

  lemma StampEdgePreservesValid(rev: Rev, h: Heap, e: EdgeId, n: int)
    requires Valid(rev, h) && e < |h.edges|
    ensures Valid(rev, StampEdge(h, e, n))
  {
    var h' := StampEdge(h, e, n);
    forall w | 0 <= w < |h'.vertices| ensures ValidVertex(rev, h', w) {
      assert ValidVertex(rev, h, w);
    }
    forall d | 0 <= d < |h'.edges| ensures ValidEdge(rev, h', d) {
      assert ValidEdge(rev, h, d);
    }
  }
}
