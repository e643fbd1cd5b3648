/**
 Attribute lookup on vertices and edges of the list-based revisions, as
 Python resolves `getattr(x, name)`: the instance dictionary first, then the
 data every instance carries, then the methods of the class.
 */
module Attributes {
  import opened Values
  import opened Element

  /** The revisions whose elements keep their adjacency in lists. */
  type ListRev = r: Rev | !r.SetBased? witness Current

  function ModuleName(rev: Rev): string {
    match rev
    case Current => "pylgrim.element"
    case SetBased => "graph.element"
    case Early => "graph.graph"
  }

  /** The instance dictionary of a vertex: its fields, its stamp once stamped, then its keywords. */
  function VertexDict(r: VertexRec): map<string, Value> {
    var fields := map[
      "uuid" := Str(r.uuid), "obj" := r.obj,
      "_out" := List(VertexRefs(r.out)), "_outE" := List(EdgeRefs(r.outE)),
      "_in_" := List(VertexRefs(r.in_)), "_inE" := List(EdgeRefs(r.inE))];
    var labelled := if r.labelValue.Some? then fields["label" := r.labelValue.value] else fields;
    var stamped := if r.idx.Some? then labelled["idx" := Int(r.idx.value)] else labelled;
    stamped + r.attrs
  }

  function EdgeDict(r: EdgeRec): map<string, Value> {
    var fields := map[
      "from_" := VertexRef(r.from), "to" := VertexRef(r.to), "weight" := r.weight,
      "_inV" := List(VertexRefs(r.inV)), "_outV" := List(VertexRefs(r.outV))];
    var labelled := if r.labelValue.Some? then fields["label" := r.labelValue.value] else fields;
    var stamped := if r.idx.Some? then labelled["idx" := Int(r.idx.value)] else labelled;
    stamped + r.attrs
  }

  /** Python's resolution order on an instance `x` of a class of the given kind. */
  function Resolve(rev: Rev, kind: Kind, dict: map<string, Value>, x: Value, name: string): Option<Value> {
    if name in dict then Some(dict[name])
    else if name == "__dict__" then Some(Dict(dict))
    else if name == "__doc__" || name == "__weakref__" then Some(Nil)
    else if name == "__module__" then Some(Str(ModuleName(rev)))
    else if name in ClassMethods(rev, kind) then Some(Bound(x, name))
    else None
  }

  /**
   `getattr(x, name)` when `hasattr(x, name)`, None otherwise. Only vertices
   and edges carry attributes in this model; a handle outside the arena
   cannot arise in Python and has none.
   */
  function GetAttr(rev: ListRev, h: Heap, x: Value, name: string): Option<Value> {
    match x
    case VertexRef(u) =>
      if u < |h.vertices| then Resolve(rev, VertexKind, VertexDict(h.vertices[u]), x, name) else None
    case EdgeRef(e) =>
      if e < |h.edges| then Resolve(rev, EdgeKind, EdgeDict(h.edges[e]), x, name) else None
    case _ => None
  }

  /**
   `ElementList._get`: key access first (only dictionaries support it), then
   the named attribute, and None when both are missing.
   */
  function Lookup(rev: ListRev, h: Heap, x: Value, attr: string): (r: Value)
    ensures x.Dict? && attr in x.entries ==> r == x.entries[attr]
    ensures !(x.Dict? && attr in x.entries) && GetAttr(rev, h, x, attr).None? ==> r == Nil
    ensures !(x.Dict? && attr in x.entries) && GetAttr(rev, h, x, attr).Some? ==> r == GetAttr(rev, h, x, attr).value
  {
    if x.Dict? && attr in x.entries then x.entries[attr]
    else match GetAttr(rev, h, x, attr)
      case Some(v) => v
      case None => Nil
  }

  lemma VertexDictKeys(r: VertexRec)
    ensures VertexDict(r).Keys ==
      {"uuid", "obj", "_out", "_outE", "_in_", "_inE"}
      + (if r.labelValue.Some? then {"label"} else {})
      + (if r.idx.Some? then {"idx"} else {})
      + r.attrs.Keys
  {
  }

  lemma EdgeDictKeys(r: EdgeRec)
    ensures EdgeDict(r).Keys ==
      {"from_", "to", "weight", "_inV", "_outV"}
      + (if r.labelValue.Some? then {"label"} else {})
      + (if r.idx.Some? then {"idx"} else {})
      + r.attrs.Keys
  {
  }

  /** `hasattr` on an instance: a name of its dictionary, of the instance data, or of its class. */
  lemma ResolvePresent(rev: Rev, kind: Kind, dict: map<string, Value>, x: Value, name: string)
    ensures Resolve(rev, kind, dict, x, name).Some? <==> name in dict.Keys + ClassData + ClassMethods(rev, kind)
  {
  }

  /**
   The names taken at construction are exactly the names a fresh vertex
   without keywords already has: the check in `Element.__init__` is `hasattr`.
   */
  lemma TakenIsPresentOnFreshVertex(rev: ListRev, h: Heap, uuid: string, obj: Value, labelArg: Value, name: string)
    ensures CreateVertex(rev, h, uuid, obj, labelArg, []).Ok?
    ensures var (h', u) := CreateVertex(rev, h, uuid, obj, labelArg, []).value;
      GetAttr(rev, h', VertexRef(u), name).Some? <==> name in Taken(rev, VertexKind)
  {
    SetAttrsSucceedsIff(Taken(rev, VertexKind), map[], []);
    var (h', u) := CreateVertex(rev, h, uuid, obj, labelArg, []).value;
    var r := h'.vertices[u];
    assert r.attrs == map[] && r.idx.None? && (r.labelValue.Some? <==> rev != Early);
    BareVertexHasTaken(rev, r, VertexRef(u), name);
  }

  /** A vertex record with no keyword and no stamp has exactly the taken names. */
  lemma BareVertexHasTaken(rev: ListRev, r: VertexRec, x: Value, name: string)
    requires r.attrs == map[] && r.idx.None? && (r.labelValue.Some? <==> rev != Early)
    ensures Resolve(rev, VertexKind, VertexDict(r), x, name).Some? <==> name in Taken(rev, VertexKind)
  {
    VertexDictKeys(r);
    assert VertexDict(r).Keys == FieldNames(rev, VertexKind);
    ResolvePresent(rev, VertexKind, VertexDict(r), x, name);
  }

  lemma TakenIsPresentOnFreshEdge(rev: ListRev, h: Heap, from: VertexId, to: VertexId, weight: Value, labelArg: Value, name: string)
    ensures NewEdge(rev, from, to, weight, labelArg, []).Ok?
    ensures var h' := Heap(h.vertices, h.edges + [NewEdge(rev, from, to, weight, labelArg, []).value]);
      GetAttr(rev, h', EdgeRef(|h.edges|), name).Some? <==> name in Taken(rev, EdgeKind)
  {
    SetAttrsSucceedsIff(Taken(rev, EdgeKind), map[], []);
    var r := NewEdge(rev, from, to, weight, labelArg, []).value;
    assert r.attrs == map[] && r.idx.None? && (r.labelValue.Some? <==> rev != Early);
    BareEdgeAppended(rev, h, r, name);
  }

  lemma BareEdgeAppended(rev: ListRev, h: Heap, r: EdgeRec, name: string)
    requires r.attrs == map[] && r.idx.None? && (r.labelValue.Some? <==> rev != Early)
    ensures GetAttr(rev, Heap(h.vertices, h.edges + [r]), EdgeRef(|h.edges|), name).Some? <==> name in Taken(rev, EdgeKind)
  {
    var h' := Heap(h.vertices, h.edges + [r]);
    assert h'.edges[|h.edges|] == r;
    BareEdgeHasTaken(rev, r, EdgeRef(|h.edges|), name);
  }

  /** An edge record with no keyword and no stamp has exactly the taken names. */
  lemma BareEdgeHasTaken(rev: ListRev, r: EdgeRec, x: Value, name: string)
    requires r.attrs == map[] && r.idx.None? && (r.labelValue.Some? <==> rev != Early)
    ensures Resolve(rev, EdgeKind, EdgeDict(r), x, name).Some? <==> name in Taken(rev, EdgeKind)
  {
    EdgeDictKeys(r);
    assert EdgeDict(r).Keys == FieldNames(rev, EdgeKind);
    ResolvePresent(rev, EdgeKind, EdgeDict(r), x, name);
  }

  /** Every keyword given to a successful construction reads back as given. */
  lemma KeywordsReadBack(rev: ListRev, h: Heap, uuid: string, obj: Value, labelArg: Value, kwds: seq<(string, Value)>)
    requires CreateVertex(rev, h, uuid, obj, labelArg, kwds).Ok?
    ensures var (h', u) := CreateVertex(rev, h, uuid, obj, labelArg, kwds).value;
      forall i :: 0 <= i < |kwds| ==> GetAttr(rev, h', VertexRef(u), kwds[i].0) == Some(kwds[i].1)
  {
    var (h', u) := CreateVertex(rev, h, uuid, obj, labelArg, kwds).value;
    var r := h'.vertices[u];
    forall i | 0 <= i < |kwds| ensures GetAttr(rev, h', VertexRef(u), kwds[i].0) == Some(kwds[i].1) {
      assert kwds[i].0 in r.attrs;
    }
  }

  /** A keyword attribute of a vertex is what `getattr` finds under its name, in every list revision. */
  lemma KeywordWins(rev: ListRev, h: Heap, w: VertexId, k: string)
    requires Holds(h, w) && k in h.vertices[w].attrs
    ensures GetAttr(rev, h, VertexRef(w), k) == Some(h.vertices[w].attrs[k])
  {
  }

  lemma SelectorsAreNotFields()
    ensures VertexMethods !! {"uuid", "obj", "_out", "_outE", "_in_", "_inE", "label", "idx"} + ClassData
    ensures EdgeMethods !! {"from_", "to", "weight", "_inV", "_outV", "label", "idx"} + ClassData
  {
  }

  lemma SelectorNotInVertexDict(r: VertexRec, name: string)
    requires name in VertexMethods && name !in r.attrs
    ensures name !in VertexDict(r)
  {
    SelectorsAreNotFields();
    VertexDictKeys(r);
  }

  lemma SelectorNotInEdgeDict(r: EdgeRec, name: string)
    requires name in EdgeMethods && name !in r.attrs
    ensures name !in EdgeDict(r)
  {
    SelectorsAreNotFields();
    EdgeDictKeys(r);
  }

  /** A class method that the instance dictionary does not shadow resolves to the bound method. */
  lemma ResolveMethod(rev: Rev, kind: Kind, dict: map<string, Value>, x: Value, name: string)
    requires name in ClassMethods(rev, kind) && name !in ClassData && name !in dict
    ensures Resolve(rev, kind, dict, x, name) == Some(Bound(x, name))
  {
  }

  /** A selector is a method of its class, so a keyword cannot take its name. */
  lemma MethodIsTaken(rev: Rev, kind: Kind, name: string)
    requires name in (if kind == VertexKind then VertexMethods else EdgeMethods)
    ensures name in ClassMethods(rev, kind) && name in Taken(rev, kind) && name !in ClassData
  {
    assert name !in ClassData by {
      SelectorsAreNotFields();
    }
  }

  /**
   The selector names of a vertex resolve to its bound methods as long as its
   keywords avoid the taken names, which construction guarantees.
   */
  lemma VertexSelectorIsBound(rev: ListRev, h: Heap, u: VertexId, name: string)
    requires Holds(h, u) && h.vertices[u].attrs.Keys !! Taken(rev, VertexKind)
    requires name in VertexMethods
    ensures GetAttr(rev, h, VertexRef(u), name) == Some(Bound(VertexRef(u), name))
  {
    var r := h.vertices[u];
    MethodIsTaken(rev, VertexKind, name);
    SelectorNotInVertexDict(r, name);
    SelectorsAreNotFields();
    ResolveMethod(rev, VertexKind, VertexDict(r), VertexRef(u), name);
  }

  lemma EdgeSelectorIsBound(rev: ListRev, h: Heap, e: EdgeId, name: string)
    requires e < |h.edges| && h.edges[e].attrs.Keys !! Taken(rev, EdgeKind)
    requires name in EdgeMethods
    ensures GetAttr(rev, h, EdgeRef(e), name) == Some(Bound(EdgeRef(e), name))
  {
    MethodIsTaken(rev, EdgeKind, name);
    EdgeMethodResolves(rev, h, e, name);
  }

  lemma EdgeMethodResolves(rev: ListRev, h: Heap, e: EdgeId, name: string)
    requires e < |h.edges| && name in EdgeMethods && name !in h.edges[e].attrs
    ensures GetAttr(rev, h, EdgeRef(e), name) == Some(Bound(EdgeRef(e), name))
  {
    var r := h.edges[e];
    MethodIsTaken(rev, EdgeKind, name);
    SelectorNotInEdgeDict(r, name);
    ResolveMethod(rev, EdgeKind, EdgeDict(r), EdgeRef(e), name);
  }

}
