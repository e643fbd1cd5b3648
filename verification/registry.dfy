/**
 The `Graph` registry of the current revision (pylgrim/pylgrim.py): it keeps
 the vertices and edges created through it in two lists and stamps each with
 its position in the list it joined.
 */
module Registry {
  import opened Values
  import opened Element

  /** `Graph._V` and `Graph._E`, as handles into the arena. */
  datatype Graph = Graph(vs: seq<VertexId>, es: seq<EdgeId>)

  /** `Graph()`: both lists start empty. */
  function NewGraph(): (g: Graph)
    ensures |g.vs| == 0 && |g.es| == 0
  {
    Graph([], [])
  }

  /**
   `addvertex(obj, label, **kwds)`: construct the vertex, append it, stamp it
   with its position. When construction raises nothing is appended: the
   caller keeps its graph and arena.
   */
  function AddVertex(h: Heap, g: Graph, uuid: string, obj: Value, labelArg: Value, kwds: seq<(string, Value)>)
    : (r: Result<(Heap, Graph, VertexId)>)
    ensures r.Ok? <==> Storable(Taken(Current, VertexKind), map[], kwds)
    ensures r.Err? ==> exists i :: 0 <= i < |kwds| && r.error == NameTaken(kwds[i].0)
    ensures r.Ok? ==> var (h', g', v) := r.value;
      && v == |h.vertices| && g'.vs == g.vs + [v] && g'.es == g.es
      && h'.vertices == h.vertices + [NewVertex(Current, uuid, obj, labelArg, kwds).value.(idx := Some(|g.vs|))]
      && h'.edges == h.edges
  {
    match CreateVertex(Current, h, uuid, obj, labelArg, kwds)
    case Err(e) => Err(e)
    case Ok((h1, v)) =>
      var g' := g.(vs := g.vs + [v]);
      Ok((StampVertex(h1, v, |g'.vs| - 1), g', v))
  }

  /**
   `addedge(from_, to, weight, label)`: `from_.edgeto(to, ...)`, append, stamp.
   Extra positional and keyword arguments are accepted and dropped.
   */
  function AddEdge(h: Heap, g: Graph, u: VertexId, v: VertexId, weight: Value, labelArg: Value): (r: (Heap, Graph, EdgeId))
    requires Holds(h, u) && Holds(h, v)
    ensures var (h', g', e) := r;
      && e == |h.edges| && g'.es == g.es + [e] && g'.vs == g.vs
      && h'.vertices == EdgeTo(Current, h, u, v, weight, labelArg).0.vertices
      && |h'.edges| == |h.edges| + 1 && h'.edges[..e] == h.edges
      && h'.edges[e].from == u && h'.edges[e].to == v && h'.edges[e].weight == weight
      && h'.edges[e].idx == Some(|g.es|)
      && h'.edges[e] == EdgeTo(Current, h, u, v, weight, labelArg).0.edges[e].(idx := Some(|g.es|))
  {
    var (h1, e) := EdgeTo(Current, h, u, v, weight, labelArg);
    var g' := g.(es := g.es + [e]);
    (StampEdge(h1, e, |g'.es| - 1), g', e)
  }

  /** Every registered element is in the arena and carries its position in the registry as `idx`. */
  ghost predicate Registered(h: Heap, g: Graph) {
    && (forall i :: 0 <= i < |g.vs| ==> g.vs[i] < |h.vertices| && h.vertices[g.vs[i]].idx == Some(i))
    && (forall i :: 0 <= i < |g.es| ==> g.es[i] < |h.edges| && h.edges[g.es[i]].idx == Some(i))
  }

  lemma NewGraphRegistered(h: Heap)
    ensures Registered(h, NewGraph())
  {
  }

  /** `addvertex` keeps every stamp equal to the position in `_V`, and the arena well formed. */
  lemma AddVertexKeepsInvariants(h: Heap, g: Graph, uuid: string, obj: Value, labelArg: Value, kwds: seq<(string, Value)>)
    requires Registered(h, g) && Valid(Current, h)
    requires AddVertex(h, g, uuid, obj, labelArg, kwds).Ok?
    ensures var (h', g', _) := AddVertex(h, g, uuid, obj, labelArg, kwds).value;
      Registered(h', g') && Valid(Current, h')
  {
    var (h1, v) := CreateVertex(Current, h, uuid, obj, labelArg, kwds).value;
    CreateVertexPreservesValid(Current, h, uuid, obj, labelArg, kwds);
    StampVertexPreservesValid(Current, h1, v, |g.vs|);
    AddVertexKeepsRegistered(h, g, uuid, obj, labelArg, kwds);
  }

  lemma AddVertexKeepsRegistered(h: Heap, g: Graph, uuid: string, obj: Value, labelArg: Value, kwds: seq<(string, Value)>)
    requires Registered(h, g) && AddVertex(h, g, uuid, obj, labelArg, kwds).Ok?
    ensures var (h', g', _) := AddVertex(h, g, uuid, obj, labelArg, kwds).value;
      Registered(h', g')
  {
    var (h', g', v) := AddVertex(h, g, uuid, obj, labelArg, kwds).value;
    forall i | 0 <= i < |g'.vs| ensures g'.vs[i] < |h'.vertices| && h'.vertices[g'.vs[i]].idx == Some(i) {
      if i < |g.vs| {
        assert g'.vs[i] == g.vs[i] && g.vs[i] < |h.vertices|;
        assert h'.vertices[g.vs[i]] == h.vertices[g.vs[i]];
      }
    }
  }

  /** `addedge` keeps every stamp equal to the position in `_E`, and the arena well formed. */
  lemma AddEdgeKeepsInvariants(h: Heap, g: Graph, u: VertexId, v: VertexId, weight: Value, labelArg: Value)
    requires Registered(h, g) && Valid(Current, h) && Holds(h, u) && Holds(h, v)
    ensures var (h', g', _) := AddEdge(h, g, u, v, weight, labelArg);
      Registered(h', g') && Valid(Current, h')
  {
    var (h1, e) := EdgeTo(Current, h, u, v, weight, labelArg);
    EdgeToPreservesValid(Current, h, u, v, weight, labelArg);
    StampEdgePreservesValid(Current, h1, e, |g.es|);
    assert AddEdge(h, g, u, v, weight, labelArg).0 == StampEdge(h1, e, |g.es|);
    AddEdgeKeepsRegistered(h, g, u, v, weight, labelArg);
  }

  lemma AddEdgeKeepsRegistered(h: Heap, g: Graph, u: VertexId, v: VertexId, weight: Value, labelArg: Value)
    requires Registered(h, g) && Holds(h, u) && Holds(h, v)
    ensures var (h', g', _) := AddEdge(h, g, u, v, weight, labelArg);
      Registered(h', g')
  {
    var (h', g', _) := AddEdge(h, g, u, v, weight, labelArg);
    forall i | 0 <= i < |g'.vs| ensures g'.vs[i] < |h'.vertices| && h'.vertices[g'.vs[i]].idx == Some(i) {
      AddEdgeKeepsVertexStamp(h, g, u, v, weight, labelArg, i);
    }
    forall i | 0 <= i < |g'.es| ensures g'.es[i] < |h'.edges| && h'.edges[g'.es[i]].idx == Some(i) {
      AddEdgeKeepsEdgeStamp(h, g, u, v, weight, labelArg, i);
    }
  }

  lemma AddEdgeKeepsVertexStamp(h: Heap, g: Graph, u: VertexId, v: VertexId, weight: Value, labelArg: Value, i: nat)
    requires Registered(h, g) && Holds(h, u) && Holds(h, v) && i < |g.vs|
    ensures var (h', g', _) := AddEdge(h, g, u, v, weight, labelArg);
      g'.vs[i] < |h'.vertices| && h'.vertices[g'.vs[i]].idx == Some(i)
  {
    var (h1, e) := EdgeTo(Current, h, u, v, weight, labelArg);
    assert SameExceptAdjacency(h1.vertices[g.vs[i]], h.vertices[g.vs[i]]);
  }

  lemma AddEdgeKeepsEdgeStamp(h: Heap, g: Graph, u: VertexId, v: VertexId, weight: Value, labelArg: Value, i: nat)
    requires Registered(h, g) && Holds(h, u) && Holds(h, v) && i <= |g.es|
    ensures var (h', g', _) := AddEdge(h, g, u, v, weight, labelArg);
      g'.es[i] < |h'.edges| && h'.edges[g'.es[i]].idx == Some(i)
  {
    var (h', g', e) := AddEdge(h, g, u, v, weight, labelArg);
    if i < |g.es| {
      assert h'.edges[..e][g.es[i]] == h.edges[g.es[i]];
    }
  }
}
