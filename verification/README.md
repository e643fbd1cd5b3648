# Pylgrim element model in Dafny

Pylgrim is a small Python graph library in the style of Gremlin. Vertices
and edges are plain Python objects. Each one keeps its neighbourhood in lists
(in one older revision, in frozensets). Traversals are written as chains of
method calls such as `o.outE().inV()`. The chaining works because the
container returned by a selector forwards any attribute it lacks to its
members and gathers their answers.

This project models the three revisions of the element classes kept in the
repository and the `Graph` registry:

- `pylgrim/element.py`, the current revision. Keyword filters on every
  selector (`ElementList.filter`) are a conjunction, and a missing attribute
  reads as `None`.
- `graph/graph.py`, the early revision. There is no `label`. `matches` emits
  a member once for every keyword it satisfies, only `out` honours
  conditions, and the other selectors return `[]`.
- `graph/element.py`, the set revision. Adjacency and results are
  frozensets, `matches` intersects one set per keyword, and only `out` and
  `outE` honour conditions.
- `pylgrim/pylgrim.py`, the `Graph` registry with `addvertex` and
  `addedge`.

Python objects are handles into an arena (`Element.Heap`) of immutable
records. Every mutation in the source becomes a function from arena to arena.
Attribute lookup follows Python's order: the instance dictionary, then the
data every instance carries (`__dict__`, `__doc__`, `__module__`,
`__weakref__`), then the class's methods. A method found this way is a
`Bound(receiver, name)` value, and bound methods are the only callable
values. Raised exceptions are `Err` results.

The model assumes Python 3.8 to 3.10. Two things depend on that:

- The methods every object has (`Element.ObjectMethods`) are the set those
  versions give `object`. This set feeds the taken names, so it also fixes
  what `Attributes.TakenIsPresentOnFreshVertex` and its siblings state.
- `**kwds` keeps the call order of the keywords, which Python guarantees
  from 3.6 on. That is what lets `Element.SetAttrsRefusesFirstClash` name
  the first clashing keyword.

Modules: `Values` (Python values, errors), `Seqs` (sequence helpers),
`Element` (records, construction, `edgeto`/`edgefrom`, well-formedness),
`Attributes` (`getattr`, `_get`), `EarlyMatch` (the early `matches`),
`ElementList` (selectors, `filter`, forwarding), `ElementSet` (the set
revision and its abstraction from list arenas), `Registry` (`Graph`),
`Scenarios` (the traversals the docstrings describe, on concrete graphs).

Behaviours of the code a reader may not expect, which the model follows:

- `_get` returns `None` for a missing attribute, so a filter `key=None`
  keeps members that lack `key` (`ElementList.MissingReadsAsNone`).
- In the early revision `matches` is an OR with repetition, not an AND
  (`EarlyMatch.MatchesCount`, `Scenarios.EarlyRepeats`).
- In the set revision `in_`, `inE`, `both` and `bothE` return `{}`, an
  empty dict, when given conditions (`ElementSet.SSelect`).

## Model

| member | source | states |
|---|---|---|
| Element.SetAttrsSucceedsIff | pylgrim/element.py:8-14 | storing keywords succeeds exactly when no keyword is already present on the object and none is repeated |
| Element.SetAttrsStores | pylgrim/element.py:8-14 | after a successful store every keyword reads back with its value and earlier attributes are kept |
| Element.SetAttrsRefusesFirstClash | pylgrim/element.py:8-14 | a refused construction names the first keyword that clashes; every keyword before it could be stored |
| Element.StorableCons | pylgrim/element.py:9-14 | the loop stores the head keyword, then the rest on top of it |
| Element.NewVertex | pylgrim/element.py:28-36 | a vertex is built exactly when its keywords avoid the taken names; it stores the given uuid, `obj` and `label` (no `label` in the early revision), starts with empty adjacency and no `idx`, and holds exactly the keyword attributes; a refusal names a keyword |
| Element.NewEdge | pylgrim/element.py:127-134 | an edge is built exactly when its keywords avoid the taken names; it records its endpoints, `weight` and `label` (no `label` in the early revision) and starts with empty endpoint lists |
| Element.CreateVertex | pylgrim/pylgrim.py:24-25 | a constructed vertex gets the next fresh handle and nothing else changes; a refused one leaves the arena as it was |
| Element.EdgeTo | pylgrim/element.py:38-63 | `u.edgeto(v)` appends `v` and the new edge to `u`'s out-lists and `u` and the edge to `v`'s in-lists; the edge lists `v` as `inV` and `u` as `outV`; every other vertex is unchanged |
| Element.EdgeFromIsEdgeTo | pylgrim/element.py:65-83 | `v.edgefrom(u)` leaves exactly the state `u.edgeto(v)` leaves, self-loops included |
| Element.StampVertex | pylgrim/element.py:23-24 | `idx(n)` sets the vertex's `idx` to `n` and changes nothing else |
| Element.StampEdge | pylgrim/element.py:23-24 | `idx(n)` sets the edge's `idx` to `n` and changes nothing else |
| Element.EmptyHeapValid | pylgrim/pylgrim.py:6-8 | an empty arena is well formed |
| Element.CreateVertexPreservesValid | pylgrim/element.py:28-36 | constructing a vertex keeps the arena well formed |
| Element.EdgeToPreservesValid | pylgrim/element.py:51-63 | connecting two vertices keeps out-neighbours and out-edges in step, likewise in-neighbours and in-edges, and records each edge at both ends |
| Element.StampVertexPreservesValid | pylgrim/element.py:23-24 | stamping a vertex keeps the arena well formed |
| Element.StampEdgePreservesValid | pylgrim/element.py:23-24 | stamping an edge keeps the arena well formed |
| Attributes.ResolvePresent | pylgrim/element.py:10 | `hasattr` on an element holds exactly for its instance names, the instance data names and its class's names |
| Attributes.TakenIsPresentOnFreshVertex | pylgrim/element.py:28-36 | the names a keyword may not use are exactly the names a fresh vertex already has |
| Attributes.TakenIsPresentOnFreshEdge | pylgrim/element.py:127-134 | the names a keyword may not use are exactly the names a fresh edge already has |
| Attributes.KeywordsReadBack | pylgrim/element.py:8-14 | every keyword given to a successful construction reads back through `getattr` as given |
| Attributes.VertexSelectorIsBound | pylgrim/element.py:91-115 | on a vertex whose keywords avoid the taken names, each selector name resolves to that vertex's bound method |
| Attributes.EdgeSelectorIsBound | pylgrim/element.py:136-139 | on an edge whose keywords avoid the taken names, `inV` and `outV` resolve to that edge's bound methods |
| EarlyMatch.PerKeySpec | graph/graph.py:86-92 | one member succeeds exactly when it has every keyword's attribute, and then it appears once per keyword whose value it equals |
| EarlyMatch.MatchesFailsIff | graph/graph.py:86-92 | `matches` raises exactly when some member lacks one of the keyword attributes |
| EarlyMatch.MatchesIsRepeat | graph/graph.py:86-92 | the result lists the members in order, each repeated once per keyword it satisfies |
| EarlyMatch.MatchesCount | graph/graph.py:86-92 | each value occurs in the result its count in the input times the number of keywords it satisfies |
| EarlyMatch.MatchesOneKey | graph/graph.py:86-92 | with one keyword, `matches` is the order-keeping filter on that keyword |
| ElementList.FilterIsConjunction | pylgrim/element.py:236-240 | filtering keyword by keyword keeps exactly the members that satisfy all keywords, in order |
| ElementList.FilterSpec | pylgrim/element.py:236-240 | the result is an ordered sub-list of the input; a value is kept with all its copies exactly when it passes every condition; no conditions keep the list unchanged |
| ElementList.FilterAppend | pylgrim/element.py:236-240 | filtering a concatenation is concatenating the filtered parts |
| ElementList.MissingReadsAsNone | pylgrim/element.py:222-234 | a member lacking the attribute is compared as `None`, or `None` is passed to the predicate |
| ElementList.SelectorNamed | pylgrim/element.py:91-115 | a name maps to the selector method with that name, and only the six selector names do |
| ElementList.SelectIsFilter | pylgrim/element.py:91-115 | every current selector is `filter` applied to the neighbourhood it reads; for `both` and `bothE` filtering each side and concatenating equals filtering out-list followed by in-list |
| ElementList.BothInStep | pylgrim/element.py:111-115 | in a well-formed arena `both()` and `bothE()` have the same length |
| ElementList.EarlySelect | graph/graph.py:157-181 | early selectors return the stored lists without conditions; with conditions `out` goes through `matches` and the others return `[]` |
| ElementList.EarlyOneKeyIsFilter | graph/graph.py:86-92 | with one keyword that every member holds as a keyword attribute, the early `matches` neither raises nor repeats and keeps exactly what the current `filter` keeps, in order |
| ElementList.EarlyOutAgreesWithCurrent | graph/graph.py:157-160 | `u.out(k=v)` gives the same list in the early and the current revision when every out-neighbour has `k` as a keyword attribute |
| ElementList.Invoke | pylgrim/element.py:91-139 | calling a non-callable raises; calling a bound selector runs that element's selector of the given revision |
| ElementList.AllCallable | pylgrim/element.py:200-204 | `_callable` holds exactly when every member that has the name has a callable under it, and so when no member has it |
| ElementList.Project | pylgrim/element.py:217-220 | the non-callable branch lists, in order, the value of every member that has the name, one per member |
| ElementList.Forward | pylgrim/element.py:199-220 | `getattr` on a list gives the forwarding call exactly when all holders' values are callable, and otherwise their values in order |
| ElementList.CallForwardedAppend | pylgrim/element.py:209-216 | forwarding over a concatenation chains the two parts' results, and the first error wins |
| ElementList.CallForwardedSingle | pylgrim/element.py:209-216 | forwarding over one member is that member's own call |
| ElementList.CallForwardedFailsIff | pylgrim/element.py:210-216 | `callme` raises exactly when the call on some member raises |
| ElementList.CallForwardedFlatten | pylgrim/element.py:210-216 | when no member's call raises, `callme` returns the members' answers chained in member order, as `chain.from_iterable` does |
| ElementList.CallForwardedSkipsNonHolders | pylgrim/element.py:209-213 | members without the name contribute nothing to a forwarded call |
| ElementList.OutEInVIsOut | pylgrim/element.py:152-198 | in a well-formed arena `u.outE().inV()` is callable and equals `u.out()` |
| ElementList.InEOutVIsIn | pylgrim/element.py:152-198 | in a well-formed arena `u.inE().outV()` is callable and equals `u.in_()` |
| ElementList.ForwardEndpoints | pylgrim/element.py:136-139 | forwarding `inV` or `outV` over a list of edges yields their endpoints in list order |
| Registry.NewGraph | pylgrim/pylgrim.py:6-8 | a new graph has no vertices and no edges |
| Registry.AddVertex | pylgrim/pylgrim.py:24-28 | `addvertex` fails exactly when a keyword name is taken, and then nothing is added; otherwise the vertex is appended and stamped with its position |
| Registry.AddEdge | pylgrim/pylgrim.py:30-34 | `addedge` performs `from_.edgeto(to, weight, label)`: the new edge is exactly the one `edgeto` builds, stamped with its position in the registry, and it is appended to the registry's edges |
| Registry.NewGraphRegistered | pylgrim/pylgrim.py:6-8 | an empty registry is consistent with any arena |
| Registry.AddVertexKeepsInvariants | pylgrim/pylgrim.py:24-28 | after `addvertex` every registered element still carries its registry position as `idx`, and the arena stays well formed |
| Registry.AddEdgeKeepsInvariants | pylgrim/pylgrim.py:30-34 | after `addedge` every registered element still carries its registry position as `idx`, and the arena stays well formed |
| ElementSet.SCreateVertex | graph/element.py:37-45 | a set-revision vertex is built exactly when its keywords avoid that revision's taken names, which include `matches` |
| ElementSet.SEdgeTo | graph/element.py:47-72 | `edgeto` adds `v` and the new edge to `u`'s out-sets and `u` and the edge to `v`'s in-sets; the two ends keep their uuid, `obj`, `label`, `idx` and keyword attributes; every other vertex is unchanged |
| ElementSet.SEdgeFromIsSEdgeTo | graph/element.py:74-92 | `v.edgefrom(u)` leaves exactly the state `u.edgeto(v)` leaves |
| ElementSet.ConnectTwice | graph/element.py:63-64 | connecting the same pair twice adds two out-edges but records the neighbour only once |
| ElementSet.AbsEdgeTo | graph/element.py:47-72 | connecting in a list arena and then forgetting order gives the set revision's connection |
| ElementSet.AbsCreateVertex | graph/element.py:37-45 | constructing in a list arena and then forgetting order gives the set revision's construction |
| ElementSet.STakenIsPresentOnFreshVertex | graph/element.py:37-45 | in the set revision the names refused as keywords are exactly the names a fresh vertex already has, `matches` included |
| ElementSet.STakenIsPresentOnFreshEdge | graph/element.py:136-143 | in the set revision the names refused as edge keywords are exactly the names a fresh edge already has |
| ElementSet.SMatches | graph/element.py:16-23 | `matches` keeps exactly the members that have every keyword with the given value, each once; with no keywords it raises |
| ElementSet.IntersectionIsConjunction | graph/element.py:17-21 | a value lies in the intersection of the per-keyword sets exactly when it is a member matching every keyword |
| ElementSet.SSelect | graph/element.py:100-125 | without conditions a selector returns the stored set; with conditions `out` and `outE` go through `matches` and the others return `{}` |
| ElementSet.SInvoke | graph/element.py:100-148 | calling a non-callable raises `TypeError`; a bound vertex selector returns that vertex's selection and a bound `inV`/`outV` returns the edge's endpoint set |
| ElementSet.UnionOfCalls | graph/element.py:217-224 | the forwarded call fails exactly when some member's call fails; otherwise it is the union of the members' results |
| ElementSet.SCallForwarded | graph/element.py:217-224 | forwarding over a frozenset raises with some failing member's error, or unites the members of every holder's result |
| ElementSet.SProject | graph/element.py:226-228 | the non-callable branch is the set of holders' values; equal values collapse, and a list or dict value raises |
| ElementSet.SForward | graph/element.py:207-228 | `getattr` on a frozenset gives the forwarding call exactly when all holders' values are callable |
| ElementSet.SOutEInVIsOut | graph/element.py:160-206 | `o.outE().inV()` equals `o.out()` in the set revision, for the abstraction of every well-formed list arena |
| Scenarios.ConnectFresh | pylgrim/element.py:38-63 | after `e = u.edgeto(v)` on unconnected vertices, `u.out()` is `[v]`, `u.outE()` is `[e]`, `v.in_()` is `[u]`, `v.inE()` is `[e]`, and `e.inV()`/`e.outV()` are `[v]`/`[u]` |
| Scenarios.BothOrder | pylgrim/element.py:111-115 | `both()` lists out-neighbours before in-neighbours, whatever order the edges were made in |
| Scenarios.ChainAfterAddEdge | pylgrim/pylgrim.py:30-34 | after `addedge(t, u)` from a vertex with no out-edges, `t.outE().inV()` is `[u]` |
| Scenarios.ProjectKeyword | pylgrim/element.py:217-220 | a keyword attribute forwarded over a list reads back as the list of its values |
| Scenarios.FilterByValue | pylgrim/element.py:228-240 | `out(value=5)` and `out(value=lambda x: x > 3)` keep exactly the neighbour whose value is 5, out of 1, 3 and 5 |
| Scenarios.EarlyRepeats | graph/graph.py:86-92 | in the early revision a vertex matching two keywords is listed twice |
| Scenarios.CurrentKeepsOnce | pylgrim/element.py:236-240 | in the current revision a vertex matching two keywords is listed once |
| Scenarios.UuidIsTaken | pylgrim/pylgrim.py:24-28 | `addvertex(uuid=...)` raises, naming `uuid` |
| Scenarios.LabelParameterStored | pylgrim/element.py:28-31 | in the current revision `label=z` binds to the constructor's parameter, and the new vertex's `label` reads `z` |
| Scenarios.LabelStoredInEarly | graph/graph.py:95-102 | in the early revision `label` is an ordinary keyword attribute |

## Left out

- uuid generation: `uuid.uuid4().hex` is random, so the uuid is a parameter of construction.
- `__repr__`: it only renders text.
- `Graph.V`, `Graph.E`, `Graph.v` and `Graph.e` are left out. They refer to the undefined globals `_V` and `_E`, so any use raises `NameError`.
- `loadgraphml`, `savegraphml` and `pylgrim/graphml.py`: file I/O.
- `__rshift__` and `__lshift__` are aliases of `edgeto` and `edgefrom` and get no members of their own.
- Hashing and identity: two Python elements are equal only when they are the same object. Handles give exactly that, so no `__hash__`/`__eq__` is modelled.
- Element.StampVertex: a second `idx(n)` call on the same element would raise, because the first call replaces the method with an integer. The model only describes a single stamp, which is all the registry does.
- Element.StampEdge: same single-stamp limitation as `StampVertex`.
- The attributes of built-in values (`str.upper`, `dict.keys`, ...) are not modelled; non-elements have no attributes besides dictionary keys.
- A keyword holding a function other than a bound selector is not modelled. A keyword holding a bound selector (a `Bound` value) is callable and is forwarded as a call, as in Python.
- Nested `ElementList`s: in Python an `ElementList` answers every `hasattr` through `__getattr__`, so a list of lists (such as the projection `u.out()._out`) forwards a call through the inner lists, and `_get` on such a member returns the forwarded value instead of `None`. The model gives `List` values no attributes, so forwarding over them yields nothing.
- ElementList.Invoke: only the traversal selectors can be called through forwarding. Calling any other method (`edgeto`, `idx`, a dunder) gives `Unsupported`, not its Python effect.
- ElementSet.SInvoke: same selector-only limitation as `Invoke`.
- ElementList.Forward: the list's own attributes (`count`, `index`, `filter`, ...) never reach `__getattr__` in Python. The model assumes the forwarded name is not one of them.
- A `Bound` value given as a filter's expected value is compared with `==`, not called. In Python any callable filter is called.
- Plain containers that do not forward: the model does not tell them apart from the forwarding containers. They are:
  - the current `both()` and `bothE()`, which return a plain `list` because `ElementList + ElementList` is a `list`;
  - the early revision's `[]` results with conditions, and its `_out + _in_` and `_outE + _inE` (graph/graph.py:157-181);
  - the set revision's `{}` results with conditions, and its `_out | _in_` and `_outE | _inE`, which are plain frozensets (graph/element.py:100-125).
- ElementSet.SCallForwarded: frozenset iteration order is not modelled. When several members fail, the contract only says the error is one of theirs.
- A `to` or `from_` that is not a vertex: `edgeto` and `edgefrom` build the edge and append to the calling vertex's `_out`/`_outE` (or `_in_`/`_inE`) before they touch the other argument. So Python raises `AttributeError` only after that partial update, leaving the calling vertex half connected (pylgrim/element.py:51-57 and 71-77; graph/graph.py:104-129; graph/element.py:47-72). The model takes both ends as vertex handles, and neither the error nor the partial update is modelled.
- Other Python versions are not modelled. Under Python 2, `object` has fewer methods (no `__dir__`, no `__init_subclass__`) and `kwds.items()` comes in arbitrary order, so the clashing keyword that is reported is not determined. From 3.11 on, `object` also has `__getstate__`.
- Positional extra arguments: the constructors, `addvertex` and `addedge` accept `*args` and drop them, and the model has no positional extras. Every selector takes only keywords, so `u.out(1)`, or a forwarded `callme(1)`, raises `TypeError` in Python. That `TypeError` is not modelled.
- Predicates cannot raise in the model: a `Satisfies` condition is a total function. In Python a filter predicate that raises, such as `lambda x: x > 3` given `None` for a member lacking the attribute, makes `filter` raise. `Scenarios.AboveThree` agrees with `x > 3` only on integers; on other values it is false where Python would raise.
- Aliasing: without conditions a Python selector returns the stored list object itself, and `edgeto` appends to those lists in place, so a result a caller holds grows on a later `edgeto`, and a caller's `append` on it would break the pairing of `out` and `outE`. The model returns values, not shared objects.
- Only `==` equality is modelled for the early and set revisions. A predicate condition never equals an attribute there.
- Arbitrary Python objects stored as `obj`, `weight` or keyword values are restricted to the `Value` type: `None`, integers, strings, element handles, lists, frozensets, dicts and bound methods.
