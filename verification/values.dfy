/**
 The Python values that travel through the element model: plain data, handles
 to vertices and edges kept in an arena, bound methods, and the error
 outcomes the element classes raise.
 */
module Values {

  datatype Option<+T> = None | Some(value: T)

  /** Every exception the modelled code raises, one constructor per cause. */
  datatype Error =
    | NameTaken(name: string)        // AttributeError from Element.__init__
    | MissingAttribute(name: string) // AttributeError from getattr in the early `matches`
    | NotCallable                    // TypeError: calling a value that is not a method
    | Unsupported(selector: string)  // a forwarded call to a method that is not a traversal selector
    | Unhashable                     // TypeError: a list or dict placed into a frozenset
    | NoSets                         // TypeError: `set.intersection` called with nothing to intersect

  datatype Result<+T> = Ok(value: T) | Err(error: Error)

  /** Handles into the arena: position of the record in `Heap.vertices` / `Heap.edges`. */
  type VertexId = nat
  type EdgeId = nat

  /**
   A Python object as far as the element model observes it.
   `Bound(receiver, name)` is the bound method `receiver.name`; it is the
   only callable value. Two bound methods are equal when receiver and name
   are, as in Python.
   */
  datatype Value =
    | Nil
    | Int(i: int)
    | Str(s: string)
    | VertexRef(v: VertexId)
    | EdgeRef(e: EdgeId)
    | List(items: seq<Value>)
    | FSet(elems: set<Value>)
    | Dict(entries: map<string, Value>)
    | Bound(receiver: Value, name: string)

  predicate Callable(v: Value) {
    v.Bound?
  }

  /** A filter condition: an expected value, or a predicate on the looked-up value. */
  datatype Cond = Equals(expected: Value) | Satisfies(pred: Value -> bool)

  /** One keyword argument `name=spec` of a selector or filter call. */
  type Condition = (string, Cond)

  function VertexRefs(vs: seq<VertexId>): (r: seq<Value>)
    ensures |r| == |vs|
    ensures forall i :: 0 <= i < |vs| ==> r[i] == VertexRef(vs[i])
  {
    if |vs| == 0 then [] else [VertexRef(vs[0])] + VertexRefs(vs[1..])
  }

  function EdgeRefs(es: seq<EdgeId>): (r: seq<Value>)
    ensures |r| == |es|
    ensures forall i :: 0 <= i < |es| ==> r[i] == EdgeRef(es[i])
  {
    if |es| == 0 then [] else [EdgeRef(es[0])] + EdgeRefs(es[1..])
  }
}
