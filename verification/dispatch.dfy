/**
  Type dispatch: which typed data an attribute becomes, decided by its
  storage kind and its byte size, and the copy of its values into that type.
 */
module TypeDispatch {
  import opened Wrappers
  import opened Houdini
  import opened Cortex

  /**
    The element type for an attribute of kind `t` and `size` bytes. Float and
    int attributes have size / 4 components (both divide by the size of a
    float); a vector attribute is only taken when size / 12 is exactly one.
    Every other combination has no data.
   */
  function Resolve(t: AttribType, size: ByteSize): (r: Option<ElementType>)
    ensures r == Some(FloatType) <==> t == AttribFloat && 4 <= size < 8
    ensures r == Some(V2fType) <==> t == AttribFloat && 8 <= size < 12
    ensures r == Some(V3fType) <==> (t == AttribFloat && 12 <= size < 16) || (t == AttribVector && 12 <= size < 24)
    ensures r == Some(IntType) <==> t == AttribInt && 4 <= size < 8
    ensures r == Some(V2iType) <==> t == AttribInt && 8 <= size < 12
    ensures r == Some(V3iType) <==> t == AttribInt && 12 <= size < 16
    ensures r.None? <==> !(t == AttribFloat && 4 <= size < 16) && !(t == AttribInt && 4 <= size < 16)
                         && !(t == AttribVector && 12 <= size < 24)
  {
    match t
    case AttribFloat =>
      var dimensions := size / 4;
      if dimensions == 1 then Some(FloatType)
      else if dimensions == 2 then Some(V2fType)
      else if dimensions == 3 then Some(V3fType)
      else None
    case AttribInt =>
      var dimensions := size / 4;
      if dimensions == 1 then Some(IntType)
      else if dimensions == 2 then Some(V2iType)
      else if dimensions == 3 then Some(V3iType)
      else None
    case AttribVector =>
      var dimensions := size / 12;
      if dimensions == 1 then Some(V3fType) else None
    case _ => None
  }

  /** A node that survives the cast, whose reference is valid and whose kind and size resolve. */
  predicate Resolvable(a: AttribNode)
  {
    a.Attribute? && a.refValid && Resolve(a.attribType, a.size).Some?
  }

  /**
    The elements to read: the single detail element, or a list of element
    indices (points or primitives in order, or corners in vertex-list order).
   */
  datatype ElementOrder = Single | Elements(indices: seq<nat>)

  /** The number of values a transfer in this order produces. */
  function Count(order: ElementOrder): nat
  {
    match order
    case Single => 1
    case Elements(indices) => |indices|
  }

  /** Every element the order reads exists in the attribute. */
  predicate Fits(a: AttribNode, order: ElementOrder)
  {
    a.Attribute? && a.refValid ==>
      match order
      case Single => |a.values| > 0
      case Elements(indices) => forall j :: 0 <= j < |indices| ==> indices[j] < |a.values|
  }

  /** Sequential identity order over `n` elements. */
  function Identity(n: nat): (r: seq<nat>)
    ensures |r| == n
  {
    seq(n, i => i)
  }

  /**
    The typed data an attribute node yields: nothing when the node is skipped
    or its type does not resolve, otherwise its values copied unchanged in the
    given element order, tagged with the resolved type.
   */
  function Extract(a: AttribNode, order: ElementOrder): (r: Option<Data>)
    requires Fits(a, order)
    ensures r.Some? <==> Resolvable(a)
    ensures r.Some? ==> r.value.elementType == Resolve(a.attribType, a.size).value
    ensures r.Some? && order.Single? ==> r.value.SimpleData? && r.value.value == a.values[0]
    ensures r.Some? && order.Elements? ==>
              && r.value.VectorData?
              && |r.value.values| == |order.indices|
              && forall j :: 0 <= j < |order.indices| ==> r.value.values[j] == a.values[order.indices[j]]
  {
    if !a.Attribute? || !a.refValid then None
    else
      match Resolve(a.attribType, a.size)
      case None => None
      case Some(t) =>
        match order
        case Single => Some(SimpleData(t, a.values[0]))
        case Elements(indices) => Some(VectorData(t, seq(|indices|, j requires 0 <= j < |indices| => a.values[indices[j]])))
  }
}
