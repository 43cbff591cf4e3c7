/**
  The source side of the conversion: a read-only Houdini geometry detail,
  reduced to what the attribute transfer looks at. Points, primitives and the
  four attribute dictionaries become plain sequences; a linked-list walk over a
  dictionary becomes a walk over a sequence of link nodes.
 */
module Houdini {

  /** One 32-bit component of a position or attribute value. Its bits are copied, never interpreted. */
  type Word = bv32

  /** The raw value one attribute holds for one element: its components in storage order. */
  type Blob = seq<Word>

  /** A GEO_Point: its homogeneous position (x, y, z, w). */
  datatype Point = Point(x: Word, y: Word, z: Word, w: Word)

  /** A GEO_Primitive: its number of vertices (corners), and whether its primitive id carries the polygon flag. */
  datatype Prim = Prim(vertexCount: nat, isPoly: bool)

  /** The storage kind of a GB_Attribute. */
  datatype AttribType = AttribFloat | AttribInt | AttribString | AttribMixed | AttribIndex | AttribVector

  /** An attribute's size in bytes, as the non-negative range of a C `int`. */
  type ByteSize = s: int | 0 <= s < 0x8000_0000

  /**
    One link node of an attribute dictionary. A node that is not a GB_Attribute
    is `OtherNode`. For an attribute, `refValid` says whether the detail could
    find a reference to it, and `values[e]` is its raw value on element `e` of
    its domain (points, primitives, corners in primitive order, or the single
    detail element).
   */
  datatype AttribNode =
    | OtherNode
    | Attribute(name: string, attribType: AttribType, size: ByteSize, refValid: bool, values: seq<Blob>)

  /** A GU_Detail: points, primitives and the attribute dictionaries of the four domains. */
  datatype Geometry = Geometry(
    points: seq<Point>,
    prims: seq<Prim>,
    detailAttribs: seq<AttribNode>,
    pointAttribs: seq<AttribNode>,
    primAttribs: seq<AttribNode>,
    vertexAttribs: seq<AttribNode>)

  /** The number of corners over all primitives: the element count of the vertex domain. */
  function TotalCorners(prims: seq<Prim>): nat
  {
    if prims == [] then 0 else TotalCorners(prims[..|prims| - 1]) + prims[|prims| - 1].vertexCount
  }

  /** Corners of the primitives before `prims[k]` never outnumber the corners of all of them. */
  lemma {:induction false} TotalCornersPrefix(prims: seq<Prim>, k: nat)
    requires k <= |prims|
    ensures TotalCorners(prims[..k]) <= TotalCorners(prims)
    decreases |prims|
  {
    if k < |prims| {
      var init := prims[..|prims| - 1];
      assert init[..k] == prims[..k];
      TotalCornersPrefix(init, k);
    } else {
      assert prims[..k] == prims;
    }
  }

  /** Every attribute the detail can reference holds a value for each of the `count` elements of its domain. */
  predicate Sized(attribs: seq<AttribNode>, count: nat)
  {
    forall a <- attribs :: a.Attribute? && a.refValid ==> |a.values| == count
  }

  /** What Houdini guarantees of a detail: every attribute is as long as its domain. */
  predicate WellFormed(geo: Geometry)
  {
    && Sized(geo.detailAttribs, 1)
    && Sized(geo.pointAttribs, |geo.points|)
    && Sized(geo.primAttribs, |geo.prims|)
    && Sized(geo.vertexAttribs, TotalCorners(geo.prims))
  }
}
