/**
  The vertex list: the order in which corners are read for vertex-domain
  attributes. Corners of a polygon are taken last to first, so that the
  destination's winding is the reverse of Houdini's; corners of any other
  primitive keep their order.
 */
module Winding {
  import opened Houdini

  /** Index of the first corner of `prims[i]` in the flat corner space. */
  function Offset(prims: seq<Prim>, i: nat): nat
    requires i <= |prims|
  {
    TotalCorners(prims[..i])
  }

  /** The corner indices read for one primitive whose corners start at `start`. */
  function PrimCorners(start: nat, p: Prim): seq<nat>
  {
    seq(p.vertexCount, v => if p.isPoly then start + p.vertexCount - 1 - v else start + v)
  }

  /** The vertex list of all primitives, one block per primitive, in primitive order. */
  function VertexOrder(prims: seq<Prim>): (r: seq<nat>)
    ensures |r| == TotalCorners(prims)
  {
    if prims == [] then []
    else
      var init := prims[..|prims| - 1];
      VertexOrder(init) + PrimCorners(TotalCorners(init), prims[|prims| - 1])
  }

  /**
    Slot `v` of primitive `i`'s block holds corner n-1-v of that primitive
    when it is a polygon, corner v otherwise.
   */
  lemma {:induction false} VertexOrderAt(prims: seq<Prim>, i: nat, v: nat)
    requires i < |prims| && v < prims[i].vertexCount
    ensures Offset(prims, i) + v < |VertexOrder(prims)|
    ensures VertexOrder(prims)[Offset(prims, i) + v]
            == Offset(prims, i) + (if prims[i].isPoly then prims[i].vertexCount - 1 - v else v)
    decreases |prims|
  {
    var init := prims[..|prims| - 1];
    assert init[..i] == prims[..i];
    if i == |prims| - 1 {
      assert init == prims[..i];
    } else {
      assert init[..i + 1] == prims[..i + 1];
      assert TotalCorners(prims[..i + 1]) == TotalCorners(prims[..i]) + prims[i].vertexCount by {
        assert prims[..i + 1][..i] == prims[..i];
      }
      TotalCornersPrefix(init, i + 1);
      VertexOrderAt(init, i, v);
    }
  }

  /**
    The vertex list is an involution on the corner indices: every entry is a
    corner, and reading the list twice returns to where one started.
   */
  lemma {:induction false} VertexOrderInvolution(prims: seq<Prim>)
    ensures forall j :: 0 <= j < |VertexOrder(prims)| ==>
              VertexOrder(prims)[j] < TotalCorners(prims) && VertexOrder(prims)[VertexOrder(prims)[j]] == j
    decreases |prims|
  {
    if prims != [] {
      var init := prims[..|prims| - 1];
      var p := prims[|prims| - 1];
      var start := TotalCorners(init);
      VertexOrderInvolution(init);
      var r := VertexOrder(prims);
      forall j | 0 <= j < |r|
        ensures r[j] < TotalCorners(prims) && r[r[j]] == j
      {
        if j < start {
          assert r[j] == VertexOrder(init)[j];
          assert r[r[j]] == VertexOrder(init)[r[j]];
        } else {
          assert r[j] == PrimCorners(start, p)[j - start];
          assert r[r[j]] == PrimCorners(start, p)[r[j] - start];
        }
      }
    }
  }

  /** Hence the vertex list is a permutation of the corner indices 0 .. TotalCorners - 1. */
  lemma VertexOrderIsPermutation(prims: seq<Prim>)
    ensures forall j, k :: 0 <= j < k < |VertexOrder(prims)| ==> VertexOrder(prims)[j] != VertexOrder(prims)[k]
    ensures forall c :: 0 <= c < TotalCorners(prims) ==> c in VertexOrder(prims)
  {
    VertexOrderInvolution(prims);
    var r := VertexOrder(prims);
    forall j, k | 0 <= j < k < |r|
      ensures r[j] != r[k]
    {
      assert r[r[j]] == j && r[r[k]] == k;
    }
    forall c | 0 <= c < TotalCorners(prims)
      ensures c in r
    {
      assert r[r[c]] == c;
    }
  }

  /** The first loop of the vertex-domain step: total corner count of all primitives. */
  method CountVertices(prims: seq<Prim>) returns (numVerts: nat)
    ensures numVerts == TotalCorners(prims)
  {
    numVerts := 0;
    for i := 0 to |prims|
      invariant numVerts == TotalCorners(prims[..i])
    {
      assert prims[..i + 1][..i] == prims[..i];
      numVerts := numVerts + prims[i].vertexCount;
    }
    assert prims[..|prims|] == prims;
  }

  /** The second loop: fill a vertex list of `numVerts` slots, primitive by primitive. */
  method BuildVertexList(prims: seq<Prim>, numVerts: nat) returns (vertices: seq<nat>)
    requires numVerts == TotalCorners(prims)
    ensures vertices == VertexOrder(prims)
  {
    var list := new nat[numVerts];
    var vertCount := 0;
    for i := 0 to |prims|
      invariant vertCount == TotalCorners(prims[..i]) <= list.Length
      invariant list[..vertCount] == VertexOrder(prims[..i])
    {
      var prim := prims[i];
      var numPrimVerts := prim.vertexCount;
      var start := vertCount;  // first corner of this primitive in the flat corner space
      assert prims[..i + 1][..i] == prims[..i];
      TotalCornersPrefix(prims, i + 1);
      for v := 0 to numPrimVerts
        invariant vertCount == start + v
        invariant list[..vertCount] == VertexOrder(prims[..i]) + PrimCorners(start, prim)[..v]
      {
        if prim.isPoly {
          list[vertCount] := numPrimVerts - 1 - v + start;
        } else {
          list[vertCount] := v + start;
        }
        assert PrimCorners(start, prim)[..v + 1] == PrimCorners(start, prim)[..v] + [list[vertCount]];
        vertCount := vertCount + 1;
      }
      assert PrimCorners(start, prim)[..numPrimVerts] == PrimCorners(start, prim);
    }
    assert prims[..|prims|] == prims;
    vertices := list[..];
  }
}
