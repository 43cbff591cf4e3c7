/**
  The attribute transfer engine: positions first under "P", then the detail,
  point, primitive and vertex attribute dictionaries, each domain taken whole
  only when the destination expects exactly as many values as the domain has
  elements.
 */
module AttributeTransfer {
  import opened Wrappers
  import opened Houdini
  import opened Cortex
  import opened TypeDispatch
  import opened Winding

  // ---------------------------------------------------------------------------
  // One attribute dictionary
  // ---------------------------------------------------------------------------

  /** The names a dictionary writes: those of its resolvable attributes. */
  function Names(attribs: seq<AttribNode>): set<string>
  {
    set j | 0 <= j < |attribs| && Resolvable(attribs[j]) :: attribs[j].name
  }

  /**
    The variable map after walking a dictionary in order: each resolvable
    attribute is stored under its own name with the domain's interpolation,
    replacing whatever was there; every other node is skipped.
   */
  function TransferDomain(vars: map<string, PrimitiveVariable>, attribs: seq<AttribNode>,
                          interpolation: Interpolation, order: ElementOrder): map<string, PrimitiveVariable>
    requires forall a <- attribs :: Fits(a, order)
    decreases |attribs|
  {
    if attribs == [] then vars
    else
      var before := TransferDomain(vars, attribs[..|attribs| - 1], interpolation, order);
      var a := attribs[|attribs| - 1];
      match Extract(a, order)
      case None => before
      case Some(data) => before[a.name := PrimitiveVariable(interpolation, data)]
  }

  lemma NamesSnoc(attribs: seq<AttribNode>)
    requires attribs != []
    ensures Names(attribs) == Names(attribs[..|attribs| - 1])
                              + (if Resolvable(attribs[|attribs| - 1]) then {attribs[|attribs| - 1].name} else {})
  {
    var init := attribs[..|attribs| - 1];
    var last := attribs[|attribs| - 1];
    forall k | k in Names(attribs)
      ensures k in Names(init) || (Resolvable(last) && k == last.name)
    {
      var j :| 0 <= j < |attribs| && Resolvable(attribs[j]) && attribs[j].name == k;
      if j < |init| {
        assert init[j] == attribs[j];
      }
    }
    forall k | k in Names(init)
      ensures k in Names(attribs)
    {
      var j :| 0 <= j < |init| && Resolvable(init[j]) && init[j].name == k;
      assert attribs[j] == init[j];
    }
    if Resolvable(last) {
      assert attribs[|attribs| - 1] == last;
    }
  }

  /** A dictionary adds exactly the names of its resolvable attributes to the map. */
  lemma {:induction false} TransferDomainKeys(vars: map<string, PrimitiveVariable>, attribs: seq<AttribNode>,
                                              interpolation: Interpolation, order: ElementOrder)
    requires forall a <- attribs :: Fits(a, order)
    ensures TransferDomain(vars, attribs, interpolation, order).Keys == vars.Keys + Names(attribs)
    decreases |attribs|
  {
    if attribs != [] {
      TransferDomainKeys(vars, attribs[..|attribs| - 1], interpolation, order);
      NamesSnoc(attribs);
    }
  }

  /** Entries under a name no resolvable attribute carries are left as they were. */
  lemma {:induction false} TransferDomainFrame(vars: map<string, PrimitiveVariable>, attribs: seq<AttribNode>,
                                               interpolation: Interpolation, order: ElementOrder, k: string)
    requires forall a <- attribs :: Fits(a, order)
    requires k in vars && k !in Names(attribs)
    ensures k in TransferDomain(vars, attribs, interpolation, order)
    ensures TransferDomain(vars, attribs, interpolation, order)[k] == vars[k]
    decreases |attribs|
  {
    if attribs != [] {
      NamesSnoc(attribs);
      TransferDomainFrame(vars, attribs[..|attribs| - 1], interpolation, order, k);
    }
  }

  /**
    The last resolvable attribute of a name decides its entry: its values in
    the domain's element order, tagged with the domain's interpolation.
   */
  lemma {:induction false} TransferDomainLastWins(vars: map<string, PrimitiveVariable>, attribs: seq<AttribNode>,
                                                  interpolation: Interpolation, order: ElementOrder, j: nat)
    requires forall a <- attribs :: Fits(a, order)
    requires j < |attribs| && Resolvable(attribs[j])
    requires forall i :: j < i < |attribs| && Resolvable(attribs[i]) ==> attribs[i].name != attribs[j].name
    ensures attribs[j].name in TransferDomain(vars, attribs, interpolation, order)
    ensures TransferDomain(vars, attribs, interpolation, order)[attribs[j].name]
            == PrimitiveVariable(interpolation, Extract(attribs[j], order).value)
    decreases |attribs|
  {
    var init := attribs[..|attribs| - 1];
    if j < |attribs| - 1 {
      assert init[j] == attribs[j];
      TransferDomainLastWins(vars, init, interpolation, order, j);
    }
  }

  /** A node that does not resolve is skipped on its own: the walk goes on as if it were absent. */
  lemma {:induction false} TransferDomainSkip(vars: map<string, PrimitiveVariable>, attribs: seq<AttribNode>,
                                              interpolation: Interpolation, order: ElementOrder, j: nat)
    requires forall a <- attribs :: Fits(a, order)
    requires j < |attribs| && !Resolvable(attribs[j])
    ensures forall a <- attribs[..j] + attribs[j + 1..] :: Fits(a, order)
    ensures TransferDomain(vars, attribs, interpolation, order)
            == TransferDomain(vars, attribs[..j] + attribs[j + 1..], interpolation, order)
    decreases |attribs|
  {
    var rest := attribs[..j] + attribs[j + 1..];
    assert forall a <- rest :: a in attribs;
    var init := attribs[..|attribs| - 1];
    if j == |attribs| - 1 {
      assert rest == init;
    } else {
      assert rest[..|rest| - 1] == init[..j] + init[j + 1..];
      assert rest[|rest| - 1] == attribs[|attribs| - 1];
      TransferDomainSkip(vars, init, interpolation, order, j);
    }
  }

  /** The value count a variable of this interpolation must have, as the destination's topology says. */
  predicate Consistent(pv: PrimitiveVariable, variableSize: Interpolation -> nat)
  {
    match pv.data
    case SimpleData(_, _) => variableSize(pv.interpolation) == 1
    case VectorData(_, values) => |values| == variableSize(pv.interpolation)
  }

  predicate AllConsistent(vars: map<string, PrimitiveVariable>, variableSize: Interpolation -> nat)
  {
    forall k <- vars :: Consistent(vars[k], variableSize)
  }

  /** A dictionary walked in an order as long as the interpolation's size only adds data of that size. */
  lemma {:induction false} TransferDomainConsistent(vars: map<string, PrimitiveVariable>, attribs: seq<AttribNode>,
                                                    interpolation: Interpolation, order: ElementOrder,
                                                    variableSize: Interpolation -> nat)
    requires forall a <- attribs :: Fits(a, order)
    requires variableSize(interpolation) == Count(order)
    requires AllConsistent(vars, variableSize)
    ensures AllConsistent(TransferDomain(vars, attribs, interpolation, order), variableSize)
    decreases |attribs|
  {
    if attribs != [] {
      TransferDomainConsistent(vars, attribs[..|attribs| - 1], interpolation, order, variableSize);
    }
  }

  // ---------------------------------------------------------------------------
  // The four domains
  // ---------------------------------------------------------------------------

  /** The four domains, in the order the transfer visits them. */
  datatype Domain = DetailDomain | PointDomain | PrimitiveDomain | VertexDomain

  function Index(d: Domain): nat
  {
    match d
    case DetailDomain => 0
    case PointDomain => 1
    case PrimitiveDomain => 2
    case VertexDomain => 3
  }

  /** The interpolation the caller chose for each domain. */
  datatype Interpolations = Interpolations(vertex: Interpolation, primitive: Interpolation,
                                           point: Interpolation, detail: Interpolation)

  function InterpolationOf(interps: Interpolations, d: Domain): Interpolation
  {
    match d
    case DetailDomain => interps.detail
    case PointDomain => interps.point
    case PrimitiveDomain => interps.primitive
    case VertexDomain => interps.vertex
  }

  function AttribsOf(geo: Geometry, d: Domain): seq<AttribNode>
  {
    match d
    case DetailDomain => geo.detailAttribs
    case PointDomain => geo.pointAttribs
    case PrimitiveDomain => geo.primAttribs
    case VertexDomain => geo.vertexAttribs
  }

  /** The number of elements of a domain: one, the points, the primitives, or the corners. */
  function ElementCount(geo: Geometry, d: Domain): nat
  {
    match d
    case DetailDomain => 1
    case PointDomain => |geo.points|
    case PrimitiveDomain => |geo.prims|
    case VertexDomain => TotalCorners(geo.prims)
  }

  /** The order in which a domain's elements are read; only the vertex domain is permuted. */
  function OrderOf(geo: Geometry, d: Domain): (r: ElementOrder)
    ensures Count(r) == ElementCount(geo, d)
  {
    match d
    case DetailDomain => Single
    case PointDomain => Elements(Identity(|geo.points|))
    case PrimitiveDomain => Elements(Identity(|geo.prims|))
    case VertexDomain => Elements(VertexOrder(geo.prims))
  }

  lemma DomainFits(geo: Geometry, d: Domain)
    requires WellFormed(geo)
    ensures forall a <- AttribsOf(geo, d) :: Fits(a, OrderOf(geo, d))
  {
    if d == VertexDomain {
      VertexOrderInvolution(geo.prims);
    }
  }

  /** A domain is transferred only when the destination expects one value per element of it. */
  predicate Admitted(variableSize: Interpolation -> nat, geo: Geometry, interps: Interpolations, d: Domain)
  {
    variableSize(InterpolationOf(interps, d)) == ElementCount(geo, d)
  }

  function Stage(vars: map<string, PrimitiveVariable>, variableSize: Interpolation -> nat, geo: Geometry,
                 interps: Interpolations, d: Domain): map<string, PrimitiveVariable>
    requires WellFormed(geo)
  {
    if Admitted(variableSize, geo, interps, d) then
      DomainFits(geo, d);
      TransferDomain(vars, AttribsOf(geo, d), InterpolationOf(interps, d), OrderOf(geo, d))
    else vars
  }

  /** The names a domain writes, or none when it is not admitted. */
  function StageNames(variableSize: Interpolation -> nat, geo: Geometry, interps: Interpolations, d: Domain): set<string>
  {
    if Admitted(variableSize, geo, interps, d) then Names(AttribsOf(geo, d)) else {}
  }

  /** The names written by the domains transferred after `d`. */
  function LaterNames(variableSize: Interpolation -> nat, geo: Geometry, interps: Interpolations, d: Domain): set<string>
    decreases 3 - Index(d)
  {
    match d
    case DetailDomain =>
      StageNames(variableSize, geo, interps, PointDomain) + LaterNames(variableSize, geo, interps, PointDomain)
    case PointDomain =>
      StageNames(variableSize, geo, interps, PrimitiveDomain) + LaterNames(variableSize, geo, interps, PrimitiveDomain)
    case PrimitiveDomain => StageNames(variableSize, geo, interps, VertexDomain)
    case VertexDomain => {}
  }

  function AdmittedNames(variableSize: Interpolation -> nat, geo: Geometry, interps: Interpolations): set<string>
  {
    StageNames(variableSize, geo, interps, DetailDomain) + LaterNames(variableSize, geo, interps, DetailDomain)
  }

  // ---------------------------------------------------------------------------
  // The whole transfer
  // ---------------------------------------------------------------------------

  /** The first three components of every point's position, in point order. */
  function Positions(points: seq<Point>): seq<Blob>
  {
    seq(|points|, i requires 0 <= i < |points| => [points[i].x, points[i].y, points[i].z])
  }

  function PositionVariable(points: seq<Point>): PrimitiveVariable
  {
    PrimitiveVariable(Vertex, VectorData(V3fType, Positions(points)))
  }

  /** The variable map after a full transfer from `geo` into a primitive whose map was `vars`. */
  function Transferred(vars: map<string, PrimitiveVariable>, variableSize: Interpolation -> nat,
                       geo: Geometry, interps: Interpolations): map<string, PrimitiveVariable>
    requires WellFormed(geo)
  {
    var withP := vars["P" := PositionVariable(geo.points)];
    var afterDetail := Stage(withP, variableSize, geo, interps, DetailDomain);
    var afterPoint := Stage(afterDetail, variableSize, geo, interps, PointDomain);
    var afterPrimitive := Stage(afterPoint, variableSize, geo, interps, PrimitiveDomain);
    Stage(afterPrimitive, variableSize, geo, interps, VertexDomain)
  }

  lemma StageKeys(vars: map<string, PrimitiveVariable>, variableSize: Interpolation -> nat, geo: Geometry,
                  interps: Interpolations, d: Domain)
    requires WellFormed(geo)
    ensures Stage(vars, variableSize, geo, interps, d).Keys == vars.Keys + StageNames(variableSize, geo, interps, d)
  {
    if Admitted(variableSize, geo, interps, d) {
      DomainFits(geo, d);
      TransferDomainKeys(vars, AttribsOf(geo, d), InterpolationOf(interps, d), OrderOf(geo, d));
    }
  }

  lemma StageFrame(vars: map<string, PrimitiveVariable>, variableSize: Interpolation -> nat, geo: Geometry,
                   interps: Interpolations, d: Domain, k: string)
    requires WellFormed(geo)
    requires k in vars && k !in StageNames(variableSize, geo, interps, d)
    ensures k in Stage(vars, variableSize, geo, interps, d)
    ensures Stage(vars, variableSize, geo, interps, d)[k] == vars[k]
  {
    if Admitted(variableSize, geo, interps, d) {
      DomainFits(geo, d);
      TransferDomainFrame(vars, AttribsOf(geo, d), InterpolationOf(interps, d), OrderOf(geo, d), k);
    }
  }

  /** The stages that come before `d` in the source's order, applied to `vars`. */
  function StagesBefore(vars: map<string, PrimitiveVariable>, variableSize: Interpolation -> nat, geo: Geometry,
                        interps: Interpolations, d: Domain): map<string, PrimitiveVariable>
    requires WellFormed(geo)
    decreases Index(d)
  {
    match d
    case DetailDomain => vars
    case PointDomain => Stage(vars, variableSize, geo, interps, DetailDomain)
    case PrimitiveDomain =>
      Stage(StagesBefore(vars, variableSize, geo, interps, PointDomain), variableSize, geo, interps, PointDomain)
    case VertexDomain =>
      Stage(StagesBefore(vars, variableSize, geo, interps, PrimitiveDomain), variableSize, geo, interps, PrimitiveDomain)
  }

  /** The stages that come after `d` in the source's order, applied to `vars`. */
  function StagesAfter(vars: map<string, PrimitiveVariable>, variableSize: Interpolation -> nat, geo: Geometry,
                       interps: Interpolations, d: Domain): map<string, PrimitiveVariable>
    requires WellFormed(geo)
    decreases 3 - Index(d)
  {
    match d
    case VertexDomain => vars
    case PrimitiveDomain => Stage(vars, variableSize, geo, interps, VertexDomain)
    case PointDomain =>
      StagesAfter(Stage(vars, variableSize, geo, interps, PrimitiveDomain), variableSize, geo, interps, PrimitiveDomain)
    case DetailDomain =>
      StagesAfter(Stage(vars, variableSize, geo, interps, PointDomain), variableSize, geo, interps, PointDomain)
  }

  /** The stages after `d` leave an entry alone unless one of them writes its name. */
  lemma {:induction false} LaterStagesFrame(vars: map<string, PrimitiveVariable>, variableSize: Interpolation -> nat,
                                            geo: Geometry, interps: Interpolations, d: Domain, k: string)
    requires WellFormed(geo)
    requires k in vars && k !in LaterNames(variableSize, geo, interps, d)
    ensures k in StagesAfter(vars, variableSize, geo, interps, d)
    ensures StagesAfter(vars, variableSize, geo, interps, d)[k] == vars[k]
    decreases 3 - Index(d)
  {
    match d
    case VertexDomain =>
    case PrimitiveDomain =>
      StageFrame(vars, variableSize, geo, interps, VertexDomain, k);
    case PointDomain =>
      StageFrame(vars, variableSize, geo, interps, PrimitiveDomain, k);
      LaterStagesFrame(Stage(vars, variableSize, geo, interps, PrimitiveDomain), variableSize, geo, interps, PrimitiveDomain, k);
    case DetailDomain =>
      StageFrame(vars, variableSize, geo, interps, PointDomain, k);
      LaterStagesFrame(Stage(vars, variableSize, geo, interps, PointDomain), variableSize, geo, interps, PointDomain, k);
  }

  /** Splitting the transfer around any one domain. */
  lemma TransferredAround(vars: map<string, PrimitiveVariable>, variableSize: Interpolation -> nat,
                          geo: Geometry, interps: Interpolations, d: Domain)
    requires WellFormed(geo)
    ensures Transferred(vars, variableSize, geo, interps)
            == StagesAfter(Stage(StagesBefore(vars["P" := PositionVariable(geo.points)], variableSize, geo, interps, d),
                                 variableSize, geo, interps, d),
                           variableSize, geo, interps, d)
  {
  }

  // ---------------------------------------------------------------------------
  // What the transfer promises
  // ---------------------------------------------------------------------------

  /** The transfer adds "P" and exactly the names of the admitted domains' resolvable attributes. */
  lemma TransferredKeys(vars: map<string, PrimitiveVariable>, variableSize: Interpolation -> nat,
                        geo: Geometry, interps: Interpolations)
    requires WellFormed(geo)
    ensures Transferred(vars, variableSize, geo, interps).Keys
            == vars.Keys + {"P"} + AdmittedNames(variableSize, geo, interps)
  {
    var withP := vars["P" := PositionVariable(geo.points)];
    var afterDetail := Stage(withP, variableSize, geo, interps, DetailDomain);
    var afterPoint := Stage(afterDetail, variableSize, geo, interps, PointDomain);
    var afterPrimitive := Stage(afterPoint, variableSize, geo, interps, PrimitiveDomain);
    StageKeys(withP, variableSize, geo, interps, DetailDomain);
    StageKeys(afterDetail, variableSize, geo, interps, PointDomain);
    StageKeys(afterPoint, variableSize, geo, interps, PrimitiveDomain);
    StageKeys(afterPrimitive, variableSize, geo, interps, VertexDomain);
  }

  /**
    "P" is always present. Unless an admitted domain has a resolvable attribute
    of that name, it holds one entry per point, the point's x, y and z in
    point order, with Vertex interpolation.
   */
  lemma TransferredPositions(vars: map<string, PrimitiveVariable>, variableSize: Interpolation -> nat,
                             geo: Geometry, interps: Interpolations)
    requires WellFormed(geo)
    ensures "P" in Transferred(vars, variableSize, geo, interps)
    ensures "P" !in AdmittedNames(variableSize, geo, interps) ==>
              var p := Transferred(vars, variableSize, geo, interps)["P"];
              && p.interpolation == Vertex
              && p.data.VectorData? && p.data.elementType == V3fType
              && |p.data.values| == |geo.points|
              && forall i :: 0 <= i < |geo.points| ==>
                   p.data.values[i] == [geo.points[i].x, geo.points[i].y, geo.points[i].z]
  {
    TransferredKeys(vars, variableSize, geo, interps);
    if "P" !in AdmittedNames(variableSize, geo, interps) {
      var withP := vars["P" := PositionVariable(geo.points)];
      TransferredAround(vars, variableSize, geo, interps, DetailDomain);
      StageFrame(withP, variableSize, geo, interps, DetailDomain, "P");
      LaterStagesFrame(Stage(withP, variableSize, geo, interps, DetailDomain), variableSize, geo, interps, DetailDomain, "P");
    }
  }

  /** Entries under every other name that no admitted domain writes are unchanged. */
  lemma TransferredFrame(vars: map<string, PrimitiveVariable>, variableSize: Interpolation -> nat,
                         geo: Geometry, interps: Interpolations, k: string)
    requires WellFormed(geo)
    requires k in vars && k != "P" && k !in AdmittedNames(variableSize, geo, interps)
    ensures k in Transferred(vars, variableSize, geo, interps)
    ensures Transferred(vars, variableSize, geo, interps)[k] == vars[k]
  {
    var withP := vars["P" := PositionVariable(geo.points)];
    TransferredAround(vars, variableSize, geo, interps, DetailDomain);
    StageFrame(withP, variableSize, geo, interps, DetailDomain, k);
    LaterStagesFrame(Stage(withP, variableSize, geo, interps, DetailDomain), variableSize, geo, interps, DetailDomain, k);
  }

  /**
    An attribute of an admitted domain that is the last writer of its name
    (no later resolvable attribute of the domain, and no later admitted domain,
    writes that name) ends up under its name: its values in the domain's
    element order, with the domain's interpolation.
   */
  lemma TransferredLastWriter(vars: map<string, PrimitiveVariable>, variableSize: Interpolation -> nat,
                              geo: Geometry, interps: Interpolations, d: Domain, j: nat)
    requires WellFormed(geo)
    requires Admitted(variableSize, geo, interps, d)
    requires j < |AttribsOf(geo, d)| && Resolvable(AttribsOf(geo, d)[j])
    requires forall i :: j < i < |AttribsOf(geo, d)| && Resolvable(AttribsOf(geo, d)[i]) ==>
               AttribsOf(geo, d)[i].name != AttribsOf(geo, d)[j].name
    requires AttribsOf(geo, d)[j].name !in LaterNames(variableSize, geo, interps, d)
    ensures Fits(AttribsOf(geo, d)[j], OrderOf(geo, d))
    ensures AttribsOf(geo, d)[j].name in Transferred(vars, variableSize, geo, interps)
    ensures Transferred(vars, variableSize, geo, interps)[AttribsOf(geo, d)[j].name]
            == PrimitiveVariable(InterpolationOf(interps, d), Extract(AttribsOf(geo, d)[j], OrderOf(geo, d)).value)
  {
    var attribs := AttribsOf(geo, d);
    var k := attribs[j].name;
    DomainFits(geo, d);
    assert attribs[j] in attribs;
    var before := StagesBefore(vars["P" := PositionVariable(geo.points)], variableSize, geo, interps, d);
    TransferDomainLastWins(before, attribs, InterpolationOf(interps, d), OrderOf(geo, d), j);
    TransferredAround(vars, variableSize, geo, interps, d);
    LaterStagesFrame(Stage(before, variableSize, geo, interps, d), variableSize, geo, interps, d, k);
  }

  /** The geometry with one domain's attribute dictionary emptied. */
  function WithoutDomain(geo: Geometry, d: Domain): (r: Geometry)
    ensures WellFormed(geo) ==> WellFormed(r)
  {
    match d
    case DetailDomain => geo.(detailAttribs := [])
    case PointDomain => geo.(pointAttribs := [])
    case PrimitiveDomain => geo.(primAttribs := [])
    case VertexDomain => geo.(vertexAttribs := [])
  }

  /** A domain that is not admitted contributes nothing: the result is as if it had no attributes at all. */
  lemma TransferredDropsDomain(vars: map<string, PrimitiveVariable>, variableSize: Interpolation -> nat,
                               geo: Geometry, interps: Interpolations, d: Domain)
    requires WellFormed(geo)
    requires !Admitted(variableSize, geo, interps, d)
    ensures StageNames(variableSize, geo, interps, d) == {}
    ensures Transferred(vars, variableSize, geo, interps)
            == Transferred(vars, variableSize, WithoutDomain(geo, d), interps)
  {
  }

  /**
    Every variable keeps as many values as its interpolation asks for: given
    that of the entries already present, and that the destination has one
    Vertex value per point (the count "P" is written with), it holds of the
    transferred map.
   */
  lemma TransferredConsistent(vars: map<string, PrimitiveVariable>, variableSize: Interpolation -> nat,
                              geo: Geometry, interps: Interpolations)
    requires WellFormed(geo)
    requires AllConsistent(vars, variableSize)
    requires variableSize(Vertex) == |geo.points|
    ensures AllConsistent(Transferred(vars, variableSize, geo, interps), variableSize)
  {
    var withP := vars["P" := PositionVariable(geo.points)];
    var afterDetail := Stage(withP, variableSize, geo, interps, DetailDomain);
    var afterPoint := Stage(afterDetail, variableSize, geo, interps, PointDomain);
    var afterPrimitive := Stage(afterPoint, variableSize, geo, interps, PrimitiveDomain);
    StageConsistent(withP, variableSize, geo, interps, DetailDomain);
    StageConsistent(afterDetail, variableSize, geo, interps, PointDomain);
    StageConsistent(afterPoint, variableSize, geo, interps, PrimitiveDomain);
    StageConsistent(afterPrimitive, variableSize, geo, interps, VertexDomain);
  }

  lemma StageConsistent(vars: map<string, PrimitiveVariable>, variableSize: Interpolation -> nat, geo: Geometry,
                        interps: Interpolations, d: Domain)
    requires WellFormed(geo)
    requires AllConsistent(vars, variableSize)
    ensures AllConsistent(Stage(vars, variableSize, geo, interps, d), variableSize)
  {
    if Admitted(variableSize, geo, interps, d) {
      DomainFits(geo, d);
      TransferDomainConsistent(vars, AttribsOf(geo, d), InterpolationOf(interps, d), OrderOf(geo, d), variableSize);
    }
  }

  /**
    For a vertex attribute that ends up under its name, slot v of primitive i
    holds the attribute's value on corner n-1-v of that primitive when it is a
    polygon, on corner v otherwise: the winding of polygons is reversed.
   */
  lemma TransferredVertexWinding(vars: map<string, PrimitiveVariable>, variableSize: Interpolation -> nat,
                                 geo: Geometry, interps: Interpolations, j: nat, i: nat, v: nat)
    requires WellFormed(geo)
    requires Admitted(variableSize, geo, interps, VertexDomain)
    requires j < |geo.vertexAttribs| && Resolvable(geo.vertexAttribs[j])
    requires forall i' :: j < i' < |geo.vertexAttribs| && Resolvable(geo.vertexAttribs[i']) ==>
               geo.vertexAttribs[i'].name != geo.vertexAttribs[j].name
    requires i < |geo.prims| && v < geo.prims[i].vertexCount
    ensures geo.vertexAttribs[j].name in Transferred(vars, variableSize, geo, interps)
    ensures var pv := Transferred(vars, variableSize, geo, interps)[geo.vertexAttribs[j].name];
            && pv.interpolation == interps.vertex
            && pv.data.VectorData?
            && |pv.data.values| == TotalCorners(geo.prims)
            && Offset(geo.prims, i) + v < |pv.data.values|
            && var n := geo.prims[i].vertexCount;
               Offset(geo.prims, i) + (if geo.prims[i].isPoly then n - 1 - v else v) < |geo.vertexAttribs[j].values|
               && pv.data.values[Offset(geo.prims, i) + v]
                  == geo.vertexAttribs[j].values[Offset(geo.prims, i) + (if geo.prims[i].isPoly then n - 1 - v else v)]
  {
    TransferredLastWriter(vars, variableSize, geo, interps, VertexDomain, j);
    VertexOrderAt(geo.prims, i, v);
    assert geo.vertexAttribs[j] in geo.vertexAttribs;
  }

  // ---------------------------------------------------------------------------
  // The transfer, step by step
  // ---------------------------------------------------------------------------

  /** The position loop: x, y and z of every point, in point order. */
  method PositionData(points: seq<Point>) returns (pData: seq<Blob>)
    ensures |pData| == |points|
    ensures forall i :: 0 <= i < |points| ==> pData[i] == [points[i].x, points[i].y, points[i].z]
  {
    var data := new Blob[|points|];
    for i := 0 to |points|
      invariant forall k :: 0 <= k < i ==> data[k] == [points[k].x, points[k].y, points[k].z]
    {
      var pos := points[i];
      data[i] := [pos.x, pos.y, pos.z];
    }
    pData := data[..];
  }

  /** The loop shared by the four per-domain transfers: walk the dictionary, store what resolves. */
  method TransferEach(result: Primitive, attribs: seq<AttribNode>, interpolation: Interpolation, order: ElementOrder)
    requires forall a <- attribs :: Fits(a, order)
    modifies result
    ensures result.variables == TransferDomain(old(result.variables), attribs, interpolation, order)
  {
    for i := 0 to |attribs|
      invariant result.variables == TransferDomain(old(result.variables), attribs[..i], interpolation, order)
    {
      assert attribs[..i + 1][..i] == attribs[..i];
      var attr := attribs[i];
      if !attr.Attribute? {
        continue;
      }
      if !attr.refValid {
        continue;
      }
      var data := Extract(attr, order);
      if data.Some? {
        result.variables := result.variables[attr.name := PrimitiveVariable(interpolation, data.value)];
      }
    }
    assert attribs[..|attribs|] == attribs;
  }

  method TransferDetailAttribs(geo: Geometry, result: Primitive, interpolation: Interpolation)
    requires Sized(geo.detailAttribs, 1)
    modifies result
    ensures result.variables == TransferDomain(old(result.variables), geo.detailAttribs, interpolation, Single)
  {
    TransferEach(result, geo.detailAttribs, interpolation, Single);
  }

  method TransferPointAttribs(geo: Geometry, result: Primitive, interpolation: Interpolation)
    requires Sized(geo.pointAttribs, |geo.points|)
    modifies result
    ensures result.variables
            == TransferDomain(old(result.variables), geo.pointAttribs, interpolation, Elements(Identity(|geo.points|)))
  {
    TransferEach(result, geo.pointAttribs, interpolation, Elements(Identity(|geo.points|)));
  }

  method TransferPrimitiveAttribs(geo: Geometry, result: Primitive, interpolation: Interpolation)
    requires Sized(geo.primAttribs, |geo.prims|)
    modifies result
    ensures result.variables
            == TransferDomain(old(result.variables), geo.primAttribs, interpolation, Elements(Identity(|geo.prims|)))
  {
    TransferEach(result, geo.primAttribs, interpolation, Elements(Identity(|geo.prims|)));
  }

  method TransferVertexAttribs(geo: Geometry, result: Primitive, interpolation: Interpolation, vertices: seq<nat>)
    requires Sized(geo.vertexAttribs, TotalCorners(geo.prims))
    requires forall j :: 0 <= j < |vertices| ==> vertices[j] < TotalCorners(geo.prims)
    modifies result
    ensures result.variables == TransferDomain(old(result.variables), geo.vertexAttribs, interpolation, Elements(vertices))
  {
    TransferEach(result, geo.vertexAttribs, interpolation, Elements(vertices));
  }

  /** transferAttribs: positions, then each domain whose element count the destination expects. */
  method TransferAttribs(geo: Geometry, result: Primitive,
                         vertexInterpolation: Interpolation, primitiveInterpolation: Interpolation,
                         pointInterpolation: Interpolation, detailInterpolation: Interpolation)
    requires WellFormed(geo)
    modifies result
    ensures result.variables
            == Transferred(old(result.variables), result.variableSize, geo,
                           Interpolations(vertexInterpolation, primitiveInterpolation, pointInterpolation, detailInterpolation))
  {
    ghost var interps := Interpolations(vertexInterpolation, primitiveInterpolation, pointInterpolation, detailInterpolation);
    var numPoints := |geo.points|;
    var pData := PositionData(geo.points);
    assert pData == Positions(geo.points);
    result.variables := result.variables["P" := PrimitiveVariable(Vertex, VectorData(V3fType, pData))];
    ghost var vars := result.variables;

    if result.variableSize(detailInterpolation) == 1 {
      TransferDetailAttribs(geo, result, detailInterpolation);
    }
    assert result.variables == Stage(vars, result.variableSize, geo, interps, DetailDomain);
    vars := result.variables;

    if result.variableSize(pointInterpolation) == numPoints {
      TransferPointAttribs(geo, result, pointInterpolation);
    }
    assert result.variables == Stage(vars, result.variableSize, geo, interps, PointDomain);
    vars := result.variables;

    var numPrims := |geo.prims|;
    if result.variableSize(primitiveInterpolation) == numPrims {
      TransferPrimitiveAttribs(geo, result, primitiveInterpolation);
    }
    assert result.variables == Stage(vars, result.variableSize, geo, interps, PrimitiveDomain);
    vars := result.variables;

    var numVerts := CountVertices(geo.prims);
    if result.variableSize(vertexInterpolation) == numVerts {
      var vertices := BuildVertexList(geo.prims, numVerts);
      VertexOrderInvolution(geo.prims);
      TransferVertexAttribs(geo, result, vertexInterpolation, vertices);
    }
    assert result.variables == Stage(vars, result.variableSize, geo, interps, VertexDomain);
  }
}
