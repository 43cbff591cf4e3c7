# Houdini geometry to Cortex primitive: attribute transfer and converter factory

This project models the core of Cortex's `FromHoudiniGeometryConverter`, which
turns a Houdini geometry detail into a Cortex primitive, and proves properties
of the model in Dafny.

The converter copies the detail's point positions into the primitive's
variable map under `"P"`. It then copies the detail, point, primitive and
vertex attribute dictionaries. Each dictionary is copied only when the
primitive expects exactly one value per element of that domain. Every
attribute whose storage kind and byte size resolve to a Cortex data type is
stored under its own name, tagged with the domain's interpolation. Vertex
attributes are read through a vertex list, which reverses the corner order
inside every polygon. The converter factory maps a result type id to a creator
function, and keys the default converter under the invalid type id.

Modules, one per component:

- `Houdini` (`houdini.dfy`) holds the source geometry. Points, primitives (a
  corner count and a polygon flag) and the four attribute dictionaries are
  sequences of link nodes. Each value is a raw list of 32-bit words.
- `Cortex` (`cortex.dfy`) holds interpolations, typed data and the `Primitive`
  class. Its `variables` map is the state the transfer changes. Its
  `variableSize` is given by the caller.
- `TypeDispatch` (`dispatch.dfy`) maps (storage kind, byte size) to an element
  type, and copies an attribute's values in a given element order.
- `Winding` (`winding.dfy`) defines the vertex list and the two loops that
  count and build it.
- `AttributeTransfer` (`transfer.dfy`) has the specification function
  `Transferred`, which applies one `Stage` per domain in the source's order.
  It also has the imperative transfer methods proved against that function,
  and the lemmas about it.
- `ConverterFactory` (`factory.dfy`) holds the registry class, `create`, the
  key ordering and the null-geometry path of `doConversion`.

Two behaviours of the factory are easy to misread:

- `registerConverter` inserts with `std::map::insert`, which keeps an existing
  key. The first registration of a type wins, and so does the first default.
  A later registration for the same key is silently ignored.
- `create` looks up the exact key only. A caller reaches the default only by
  asking for the invalid type id. There is no fallback for other types.

The code never checks corner counts against attribute lengths. The model
states Houdini's guarantee that every attribute holds one value per element of
its domain as `Houdini.WellFormed`, which is a precondition of the transfer.

## Model

| member | source | states |
|---|---|---|
| `TypeDispatch.Resolve` | contrib/IECoreHoudini/src/FromHoudiniGeometryConverter.cpp:183-236 | Float sizes 4-7, 8-11, 12-15 bytes give float, V2f, V3f. Int sizes in the same ranges give int, V2i, V3i. Vector sizes 12-23 give V3f. Every other kind and size gives no data; each case holds in both directions |
| `TypeDispatch.Extract` | contrib/IECoreHoudini/src/FromHoudiniGeometryConverter.cpp:167-236 | Gives data exactly when the node is an attribute with a valid reference and a resolvable type. The data has the resolved type, a single value for the detail element, otherwise one value per index in the given order: the attribute's value at that index |
| `Winding.VertexOrder` | contrib/IECoreHoudini/src/FromHoudiniGeometryConverter.cpp:140-157 | The vertex list is as long as the total corner count of all primitives |
| `Winding.VertexOrderAt` | contrib/IECoreHoudini/src/FromHoudiniGeometryConverter.cpp:142-156 | Slot v of primitive i's block, which starts at the sum of earlier corner counts, holds corner n-1-v of a polygon and corner v of any other primitive |
| `Winding.VertexOrderInvolution` | contrib/IECoreHoudini/src/FromHoudiniGeometryConverter.cpp:140-157 | Every entry of the vertex list is a corner index, and applying the list twice gives back the slot |
| `Winding.VertexOrderIsPermutation` | contrib/IECoreHoudini/src/FromHoudiniGeometryConverter.cpp:140-157 | The vertex list has no repeated entry and contains every corner index, so it is a permutation of the corners |
| `Winding.CountVertices` | contrib/IECoreHoudini/src/FromHoudiniGeometryConverter.cpp:131-136 | The accumulating loop returns the total corner count of all primitives |
| `Winding.BuildVertexList` | contrib/IECoreHoudini/src/FromHoudiniGeometryConverter.cpp:140-157 | The nested fill loop over a buffer of numVerts slots produces exactly the vertex list |
| `AttributeTransfer.TransferDomainKeys` | contrib/IECoreHoudini/src/FromHoudiniGeometryConverter.cpp:238-241 | Walking a dictionary adds exactly the names of its resolvable attributes to the map's keys |
| `AttributeTransfer.TransferDomainFrame` | contrib/IECoreHoudini/src/FromHoudiniGeometryConverter.cpp:238-241 | An entry whose name no resolvable attribute carries keeps its old value |
| `AttributeTransfer.TransferDomainLastWins` | contrib/IECoreHoudini/src/FromHoudiniGeometryConverter.cpp:238-241 | A resolvable attribute with no later resolvable attribute of the same name ends up stored under its name, holding its data and the domain's interpolation, overwriting any earlier entry |
| `AttributeTransfer.TransferDomainSkip` | contrib/IECoreHoudini/src/FromHoudiniGeometryConverter.cpp:167-180 | A node that is not an attribute, has an invalid reference or has an unsupported type is skipped alone: the result equals the walk with that node removed |
| `AttributeTransfer.TransferDomainConsistent` | contrib/IECoreHoudini/src/FromHoudiniGeometryConverter.cpp:238-241 | When the interpolation's size equals the count of the element order, every stored entry has as many values as its interpolation requires |
| `AttributeTransfer.TransferredKeys` | contrib/IECoreHoudini/src/FromHoudiniGeometryConverter.cpp:96-160 | After the transfer, the keys are the old keys, plus "P", plus the names of resolvable attributes in admitted domains. A domain is admitted when variableSize of its interpolation is 1, numPoints, numPrims or the total corner count; no name comes from any other domain |
| `AttributeTransfer.TransferredPositions` | contrib/IECoreHoudini/src/FromHoudiniGeometryConverter.cpp:96-107 | "P" is always present. Unless an admitted attribute named "P" overwrote it, it has Vertex interpolation, type V3f, one entry per point, and entry i is x, y, z of point i |
| `AttributeTransfer.TransferredFrame` | contrib/IECoreHoudini/src/FromHoudiniGeometryConverter.cpp:96-160 | An existing entry other than "P" that no admitted domain writes is unchanged |
| `AttributeTransfer.TransferredLastWriter` | contrib/IECoreHoudini/src/FromHoudiniGeometryConverter.cpp:109-160 | The last writer of a name in an admitted domain ends up under that name, with the domain's interpolation and its values in the domain's element order. Last writer means no later attribute in its domain and no later admitted domain writes the name |
| `AttributeTransfer.TransferredDropsDomain` | contrib/IECoreHoudini/src/FromHoudiniGeometryConverter.cpp:109-138 | A domain that is not admitted writes no names, and the result is the same as if its dictionary were empty |
| `AttributeTransfer.TransferredConsistent` | contrib/IECoreHoudini/src/FromHoudiniGeometryConverter.cpp:107-160 | Suppose the old entries have the value counts their interpolations require, and the primitive expects one Vertex value per point. Then every entry of the result has the required count |
| `AttributeTransfer.TransferredVertexWinding` | contrib/IECoreHoudini/src/FromHoudiniGeometryConverter.cpp:138-159 | A vertex attribute that ends up under its name has one value per corner. Slot v of primitive i holds the attribute's value on corner n-1-v of a polygon, or corner v otherwise |
| `AttributeTransfer.PositionData` | contrib/IECoreHoudini/src/FromHoudiniGeometryConverter.cpp:96-105 | The position loop returns one entry per point, holding the first three position components in point order |
| `AttributeTransfer.TransferEach` | contrib/IECoreHoudini/src/FromHoudiniGeometryConverter.cpp:167-242 | The dictionary loop with its two skips leaves the map equal to TransferDomain of the old map |
| `AttributeTransfer.TransferDetailAttribs` | contrib/IECoreHoudini/src/FromHoudiniGeometryConverter.cpp:163-243 | Detail attributes are stored as single values with the given interpolation |
| `AttributeTransfer.TransferPointAttribs` | contrib/IECoreHoudini/src/FromHoudiniGeometryConverter.cpp:245-265 | Point attributes are stored with one value per point, in point order |
| `AttributeTransfer.TransferPrimitiveAttribs` | contrib/IECoreHoudini/src/FromHoudiniGeometryConverter.cpp:267-287 | Primitive attributes are stored with one value per primitive, in primitive order |
| `AttributeTransfer.TransferVertexAttribs` | contrib/IECoreHoudini/src/FromHoudiniGeometryConverter.cpp:289-309 | Vertex attributes are stored with one value per entry of the given vertex list |
| `AttributeTransfer.TransferAttribs` | contrib/IECoreHoudini/src/FromHoudiniGeometryConverter.cpp:88-161 | The primitive's new variable map is Transferred of its old map, whose properties are the lemmas above |
| `ConverterFactory.LessIsStrictOrder` | contrib/IECoreHoudini/src/FromHoudiniGeometryConverter.cpp:359-362 | The key ordering is irreflexive and transitive, and two keys are equivalent exactly when they are equal |
| `ConverterFactory.Insert` | contrib/IECoreHoudini/src/FromHoudiniGeometryConverter.cpp:336 | An insert adds the key, keeps an existing entry unchanged, and sets a new key to the creator |
| `ConverterFactory.Register` | contrib/IECoreHoudini/src/FromHoudiniGeometryConverter.cpp:333-342 | Registering adds the result type, and also the invalid type id when it is the default. No existing entry changes. A new key maps to the creator |
| `ConverterFactory.RegisterAllKeeps` | contrib/IECoreHoudini/src/FromHoudiniGeometryConverter.cpp:333-342 | Later registrations never remove or replace an entry |
| `ConverterFactory.RegisterAllKeys` | contrib/IECoreHoudini/src/FromHoudiniGeometryConverter.cpp:333-342 | After registrations, a key is present exactly when it was present before or some registration asked for it |
| `ConverterFactory.FirstRegistrationWins` | contrib/IECoreHoudini/src/FromHoudiniGeometryConverter.cpp:336-341 | A key holds the creator of the first registration that asked for it, for the result type itself and for the default |
| `ConverterFactory.ConverterRegistry.RegisterConverter` | contrib/IECoreHoudini/src/FromHoudiniGeometryConverter.cpp:333-342 | The static table becomes Register of the old table |
| `ConverterFactory.ConverterRegistry.Create` | contrib/IECoreHoudini/src/FromHoudiniGeometryConverter.cpp:315-326 | Returns a converter exactly when the exact key is present; the converter comes from that key's creator and is bound to the handle |
| `ConverterFactory.CreateAfterRegistrations` | contrib/IECoreHoudini/src/FromHoudiniGeometryConverter.cpp:315-342 | Starting from an empty table, create returns the converter of the first registration that asked for the type, or nothing when none asked. There is no fallback to the default for other types |
| `ConverterFactory.DoConversion` | contrib/IECoreHoudini/src/FromHoudiniGeometryConverter.cpp:75-86 | Gives no result exactly when the handle locks no geometry; otherwise gives the concrete converter's conversion of that geometry |

## Left out

- The two converter constructors, and `handle(sop)`, which reads the current time and cooks the SOP through the Houdini SDK, are not modelled. A handle is an input. For the same reason, the `create(sop, ...)` overload is not modelled: it is `create` applied to `handle(sop)`.
- The read lock taken by `doConversion` is a concurrency concern and is not modelled. `doPrimitiveConversion` is a virtual function of each concrete converter, so it is a parameter of `DoConversion`. The `operands` that `doConversion` passes on to it are a parameter too, of a type the model does not look into.
- `extractData` and `transferAttribData` are defined in a header that is not part of this model. The model assumes they use the same kind and size dispatch as the detail switch. It also assumes they copy each element's raw value unchanged, in the given element order.
- Positions and attribute values are floats and ints. They are modelled as raw 32-bit words and never interpreted, so there is no float arithmetic or precision.
- `TypeDispatch.Resolve`: does not model negative attribute sizes, because `getSize` reports a byte count. Such a size would convert to a huge unsigned value, never 1, 2 or 3, so it would resolve to nothing.
- The dynamic cast over linked-list nodes is modelled as a node that either is an attribute or is not.
- `variableSize` belongs to the concrete primitive type, so it is a function supplied when the `Primitive` is built.
- The static, lazily created table behind `typesToFns` is modelled as one registry object. Its one-time initialisation is not modelled.
