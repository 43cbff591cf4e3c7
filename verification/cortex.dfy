/**
  The destination side of the conversion: Cortex's typed data and the
  primitive whose name-keyed variable map the transfer fills.
 */
module Cortex {
  import opened Houdini

  /** PrimitiveVariable::Interpolation. */
  datatype Interpolation = Invalid | Constant | Uniform | Vertex | Varying | FaceVarying

  /** The element types the converter can produce: float and int scalars, 2- and 3-vectors. */
  datatype ElementType = FloatType | V2fType | V3fType | IntType | V2iType | V3iType

  /**
    Typed data: a single value (FloatData, V3iData, ...) for the detail domain,
    or one value per element (FloatVectorData, V3iVectorData, ...) otherwise.
   */
  datatype Data =
    | SimpleData(elementType: ElementType, value: Blob)
    | VectorData(elementType: ElementType, values: seq<Blob>)

  datatype PrimitiveVariable = PrimitiveVariable(interpolation: Interpolation, data: Data)

  /**
    The IECore::Primitive being built. Its topology is fixed before the
    transfer, so how many values a variable of each interpolation needs
    (`variableSize`) is a given function; only `variables` changes.
   */
  class Primitive {
    var variables: map<string, PrimitiveVariable>
    const variableSize: Interpolation -> nat

    constructor (variableSize: Interpolation -> nat)
      ensures variables == map[]
      ensures this.variableSize == variableSize
    {
      variables := map[];
      this.variableSize := variableSize;
    }
  }
}
