/**
  The host framework's thing-model types that the driver fills in
  (NewLife.IoT.ThingSpecification), reduced to the fields the driver sets.
  They are plain values here: the driver builds each one and hands it on.
 */
module ThingSpecification {
  import opened Wrappers

  /** DataSpecs: the value's length and its display unit. */
  datatype DataSpecs = DataSpecs(length: int, unit: Option<string>, unitName: Option<string>)

  /** TypeSpec: the value type's name ("int", ...) and its optional DataSpecs. */
  datatype TypeSpec = TypeSpec(typeName: string, specs: Option<DataSpecs>)

  /** PropertySpec: one point of the thing model. */
  datatype PropertySpec = PropertySpec(
    id: string,
    name: string,
    address: Option<string>,
    dataType: Option<TypeSpec>)

  /** ThingSpec: the discovered model, its Properties array. */
  datatype ThingSpec = ThingSpec(properties: seq<PropertySpec>)
}
