/** Node identifiers and the standard identifiers (namespace 0 of OPC UA Part 6) that the
    modelled code compares against. */
module NodeIds {

  datatype NodeId =
    | Null
    | Numeric(ns: nat, number: nat)
    | Text(ns: nat, text: string)

  const ROOT_FOLDER := Numeric(0, 84)
  const NON_HIERARCHICAL_REFERENCES := Numeric(0, 32)
  const HIERARCHICAL_REFERENCES := Numeric(0, 33)
  const HAS_TYPE_DEFINITION := Numeric(0, 40)
  const AGGREGATES := Numeric(0, 44)
  const HAS_SUBTYPE := Numeric(0, 45)
  const HAS_PROPERTY := Numeric(0, 46)
  const PROPERTY_TYPE := Numeric(0, 68)

  datatype Option<+T> = None | Some(value: T)
}
