/** The decoded contents of a configuration file, with Python's truthiness,
    and the `or {}` step every text-format reader applies to a decoder result. */
module ConfigValues {

  /** What the YAML, JSON, TOML and INI decoders hand back. Mappings have
      string keys; dates and times (YAML and TOML) are opaque and always true. */
  datatype Value =
    | Null
    | Bool(b: bool)
    | Int(i: int)
    | Float(x: real)
    | Str(s: string)
    | List(items: seq<Value>)
    | Dict(entries: map<string, Value>)
    | Timestamp(text: string)

  const EMPTY_DICT: Value := Dict(map[])

  /** Python's `bool(v)`: None, False, zero, and empty strings, lists and dicts
      are false; everything else is true. */
  predicate Truthy(v: Value)
  {
    match v
    case Null => false
    case Bool(b) => b
    case Int(i) => i != 0
    case Float(x) => x != 0.0
    case Str(s) => s != ""
    case List(items) => items != []
    case Dict(entries) => entries != map[]
    case Timestamp(_) => true
  }

  /** Python's `v or {}`. */
  function OrEmpty(v: Value): Value
  {
    if Truthy(v) then v else EMPTY_DICT
  }

  /** A reader result: true, or else exactly the empty mapping. */
  predicate Normalised(v: Value)
  {
    Truthy(v) || v == EMPTY_DICT
  }

  /** `v or {}` always yields a normalised value, leaves a value unchanged
      exactly when it is already normalised, and otherwise yields `{}`. */
  lemma OrEmptyNormalises(v: Value)
    ensures Normalised(OrEmpty(v))
    ensures OrEmpty(v) == v <==> Normalised(v)
    ensures !Normalised(v) ==> OrEmpty(v) == EMPTY_DICT
  {
  }

  /** A falsy non-mapping top level (null for an empty document, `0`, `""`,
      `[]`, `false`) becomes `{}`, while a non-empty list passes through. */
  lemma OrEmptyKeepsNonMappings(xs: seq<Value>)
    ensures OrEmpty(Null) == EMPTY_DICT && OrEmpty(Int(0)) == EMPTY_DICT
    ensures OrEmpty(Str("")) == EMPTY_DICT && OrEmpty(Bool(false)) == EMPTY_DICT
    ensures OrEmpty(List([])) == EMPTY_DICT
    ensures xs != [] ==> OrEmpty(List(xs)) == List(xs)
  {
  }
}
