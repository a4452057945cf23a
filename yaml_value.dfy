/** The values `yaml.safe_load` hands back for a domain file: `None`, booleans,
    integers, floats, strings, lists and string-keyed dictionaries (kept in
    file order, as Python dictionaries are). */
module YamlValue {
  import opened Text
  import opened Dicts

  datatype Raw =
    | RNull
    | RBool(b: bool)
    | RInt(i: int)
    | RFloat(x: real)
    | RStr(s: string)
    | RList(items: seq<Raw>)
    | RMap(entries: seq<(string, Raw)>)

  /** `type(value).__name__`. */
  function TypeName(r: Raw): string {
    match r
    case RNull => "NoneType"
    case RBool(_) => "bool"
    case RInt(_) => "int"
    case RFloat(_) => "float"
    case RStr(_) => "str"
    case RList(_) => "list"
    case RMap(_) => "dict"
  }

  /** `str(value)` for the scalar values whose rendering is exact here; floats,
      lists and dictionaries are shown by their type name in angle brackets. */
  function Describe(r: Raw): string {
    match r
    case RNull => "None"
    case RBool(b) => if b then "True" else "False"
    case RInt(i) => IntToString(i)
    case RStr(s) => s
    case _ => "<" + TypeName(r) + ">"
  }

  /** No dictionary anywhere in the value repeats a key, which holds of every
      value `yaml.safe_load` returns. */
  predicate UniqueKeys(r: Raw)
    decreases r
  {
    match r
    case RList(items) => forall i :: 0 <= i < |items| ==> UniqueKeys(items[i])
    case RMap(es) => DistinctKeys(es) && forall i :: 0 <= i < |es| ==> UniqueKeys(es[i].1)
    case _ => true
  }
}
