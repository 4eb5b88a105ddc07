/** Decoded JSON values as `json.loads` and `Response.json()` hand them to
    nh_claim.py, with the two Python operations the script applies to them:
    `dict.get` and the membership test `needle in value`. */
module Json {
  import opened Wrappers
  import Text

  datatype Value =
    | Null
    | Bool(b: bool)
    | Number(n: int)
    | Str(s: string)
    | Array(items: seq<Value>)
    | Object(fields: map<string, Value>)

  /** The Python type name of a decoded value, as exception texts print it. */
  function TypeName(v: Value): string {
    match v
    case Null => "NoneType"
    case Bool(_) => "bool"
    case Number(_) => "int"
    case Str(_) => "str"
    case Array(_) => "list"
    case Object(_) => "dict"
  }

  /** `d.get(key)`: the value under `key`, or None when the key is absent. */
  function Get(fields: map<string, Value>, key: string): Value {
    if key in fields then fields[key] else Null
  }

  /** Python's `needle in container` for a string needle: a substring test on a
      string, element equality on a list, key membership on a dict, and a
      TypeError on anything that is not iterable. */
  function In(needle: string, container: Value): Result<bool> {
    match container
    case Str(s) => Ok(Text.Contains(s, needle))
    case Array(items) => Ok(Str(needle) in items)
    case Object(fields) => Ok(needle in fields)
    case _ => Err("argument of type '" + TypeName(container) + "' is not iterable")
  }

  /** `needle in None` raises the TypeError naming NoneType. */
  lemma InNone(needle: string)
    ensures In(needle, Null) == Err("argument of type 'NoneType' is not iterable")
  {
    assert "argument of type '" + "NoneType" == "argument of type 'NoneType";
  }

  /** `needle in n` on a number raises the TypeError naming int. */
  lemma InNumber(needle: string, n: int)
    ensures In(needle, Number(n)) == Err("argument of type 'int' is not iterable")
  {
    assert "argument of type '" + "int" == "argument of type 'int";
  }

  /** `needle in b` on a boolean raises the TypeError naming bool. */
  lemma InBool(needle: string, b: bool)
    ensures In(needle, Bool(b)) == Err("argument of type 'bool' is not iterable")
  {
    assert "argument of type '" + "bool" == "argument of type 'bool";
  }
}
