/**
 * The PHP values the scenario generator handles: template variables, tag filters and event or
 * command payloads.  An array is keyed by strings here (PHP stores a decimal key such as "3" as
 * the integer 3, and looks it up the same way either way); `ArrayEntry` keeps the key kind where
 * list-ness is checked.
 */
module PhpValues {
  import opened Wrappers
  import opened Strings

  datatype PhpValue =
    | Null
    | Bool(b: bool)
    | Int(i: int)
    | Float(text: string)
    | Str(s: string)
    | Arr(entries: map<string, PhpValue>)
    | Obj(className: string, properties: map<string, PhpValue>, toStringResult: Option<string>)

  datatype ArrayKey = IntKey(i: int) | StringKey(s: string)

  /** One `key => value` pair of an array, in insertion order. */
  datatype ArrayEntry = ArrayEntry(key: ArrayKey, value: PhpValue)

  /** `get_debug_type($v)`. */
  function DebugType(v: PhpValue): string {
    match v
    case Null => "null"
    case Bool(_) => "bool"
    case Int(_) => "int"
    case Float(_) => "float"
    case Str(_) => "string"
    case Arr(_) => "array"
    case Obj(c, _, _) => c
  }

  /** The type name the assertion library prints for a rejected value: the class of an object, else `gettype($v)`. */
  function GetType(v: PhpValue): string {
    match v
    case Null => "NULL"
    case Bool(_) => "boolean"
    case Int(_) => "integer"
    case Float(_) => "double"
    case Str(_) => "string"
    case Arr(_) => "array"
    case Obj(c, _, _) => c
  }

  /** `array_is_list`: the keys are 0, 1, 2, … in order. */
  predicate IsList(entries: seq<ArrayEntry>) {
    forall k :: 0 <= k < |entries| ==> entries[k].key == IntKey(k)
  }

  /**
   * `(string) $v`.  An object without `__toString` cannot be converted; an array becomes "Array"
   * (PHP also raises a warning, which is not modelled).
   */
  function CastToString(v: PhpValue): (r: Result<string, string>)
    ensures r.Err? <==> v.Obj? && v.toStringResult.None?
    ensures v.Str? ==> r == Ok(v.s)
    ensures v.Null? ==> r == Ok("")
  {
    match v
    case Null => Ok("")
    case Bool(b) => Ok(if b then "1" else "")
    case Int(i) => Ok(IntToString(i))
    case Float(t) => Ok(t)
    case Str(s) => Ok(s)
    case Arr(_) => Ok("Array")
    case Obj(c, _, s) =>
      if s.Some? then Ok(s.value) else Err("Object of class " + c + " could not be converted to string")
  }
}
