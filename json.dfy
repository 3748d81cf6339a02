/**
 * JSON values as Python's `json` module hands them to the pipeline, and the
 * library calls the pipeline makes on them. `json.dumps`, `json.loads` and
 * Python's `str()` of a non-string value are foreign code: they are carried
 * as function-valued fields of `Lib`, so every statement about them holds
 * for whatever those functions are.
 */
module Json {
  import opened Wrappers

  /** Python's int and float are both `Num`; only their rendering could tell them apart. */
  datatype Json =
    | JNull
    | JBool(b: bool)
    | JNum(n: real)
    | JStr(s: string)
    | JArr(items: seq<Json>)
    | JObj(fields: map<string, Json>)

  datatype Lib = Lib(
    dumps: Json -> string,          // json.dumps(v)
    dumpsIndented: Json -> string,  // json.dumps(v, indent=2)
    str: Json -> string,            // str(v) for a value that is not a string
    loads: string -> Option<Json>   // json.loads(s), None where it raises
  )

  /** Python truthiness: null, false, zero and empty containers are falsy. */
  predicate Truthy(v: Json) {
    match v
    case JNull => false
    case JBool(b) => b
    case JNum(n) => n != 0.0
    case JStr(s) => s != ""
    case JArr(items) => items != []
    case JObj(fields) => fields != map[]
  }

  /** `str(v)`, which is the identity on strings; also what an f-string inserts. */
  function ToStr(v: Json, lib: Lib): string {
    if v.JStr? then v.s else lib.str(v)
  }

  /** `d.get(key, default)` on a dict. */
  function GetOr(fields: map<string, Json>, key: string, default: Json): Json {
    if key in fields then fields[key] else default
  }

  /** `d.get(key)`, whose default is None. */
  function Get(fields: map<string, Json>, key: string): Json {
    GetOr(fields, key, JNull)
  }

  /** `isinstance(v, (dict, list))` */
  predicate IsContainer(v: Json) {
    v.JObj? || v.JArr?
  }
}
