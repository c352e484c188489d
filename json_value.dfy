/**
  Decoded JSON values as the webhook handler sees them after the request body
  has been parsed into Python objects, together with the few pieces of Python
  object behaviour the handler relies on: truthiness, `dict.get`, `a or b`,
  and the message of the AttributeError raised when `.get` or `.strip` is
  called on a value of the wrong type.
*/
module JsonValue {
  import opened PyStr

  /** A JSON value. Numbers are integers only; floating point is not modelled. */
  datatype Json =
    | JNull
    | JBool(b: bool)
    | JInt(i: int)
    | JStr(s: string)
    | JList(items: seq<Json>)
    | JObject(fields: map<string, Json>)

  /** Python truthiness: None, False, 0, "", [] and {} are false, everything else true. */
  predicate Truthy(j: Json) {
    match j
    case JNull => false
    case JBool(b) => b
    case JInt(i) => i != 0
    case JStr(s) => s != ""
    case JList(xs) => xs != []
    case JObject(m) => m != map[]
  }

  /** The falsy values are exactly the six "empty" ones. */
  lemma FalsyValues(j: Json)
    ensures !Truthy(j) <==> j in {JNull, JBool(false), JInt(0), JStr(""), JList([]), JObject(map[])}
  {
  }

  /** `d.get(key, default)` on a dictionary. */
  function Get(d: map<string, Json>, key: string, default: Json): Json {
    if key in d then d[key] else default
  }

  /**
    `get` after storing or deleting a key: the stored key reads as the stored
    value, a deleted key as the default, and every other key as before.
  */
  lemma GetAfterUpdate(d: map<string, Json>, key: string, v: Json, other: string, default: Json)
    ensures Get(d[key := v], key, default) == v
    ensures Get(d - {key}, key, default) == default
    ensures other != key ==> Get(d[key := v], other, default) == Get(d, other, default)
    ensures other != key ==> Get(d - {key}, other, default) == Get(d, other, default)
  {
  }

  /** Python's `a or b`: the first operand when it is truthy, otherwise the second. */
  function Or(a: Json, b: Json): (r: Json)
    ensures Truthy(r) <==> Truthy(a) || Truthy(b)
    ensures Truthy(a) ==> r == a
    ensures !Truthy(a) ==> r == b
  {
    if Truthy(a) then a else b
  }

  /** The Python type name of the object a JSON value decodes to. */
  function TypeName(j: Json): (name: string)
    ensures name != [] && '\'' !in name
  {
    match j
    case JNull => "NoneType"
    case JBool(_) => "bool"
    case JInt(_) => "int"
    case JStr(_) => "str"
    case JList(_) => "list"
    case JObject(_) => "dict"
  }

  /** `str(e)` for the AttributeError raised by `j.attr` when `j` has no such attribute. */
  function AttributeError(j: Json, attr: string): string {
    "'" + (TypeName(j) + ("' object has no attribute '" + (attr + "'")))
  }

  /** The message of an AttributeError tells exactly which type the value has. */
  lemma AttributeErrorNamesType(a: Json, b: Json, attr: string)
    ensures AttributeError(a, attr) == AttributeError(b, attr) <==> TypeName(a) == TypeName(b)
  {
    if AttributeError(a, attr) == AttributeError(b, attr) {
      var rest := "' object has no attribute '" + (attr + "'");
      DropPrefix("'", TypeName(a) + rest, TypeName(b) + rest);
      SplitAt('\'', TypeName(a), rest, TypeName(b), rest);
    }
  }
}
