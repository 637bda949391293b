/** JSON values of request bodies and JavaScript's truthiness of them. */
module Json {

  /** A JSON value of a request body. */
  datatype JsValue =
    | JsNull
    | JsBool(b: bool)
    | JsNumber(n: int)
    | JsStr(s: string)
    | JsArray(items: seq<JsValue>)
    | JsObject(fields: map<string, JsValue>)

  /** JavaScript truthiness (`undefined`, a missing field, is falsy as well). */
  predicate Truthy(v: JsValue)
  {
    match v
    case JsNull => false
    case JsBool(b) => b
    case JsNumber(n) => n != 0
    case JsStr(s) => s != ""
    case JsArray(_) => true
    case JsObject(_) => true
  }
}
