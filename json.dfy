/** Decoded JSON values, as `JSON.parse` produces them. */
module Json {

  /** A JSON value. Numbers are kept as opaque reals: the pipeline only passes
      them through or checks that they are numbers. Object members are a map,
      since no part of the pipeline depends on member order. */
  datatype Json =
    | JNull
    | JBool(b: bool)
    | JNum(n: real)
    | JStr(s: string)
    | JArr(items: seq<Json>)
    | JObj(fields: map<string, Json>)
}
