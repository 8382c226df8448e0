/** JSON values with the accessors of cpprestsdk that the Shelly module uses. An accessor that throws
    json_exception returns Failure. */
module Json {
  import opened Wrappers

  datatype Json =
    | Null
    | Bool(b: bool)
    | Number(x: real)
    | String(s: string)
    | Array(items: seq<Json>)
    | Object(fields: map<string, Json>)

  predicate HasField(j: Json, key: string) {
    j.Object? && key in j.fields
  }

  function At(j: Json, key: string): Result<Json> {
    if HasField(j, key) then Success(j.fields[key]) else Failure
  }

  function AsDouble(j: Json): Result<real> {
    if j.Number? then Success(j.x) else Failure
  }

  /** Truncates toward zero. */
  function AsInteger(j: Json): Result<int> {
    if j.Number? then Success(Truncate(j.x)) else Failure
  }

  function Truncate(x: real): int {
    if x >= 0.0 then x.Floor else -((-x).Floor)
  }

  function AsString(j: Json): Result<string> {
    if j.String? then Success(j.s) else Failure
  }
}
