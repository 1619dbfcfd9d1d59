/**
 * Values that cross the boundaries of the Eco-Farm application: JSON bodies,
 * database rows, HTTP responses, and the outcome of a database call.
 */
module Common {

  datatype Option<+T> = None | Some(value: T)

  /** A JSON value. Numbers are integers in this model. */
  datatype Json =
    | JNull
    | JBool(b: bool)
    | JNum(n: int)
    | JStr(s: string)
    | JArr(items: seq<Json>)
    | JObj(fields: map<string, Json>)

  /** A row of a query result, or a parsed JSON request body: name to value. */
  type Row = map<string, Json>

  /** Reading `obj.name` in JavaScript: a missing property reads as undefined (None). */
  function Get(row: Row, name: string): Option<Json>
  {
    if name in row then Some(row[name]) else None
  }

  /** The property of a JSON value, when the value is an object. */
  function Field(j: Json, name: string): Option<Json>
  {
    if j.JObj? then Get(j.fields, name) else None
  }

  /** JavaScript falsiness: undefined, null, false, 0 and "" are falsy. */
  predicate Falsy(v: Option<Json>)
  {
    match v
    case None => true
    case Some(j) => j == JNull || j == JBool(false) || j == JNum(0) || j == JStr("")
  }

  /**
   * An undefined value where a value is needed becomes null: the mysql
   * driver sends an undefined parameter as NULL, and a property read as
   * undefined is written as null in a JSON array.
   */
  function OrNull(v: Option<Json>): Json
  {
    if v.Some? then v.value else JNull
  }

  datatype Response = Response(status: nat, body: Json)

  /** The body `{ error: message }`. */
  function ErrorBody(message: string): Json
  {
    JObj(map["error" := JStr(message)])
  }

  /** The body `{ message: message }`. */
  function MessageBody(message: string): Json
  {
    JObj(map["message" := JStr(message)])
  }

  const DatabaseError := "Database error"

  /** What the database answers to one query: its result, or an error. */
  datatype DbOutcome<T> = DbOk(value: T) | DbFailed

  /** The result descriptor of an INSERT, UPDATE or DELETE. */
  datatype OkPacket = OkPacket(insertId: nat, affectedRows: nat)
}
