/**
 * POST /api/yields of backend/routes/yields.js: a required-field guard that
 * uses JavaScript falsiness, then one INSERT with the four fields in column
 * order.
 */
module YieldRoutes {
  import opened Common
  import opened Sql

  const YieldInsertSql: Statement :=
    [Literal("INSERT INTO yieldrecords (farmer_id, crop, yield_quantity, season) VALUES ("),
     Mark, Literal(", "), Mark, Literal(", "), Mark, Literal(", "), Mark, Literal(")")]

  const MissingFields := "Missing required fields"
  const YieldAdded := "Yield record added successfully"

  /** `!farmer_id || !crop || !yield_quantity || !season` on the request body. */
  predicate YieldIncomplete(body: Row)
  {
    Falsy(Get(body, "farmer_id")) || Falsy(Get(body, "crop"))
    || Falsy(Get(body, "yield_quantity")) || Falsy(Get(body, "season"))
  }

  /**
   * A body with a falsy field gets 400 and no statement; otherwise the four
   * fields are inserted in column order, a database error gives 500, and
   * success gives 201 with the new row's id as `yield_id`.
   */
  function PostYield(body: Row, outcome: DbOutcome<OkPacket>): (ex: Exchange)
    ensures YieldIncomplete(body) <==> ex.issued == []
    ensures YieldIncomplete(body) ==> ex.response == Response(400, ErrorBody(MissingFields))
    ensures !YieldIncomplete(body) ==>
              && ex.issued == [Query(YieldInsertSql, [body["farmer_id"], body["crop"], body["yield_quantity"], body["season"]])]
              && WellBound(ex.issued[0])
    ensures !YieldIncomplete(body) && outcome.DbFailed? ==> ex.response == Response(500, ErrorBody(DatabaseError))
    ensures !YieldIncomplete(body) && outcome.DbOk? ==>
              ex.response == Response(201, JObj(map["message" := JStr(YieldAdded), "yield_id" := JNum(outcome.value.insertId)]))
  {
    if YieldIncomplete(body) then
      Exchange([], Response(400, ErrorBody(MissingFields)))
    else
      var params := [body["farmer_id"], body["crop"], body["yield_quantity"], body["season"]];
      var response :=
        match outcome
        case DbFailed => Response(500, ErrorBody(DatabaseError))
        case DbOk(packet) =>
          Response(201, JObj(map["message" := JStr(YieldAdded), "yield_id" := JNum(packet.insertId)]));
      InsertMarks();
      Exchange([Query(YieldInsertSql, params)], response)
  }

  /** The INSERT has one mark per column. */
  lemma InsertMarks()
    ensures Marks(YieldInsertSql) == 4
  {
  }

  /**
   * Because the guard tests falsiness, a quantity of 0 or "" is refused as
   * missing and nothing reaches the database.
   */
  lemma FalsyQuantityRejected(body: Row, outcome: DbOutcome<OkPacket>)
    requires Get(body, "yield_quantity") == Some(JNum(0)) || Get(body, "yield_quantity") == Some(JStr(""))
    ensures PostYield(body, outcome) == Exchange([], Response(400, ErrorBody(MissingFields)))
  {
  }

  /** The string "0" is truthy, so it passes the guard and is inserted as given. */
  lemma StringZeroAccepted(body: Row, outcome: DbOutcome<OkPacket>)
    requires Get(body, "yield_quantity") == Some(JStr("0"))
    requires !Falsy(Get(body, "farmer_id")) && !Falsy(Get(body, "crop")) && !Falsy(Get(body, "season"))
    ensures |PostYield(body, outcome).issued| == 1
    ensures PostYield(body, outcome).issued[0].params[2] == JStr("0")
  {
  }

  /** Whatever the database answers, an accepted body issues exactly the same INSERT. */
  lemma InsertIndependentOfOutcome(body: Row, a: DbOutcome<OkPacket>, b: DbOutcome<OkPacket>)
    ensures PostYield(body, a).issued == PostYield(body, b).issued
  {
  }
}
