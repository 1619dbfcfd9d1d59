/**
 * The request handlers of backend/server.js that decide something: the
 * knowledge-base list query builder, knowledge-base create / get-by-id /
 * delete, the yield-record delete, the DISTINCT column endpoints and the
 * dashboard statistics merge. The database is an input: each handler gets
 * the answer to the query it issues.
 */
module Server {
  import opened Common
  import opened Sql
  import opened Text

  /* ---------- GET /api/knowledge-base ---------- */

  const ListBase: Statement := [Literal("SELECT * FROM knowledge_base WHERE 1=1")]
  const CategoryClause: Statement := [Literal(" AND category = "), Mark]
  const SearchClause: Statement :=
    [Literal(" AND (title LIKE "), Mark, Literal(" OR content LIKE "), Mark, Literal(" OR tags LIKE "), Mark, Literal(")")]
  const ListOrder: Statement := [Literal(" ORDER BY created_at DESC")]

  /** `category && category !== 'all'`: a query string value that is present, non-empty and not 'all'. */
  predicate FiltersCategory(category: Option<string>)
  {
    category.Some? && category.value != "" && category.value != "all"
  }

  /** `if (search)`: a query string value that is present and non-empty. */
  predicate FiltersSearch(search: Option<string>)
  {
    search.Some? && search.value != ""
  }

  /** The LIKE pattern `%${search}%`. */
  function SearchPattern(search: string): string
  {
    "%" + search + "%"
  }

  /**
   * The parameters of the list statement, in mark order: the category when
   * it filters, then the search pattern three times when the search does.
   */
  function ListParams(category: Option<string>, search: Option<string>): (params: seq<string>)
    ensures |params| == (if FiltersCategory(category) then 1 else 0) + (if FiltersSearch(search) then 3 else 0)
    ensures FiltersCategory(category) ==> params[0] == category.value
    ensures FiltersSearch(search) ==>
              forall i :: |params| - 3 <= i < |params| ==> params[i] == SearchPattern(search.value)
  {
    (if FiltersCategory(category) then [category.value] else [])
    + (if FiltersSearch(search) then [SearchPattern(search.value), SearchPattern(search.value), SearchPattern(search.value)] else [])
  }

  /**
   * Builds the list statement step by step from the optional `category` and
   * `search` query values. Every placeholder gets exactly one parameter, and
   * the `?` characters of the statement text are exactly as many as the
   * parameters; the statement is the base, then the category clause, then
   * the search clause, then the ordering, each clause present exactly when
   * its filter is.
   */
  method BuildListQuery(category: Option<string>, search: Option<string>)
    returns (sql: Statement, params: seq<string>)
    ensures Marks(sql) == |params|
    ensures Occurrences(Render(sql), '?') == |params|
    ensures sql == ListBase
                   + (if FiltersCategory(category) then CategoryClause else [])
                   + (if FiltersSearch(search) then SearchClause else [])
                   + ListOrder
    ensures params == ListParams(category, search)
  {
    ClauseMarks();
    ClausesLiteral();
    sql := ListBase;
    params := [];
    if FiltersCategory(category) {
      sql, params := AppendClause(sql, params, CategoryClause, [category.value]);
    }
    assert sql == ListBase + (if FiltersCategory(category) then CategoryClause else []);
    assert params == if FiltersCategory(category) then [category.value] else [];
    if FiltersSearch(search) {
      var searchTerm := SearchPattern(search.value);
      sql, params := AppendClause(sql, params, SearchClause, [searchTerm, searchTerm, searchTerm]);
    }
    assert params == ListParams(category, search);
    sql, params := AppendClause(sql, params, ListOrder, []);
    assert params == ListParams(category, search);
    RenderedPlaceholders(sql);
  }

  /**
   * One `sql += clause` with its `params.push(...)`: a clause with as many
   * marks as pushed values keeps every mark bound and the text literal.
   */
  method AppendClause(sql: Statement, params: seq<string>, clause: Statement, values: seq<string>)
    returns (sql': Statement, params': seq<string>)
    requires Marks(sql) == |params| && Marks(clause) == |values|
    requires LiteralText(sql) && LiteralText(clause)
    ensures sql' == sql + clause && params' == params + values
    ensures Marks(sql') == |params'| && LiteralText(sql')
  {
    MarksConcat(sql, clause);
    LiteralTextConcat(sql, clause);
    sql' := sql + clause;
    params' := params + values;
  }

  /** The marks of each clause of the list statement. */
  lemma ClauseMarks()
    ensures Marks(ListBase) == 0 && Marks(CategoryClause) == 1
    ensures Marks(SearchClause) == 3 && Marks(ListOrder) == 0
  {
  }

  /** The clauses of the list statement hold no `?` in their text. */
  lemma ClausesLiteral()
    ensures LiteralText(ListBase) && LiteralText(CategoryClause)
    ensures LiteralText(SearchClause) && LiteralText(ListOrder)
  {
    BaseLiteral();
    CategoryLiteral();
    SearchLiteral();
    OrderLiteral();
  }

  lemma BaseLiteral()
    ensures LiteralText(ListBase)
  {
  }

  lemma CategoryLiteral()
    ensures LiteralText(CategoryClause)
  {
  }

  lemma SearchLiteral()
    ensures LiteralText(SearchClause)
  {
  }

  lemma OrderLiteral()
    ensures LiteralText(ListOrder)
  {
  }

  /**
   * The list handler: one statement, the list statement bound to its
   * parameters as strings, answered with the rows or a 500.
   */
  method ListArticles(category: Option<string>, search: Option<string>, outcome: DbOutcome<seq<Row>>)
    returns (ex: Exchange)
    ensures |ex.issued| == 1 && WellBound(ex.issued[0])
    ensures ex.issued[0].statement == ListBase
                                      + (if FiltersCategory(category) then CategoryClause else [])
                                      + (if FiltersSearch(search) then SearchClause else [])
                                      + ListOrder
    ensures ex.issued[0].params ==
              (if FiltersCategory(category) then [JStr(category.value)] else [])
              + (if FiltersSearch(search)
                 then [JStr(SearchPattern(search.value)), JStr(SearchPattern(search.value)), JStr(SearchPattern(search.value))]
                 else [])
    ensures outcome.DbFailed? ==> ex.response == Response(500, ErrorBody(DatabaseError))
    ensures outcome.DbOk? ==>
              ex.response == Response(200, JArr(seq(|outcome.value|, i requires 0 <= i < |outcome.value| => JObj(outcome.value[i]))))
  {
    var sql, params := BuildListQuery(category, search);
    var bound := seq(|params|, i requires 0 <= i < |params| => JStr(params[i]));
    var response :=
      if outcome.DbFailed? then Response(500, ErrorBody(DatabaseError))
      else Response(200, RowsBody(outcome.value));
    ex := Exchange([Query(sql, bound)], response);
  }

  /** A result set as a JSON array of objects, in order. */
  function RowsBody(rows: seq<Row>): Json
  {
    JArr(seq(|rows|, i requires 0 <= i < |rows| => JObj(rows[i])))
  }

  /* ---------- GET /api/knowledge-base/:id ---------- */

  const ArticleByIdSql: Statement := [Literal("SELECT * FROM knowledge_base WHERE id = "), Mark]
  const ArticleNotFound := "Article not found"

  /** 404 exactly when no row comes back, otherwise exactly the first row. */
  function GetArticle(id: string, outcome: DbOutcome<seq<Row>>): (ex: Exchange)
    ensures ex.issued == [Query(ArticleByIdSql, [JStr(id)])] && WellBound(ex.issued[0])
    ensures ex.response.status == 500 <==> outcome.DbFailed?
    ensures ex.response.status == 404 <==> outcome.DbOk? && |outcome.value| == 0
    ensures ex.response.status == 404 ==> ex.response.body == ErrorBody(ArticleNotFound)
    ensures ex.response.status == 200 <==> outcome.DbOk? && |outcome.value| > 0
    ensures ex.response.status == 200 ==> ex.response.body == JObj(outcome.value[0])
  {
    var response :=
      match outcome
      case DbFailed => Response(500, ErrorBody(DatabaseError))
      case DbOk(rows) =>
        if |rows| == 0 then Response(404, ErrorBody(ArticleNotFound))
        else Response(200, JObj(rows[0]));
    Exchange([Query(ArticleByIdSql, [JStr(id)])], response)
  }

  /* ---------- POST /api/knowledge-base ---------- */

  const ArticleInsertSql: Statement :=
    [Literal("INSERT INTO knowledge_base (title, content, category, tags, author) VALUES ("),
     Mark, Literal(", "), Mark, Literal(", "), Mark, Literal(", "), Mark, Literal(", "), Mark, Literal(")")]
  const ArticleFieldsRequired := "Title, content, and category are required"
  const ArticleCreated := "Article created successfully!"

  /** `!title || !content || !category` on the request body. */
  predicate ArticleIncomplete(body: Row)
  {
    Falsy(Get(body, "title")) || Falsy(Get(body, "content")) || Falsy(Get(body, "category"))
  }

  /**
   * Rejects a body with a falsy title, content or category with 400 before
   * any statement; otherwise inserts the five fields in column order.
   */
  function CreateArticle(body: Row, outcome: DbOutcome<OkPacket>): (ex: Exchange)
    ensures ArticleIncomplete(body) <==> ex.issued == []
    ensures ArticleIncomplete(body) ==> ex.response == Response(400, ErrorBody(ArticleFieldsRequired))
    ensures !ArticleIncomplete(body) ==>
              && ex.issued == [Query(ArticleInsertSql, [body["title"], body["content"], body["category"],
                                                        OrNull(Get(body, "tags")), OrNull(Get(body, "author"))])]
              && WellBound(ex.issued[0])
    ensures !ArticleIncomplete(body) && outcome.DbFailed? ==> ex.response == Response(500, ErrorBody(DatabaseError))
    ensures !ArticleIncomplete(body) && outcome.DbOk? ==>
              ex.response == Response(200, JObj(map["message" := JStr(ArticleCreated), "id" := JNum(outcome.value.insertId)]))
  {
    if ArticleIncomplete(body) then
      Exchange([], Response(400, ErrorBody(ArticleFieldsRequired)))
    else
      var params := [body["title"], body["content"], body["category"],
                     OrNull(Get(body, "tags")), OrNull(Get(body, "author"))];
      var response :=
        match outcome
        case DbFailed => Response(500, ErrorBody(DatabaseError))
        case DbOk(packet) =>
          Response(200, JObj(map["message" := JStr(ArticleCreated), "id" := JNum(packet.insertId)]));
      ArticleInsertMarks();
      Exchange([Query(ArticleInsertSql, params)], response)
  }

  /** The INSERT has one mark per column. */
  lemma ArticleInsertMarks()
    ensures Marks(ArticleInsertSql) == 5
  {
  }

  /* ---------- DELETE /api/yield-records/:id and /api/knowledge-base/:id ---------- */

  /**
   * A delete answers with its success message whenever the statement does not
   * fail, whatever number of rows it affected.
   */
  function DeleteById(sql: Statement, id: string, success: string, outcome: DbOutcome<OkPacket>): (ex: Exchange)
    requires Marks(sql) == 1
    ensures ex.issued == [Query(sql, [JStr(id)])] && WellBound(ex.issued[0])
    ensures outcome.DbOk? ==> ex.response == Response(200, MessageBody(success))
    ensures outcome.DbFailed? ==> ex.response == Response(500, ErrorBody(DatabaseError))
  {
    var response := if outcome.DbOk? then Response(200, MessageBody(success))
                    else Response(500, ErrorBody(DatabaseError));
    Exchange([Query(sql, [JStr(id)])], response)
  }

  function DeleteYieldRecord(id: string, outcome: DbOutcome<OkPacket>): (ex: Exchange)
    ensures outcome.DbOk? ==> ex.response == Response(200, MessageBody("Yield record deleted successfully!"))
    ensures outcome.DbFailed? ==> ex.response.status == 500
  {
    DeleteById([Literal("DELETE FROM yield_records WHERE id = "), Mark], id, "Yield record deleted successfully!", outcome)
  }

  function DeleteArticle(id: string, outcome: DbOutcome<OkPacket>): (ex: Exchange)
    ensures outcome.DbOk? ==> ex.response == Response(200, MessageBody("Article deleted successfully!"))
    ensures outcome.DbFailed? ==> ex.response.status == 500
  {
    DeleteById([Literal("DELETE FROM knowledge_base WHERE id = "), Mark], id, "Article deleted successfully!", outcome)
  }

  /** Two deletes that both succeed answer alike, however many rows each removed. */
  lemma DeleteIgnoresAffectedRows(id: string, a: OkPacket, b: OkPacket)
    ensures DeleteArticle(id, DbOk(a)).response == DeleteArticle(id, DbOk(b)).response
    ensures DeleteYieldRecord(id, DbOk(a)).response == DeleteYieldRecord(id, DbOk(b)).response
  {
  }

  /* ---------- GET /api/soil-types, /api/crop-types, /api/knowledge-base/categories ---------- */

  /**
   * `results.map(row => row[column])`: one value per row, in row order; a row
   * without the column gives undefined, which JSON renders as null.
   */
  function ColumnValues(rows: seq<Row>, column: string): (values: seq<Json>)
    ensures |values| == |rows|
    ensures forall i :: 0 <= i < |rows| && column in rows[i] ==> values[i] == rows[i][column]
    ensures forall i :: 0 <= i < |rows| && column !in rows[i] ==> values[i] == JNull
    decreases |rows|
  {
    if rows == [] then []
    else [OrNull(Get(rows[0], column))] + ColumnValues(rows[1..], column)
  }

  /** A DISTINCT endpoint: the column's values as a JSON array, or a 500. */
  function DistinctValues(sql: Statement, column: string, outcome: DbOutcome<seq<Row>>): (ex: Exchange)
    ensures ex.issued == [Query(sql, [])]
    ensures outcome.DbFailed? ==> ex.response == Response(500, ErrorBody(DatabaseError))
    ensures outcome.DbOk? ==> ex.response.status == 200 && ex.response.body.JArr?
                              && |ex.response.body.items| == |outcome.value|
  {
    var response :=
      match outcome
      case DbFailed => Response(500, ErrorBody(DatabaseError))
      case DbOk(rows) => Response(200, JArr(ColumnValues(rows, column)));
    Exchange([Query(sql, [])], response)
  }

  function SoilTypes(outcome: DbOutcome<seq<Row>>): (ex: Exchange)
    ensures outcome.DbOk? ==> ex.response.body == JArr(ColumnValues(outcome.value, "soil_type"))
  {
    DistinctValues([Literal("SELECT DISTINCT soil_type FROM croprecommendations ORDER BY soil_type")], "soil_type", outcome)
  }

  function CropTypes(outcome: DbOutcome<seq<Row>>): (ex: Exchange)
    ensures outcome.DbOk? ==> ex.response.body == JArr(ColumnValues(outcome.value, "crop_type"))
  {
    DistinctValues([Literal("SELECT DISTINCT crop_type FROM fertilizer_recommendations ORDER BY crop_type")], "crop_type", outcome)
  }

  function ArticleCategories(outcome: DbOutcome<seq<Row>>): (ex: Exchange)
    ensures outcome.DbOk? ==> ex.response.body == JArr(ColumnValues(outcome.value, "category"))
  {
    DistinctValues([Literal("SELECT DISTINCT category FROM knowledge_base ORDER BY category")], "category", outcome)
  }

  /* ---------- GET /api/dashboard/stats ---------- */

  const CountsSql: Statement := [Literal("SELECT (SELECT COUNT(*) FROM croprecommendations) as totalCrops, (SELECT COUNT(*) FROM fertilizer_recommendations) as totalFertilizers, (SELECT COUNT(*) FROM yield_records) as totalYieldRecords")]
  const RecentYieldsSql: Statement :=
    [Literal("SELECT crop_type, yield_amount, yield_unit FROM yield_records ORDER BY harvest_date DESC LIMIT 5")]

  /**
   * `{ ...results[0], recentYields: yields }`: every column of the first
   * counts row (none when there is no row), then `recentYields`, which wins
   * over a column of the same name.
   */
  function MergeStats(counts: seq<Row>, recentRows: seq<Row>): (body: map<string, Json>)
    ensures body.Keys == (if counts == [] then {} else counts[0].Keys) + {"recentYields"}
    ensures body["recentYields"] == RowsBody(recentRows)
    ensures forall k :: k in body && k != "recentYields" ==> body[k] == counts[0][k]
  {
    var spread := if counts == [] then map[] else counts[0];
    spread["recentYields" := RowsBody(recentRows)]
  }

  /**
   * The counts statement first; the recent-yields statement only once it has
   * succeeded; 500 as soon as either fails, otherwise the merged object.
   */
  function DashboardStats(counts: DbOutcome<seq<Row>>, recentRows: DbOutcome<seq<Row>>): (ex: Exchange)
    ensures ex.issued == if counts.DbOk? then [Query(CountsSql, []), Query(RecentYieldsSql, [])]
                         else [Query(CountsSql, [])]
    ensures ex.response.status == 200 <==> counts.DbOk? && recentRows.DbOk?
    ensures ex.response.status != 200 ==> ex.response == Response(500, ErrorBody(DatabaseError))
    ensures ex.response.status == 200 ==> ex.response.body == JObj(MergeStats(counts.value, recentRows.value))
  {
    match counts
    case DbFailed => Exchange([Query(CountsSql, [])], Response(500, ErrorBody(DatabaseError)))
    case DbOk(rows) =>
      var issued := [Query(CountsSql, []), Query(RecentYieldsSql, [])];
      match recentRows
      case DbFailed => Exchange(issued, Response(500, ErrorBody(DatabaseError)))
      case DbOk(recent) => Exchange(issued, Response(200, JObj(MergeStats(rows, recent))))
  }
}
