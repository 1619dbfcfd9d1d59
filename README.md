# Eco-Farm decision logic in Dafny

Eco-Farm is a farm-assistance web application. An Express server answers JSON
requests from a MySQL database, and a browser front end offers farmer
login/registration, an admin area and a dashboard. This project models the
parts of it that decide something, and proves what they promise:

- **Knowledge-base and dashboard handlers** (`backend/server.js`):
  - the step-by-step builder of the filtered article list statement;
  - the article create guard, get-by-id with its 404, and the two deletes;
  - the DISTINCT column endpoints and the dashboard statistics merge;
  - the order in which Express tries the knowledge-base GET routes.
- **Yield-record POST route** (`backend/routes/yields.js`): the falsiness guard and the INSERT parameter order.
- **Statistics router** (`backend/routes/dashboard.js`): the key-by-key aggregation loop, where a failed count becomes 0.
- **Login and registration forms** (`frontend/auth.js`): the guard chains, and the login phone prefilled after registering.
- **Admin area** (`frontend/admin.js`): the fixed-credential login, the `isAdmin` session flag, the page gate and logout.
- **Dashboard display helpers** (`frontend/dashboard.js`):
  - the alert icon and the "time ago" label;
  - chat message formatting;
  - the first-five alert list and the empty-list placeholders;
  - the `|| 0` stat cards and the search trigger.

## How it is modelled

- **The database is an input.** A handler is a function of the request and the
  database's answer to each statement it issues (`DbOutcome`: a result or a
  failure). It returns an `Exchange`: the statements it issued, in order, and
  the response it sent.
- **Statements are fragments.** A statement is a sequence of literal text
  fragments and parameter marks. `Sql.Render` gives its text with each mark
  written as `?`, and `Sql.RenderedPlaceholders` shows that the `?` count of
  the text equals the mark count.
- **Three parts are imperative, as in the source:**
  - the list-query builder, a method that grows the statement and the
    parameter list, as the source does with `+=` and `push`;
  - the statistics aggregation, a loop that fills a map key by key;
  - the session storage, a class whose map field `setItem`/`removeItem`
    change in place.
- **Everything else is functions.**
- **JavaScript semantics are written out:**
  - falsiness (`undefined`, `null`, `false`, `0`, `""`);
  - `undefined` sent to the driver as NULL;
  - `replace(/x/g)`, `trim()`, `split('/').pop()`;
  - `length` of a string, which counts UTF-16 code units;
  - `Math.floor` on a positive divisor, which is Dafny's `/`;
  - integers rendered in template literals, for magnitudes below 10^21.

Two observations proved about the code as written:
- `StatCardsOfServerStats`: the fourth dashboard card reads `totalAlerts`,
  which the server's statistics response never contains, so it always shows 0.
- `CategoriesUnreachable`: the `/api/knowledge-base/categories` handler can
  never run (see Findings).

`backend/routes/yields.js` and `backend/routes/dashboard.js` are not mounted
by `backend/server.js`. Their handlers are written with callbacks, but the pool
they import (`backend/config/database.js:1-16`) is the promise-based one of
`mysql2/promise`, whose `query` does not call a callback. The model follows the
callbacks the handlers write (see Left out).
The statistics endpoint has two variants, and both are modelled:
- `backend/server.js` counts three tables and fails as a whole;
- the router counts four and writes 0 for a failure.

## Model

| member | source | states |
|---|---|---|
| `Text.ReplaceAll` | frontend/dashboard.js:103-104 | a global replace leaves text without the pattern's first character unchanged, and replacing a single character by text without it removes every occurrence |
| `Text.ReplaceAllSkipClean` | frontend/dashboard.js:103-104 | text without the pattern's first character is copied as it is and the replace goes on with the rest |
| `Text.ReplaceCharConcat` | frontend/dashboard.js:104 | replacing a single character distributes over concatenation |
| `Text.ReplaceAllAfterClean` | frontend/dashboard.js:103 | scanning left to right, the first occurrence after newline-free text is replaced and the scan resumes after it |
| `Text.Utf16Length` | frontend/dashboard.js:23 | `length` counts one unit per character below U+10000 and two for one above, so it lies between the character count and twice it, and equals the character count when no character is astral |
| `Text.Trim` | frontend/dashboard.js:22 | `trim()` is the contiguous middle of the input after its leading white space; everything outside it is white space, its ends are not |
| `Text.Split` | frontend/admin.js:49 | `split('/')` yields at least one piece and no piece contains the separator |
| `Text.JoinSplit` | frontend/admin.js:49 | joining the pieces of a split with the separator gives back the string |
| `Text.SplitLast` | frontend/admin.js:49 | the last piece (what `pop()` returns) is a suffix of the string, all of it or preceded by the separator |
| `Text.NatToString` | frontend/dashboard.js:275-277 | the rendering of a natural number is a non-empty digit string without a leading zero |
| `Text.NatToStringRoundTrip` | frontend/dashboard.js:275-277 | the digits of a natural number read back as that number |
| `Text.IntToStringRoundTrip` | frontend/dashboard.js:275-277 | the template-literal rendering of an integer, negative ones included, reads back as that integer (JavaScript renders this form for magnitudes below 10^21) |
| `Sql.LiteralTextConcat` | backend/server.js:228-242 | appending clauses whose literal text holds no `?` gives a statement whose literal text holds none |
| `Sql.MarksConcat` | backend/server.js:228-242 | the marks of a statement assembled by appending clauses add up |
| `Sql.RenderedPlaceholders` | backend/server.js:228-242 | when the literal text holds no `?`, the `?` characters of the statement text are exactly its marks |
| `Server.ListParams` | backend/server.js:231-240 | the parameters: the category first when it filters, then three copies of `%search%` when the search filters, and nothing else |
| `Server.AppendClause` | backend/server.js:232-238 | `sql +=` and `params.push` together append a clause and its values and keep the marks equal to the parameters |
| `Server.BuildListQuery` | backend/server.js:228-242 | marks equal parameters and the `?` count of the statement text equals the parameter count; the statement is the `WHERE 1=1` base, the category clause iff the category is present, non-empty and not 'all', the search clause iff the search is non-empty, then `ORDER BY created_at DESC`; the parameters are exactly `ListParams` |
| `Server.ListArticles` | backend/server.js:225-251 | exactly one statement, the built list statement bound to the category and the three `%search%` values as filtered; 500 with 'Database error' on failure, otherwise 200 with the rows in order |
| `Server.GetArticle` | backend/server.js:254-271 | 500 iff the statement fails, 404 'Article not found' iff no row comes back, otherwise 200 with exactly the first row |
| `Server.CreateArticle` | backend/server.js:287-306 | a falsy title, content or category gives 400 iff no statement is issued; otherwise exactly one statement, the five-column `INSERT INTO knowledge_base` bound to the five fields in column order (missing tags/author as NULL), 500 on failure, 200 with the new id on success |
| `Server.ArticleInsertMarks` | backend/server.js:294-299 | the article INSERT has five marks, one per bound field |
| `Server.DeleteById` | backend/server.js:140-146 | a delete issues one statement bound to the id and answers its success message whenever the statement does not fail |
| `Server.DeleteYieldRecord` | backend/server.js:135-147 | success message 'Yield record deleted successfully!' on any non-failing outcome, 500 otherwise |
| `Server.DeleteArticle` | backend/server.js:329-341 | success message 'Article deleted successfully!' on any non-failing outcome, 500 otherwise |
| `Server.DeleteIgnoresAffectedRows` | backend/server.js:145 | two successful deletes answer alike whatever number of rows each affected |
| `Server.ColumnValues` | backend/server.js:205 | `results.map(row => row[column])` keeps length and order; a row without the column gives null |
| `Server.DistinctValues` | backend/server.js:197-207 | one parameterless statement; 500 on failure, otherwise 200 with one value per row |
| `Server.SoilTypes` | backend/server.js:197-207 | the soil-type endpoint answers the `soil_type` column of the rows |
| `Server.CropTypes` | backend/server.js:210-220 | the crop-type endpoint answers the `crop_type` column of the rows |
| `Server.ArticleCategories` | backend/server.js:274-284 | the categories handler answers the `category` column of the rows |
| `Server.MergeStats` | backend/server.js:178-181 | `{...results[0], recentYields}` has the first row's columns (none without a row) plus `recentYields`, which wins over a same-named column |
| `Server.DashboardStats` | backend/server.js:150-184 | the recent-yields statement is issued only after the counts succeed; 200 iff both succeed, with the merged object; otherwise 500 |
| `KnowledgeBaseRoutes.FirstMatch` | backend/server.js:225-284 | Express's choice: the first registered route whose pattern matches, none before it matching |
| `KnowledgeBaseRoutes.Bind` | backend/server.js:254-255 | every parameter of the pattern gets a value, only parameters do, and a parameter's value is the path segment at its last position in the pattern (a later same-named parameter wins) |
| `KnowledgeBaseRoutes.Dispatch` | backend/server.js:225-284 | no handler iff no route matches; otherwise the handler of a matching route with no earlier match, with the parameters that route's pattern binds from the path |
| `KnowledgeBaseRoutes.SegmentIsArticleId` | backend/server.js:254-271 | any non-empty third segment is dispatched to get-by-id with `id` bound to it |
| `KnowledgeBaseRoutes.CategoriesUnreachable` | backend/server.js:254-284 | as registered, no path reaches the categories handler |
| `KnowledgeBaseRoutes.CategoriesPathMatches` | backend/server.js:254-274 | `/api/knowledge-base/categories` matches both the `/:id` pattern (binding id to 'categories') and the categories pattern |
| `KnowledgeBaseRoutes.CategoriesRequestFetchesArticle` | backend/server.js:254-271 | as registered, the categories request is handled as get-by-id with id 'categories' |
| `KnowledgeBaseRoutes.CorrectedCategoriesReachable` | backend/server.js:274-284 | with `/categories` registered before `/:id`, the categories request reaches its handler |
| `KnowledgeBaseRoutes.CorrectedAgreesElsewhere` | backend/server.js:225-284 | the corrected order dispatches every other path exactly as the registered order |
| `YieldRoutes.PostYield` | backend/routes/yields.js:7-20 | a falsy farmer_id, crop, yield_quantity or season gives 400 'Missing required fields' iff no statement is issued; otherwise one INSERT with the four fields in column order, 500 'Database error' on failure, 201 with `yield_id` equal to the insert id on success |
| `YieldRoutes.InsertMarks` | backend/routes/yields.js:12-13 | the INSERT has four marks, one per field |
| `YieldRoutes.FalsyQuantityRejected` | backend/routes/yields.js:9-10 | a quantity of 0 or "" is refused as missing and nothing reaches the database |
| `YieldRoutes.StringZeroAccepted` | backend/routes/yields.js:9-13 | the string "0" is truthy: it passes the guard and is inserted as given |
| `YieldRoutes.InsertIndependentOfOutcome` | backend/routes/yields.js:12-13 | the statement issued does not depend on the database's answer |
| `StatsRoute.CountOrZero` | backend/routes/dashboard.js:21-27 | a failed count is 0, a successful one is the count read |
| `StatsRoute.AggregateStats` | backend/routes/dashboard.js:6-36 | the loop issues the four counting statements in key order and always answers 200 with the object filled key by key |
| `StatsRoute.StatsFields` | backend/routes/dashboard.js:18-31 | the last key visited holds the value of its own statement's outcome, whatever the earlier keys |
| `StatsRoute.StatsFieldsKeys` | backend/routes/dashboard.js:18-31 | the filled object has exactly the keys visited |
| `StatsRoute.StatsFieldsValue` | backend/routes/dashboard.js:18-31 | with distinct keys, each key holds the value of its own statement's outcome |
| `StatsRoute.StatsKeys` | backend/routes/dashboard.js:8-13 | the response has exactly cropRecommendations, fertilizerAdvices, yieldRecords and newAlerts |
| `StatsRoute.StatsValue` | backend/routes/dashboard.js:21-27 | a failed statement's key is 0, a successful one's is its count |
| `StatsRoute.StatsIndependent` | backend/routes/dashboard.js:18-31 | changing one statement's outcome never changes another key's value |
| `Auth.FirstFailure` | frontend/auth.js:94-121 | a guard chain is valid iff every check holds, and otherwise reports the message of the first failing check |
| `Auth.ValidateLogin` | frontend/auth.js:53-62 | 'Please fill in all fields' iff a field is empty; the phone message iff both are filled and the phone is not exactly ten digits; valid otherwise |
| `Auth.LoginIsFirstFailure` | frontend/auth.js:53-62 | the login form is the first-failure chain of its two checks, in order |
| `Auth.ValidateRegistration` | frontend/auth.js:94-121 | each of the five messages is shown iff its check is the first to fail (empty fields, phone, fewer than six UTF-16 code units, mismatch, terms); valid iff all five hold |
| `Auth.RegistrationIsFirstFailure` | frontend/auth.js:94-121 | the registration form is the first-failure chain of its five checks, in order |
| `Auth.PrefillLoginPhone` | frontend/auth.js:142 | after a successful registration the login phone is the registered phone; otherwise unchanged |
| `Auth.RegisteredUserPassesLogin` | frontend/auth.js:142 | the prefilled phone with the registered password passes the login checks |
| `Admin.SessionStorage.GetItem` | frontend/admin.js:51 | a key reads as its stored value, or as null when absent |
| `Admin.SessionStorage.SetItem` | frontend/admin.js:34 | stores the value under the key, nothing else changes |
| `Admin.SessionStorage.RemoveItem` | frontend/admin.js:61 | removes the key, nothing else changes |
| `Admin.SubmitAdminLogin` | frontend/admin.js:27-38 | navigates to admin-dashboard.html iff username is exactly 'admin' and password exactly 'admin123', setting `isAdmin` to 'true' so that no page is gated; otherwise alerts 'Invalid admin credentials' and leaves the session unchanged |
| `Admin.CurrentPage` | frontend/admin.js:49 | the page is the separator-free part after the last '/', or the whole path |
| `Admin.CurrentPageOfJoined` | frontend/admin.js:49 | the page of `dir/page` is `page`, whatever the directory |
| `Admin.GateRedirect` | frontend/admin.js:43-54 | a redirect to admin-login.html iff the page is one of the four admin pages and the flag is not exactly 'true'; other pages are never redirected |
| `Admin.Gate` | frontend/admin.js:50-53 | the same decision with the flag read from the session |
| `Admin.GateOnAdminPage` | frontend/admin.js:43-53 | an admin page in any directory is redirected exactly when the flag is not 'true' |
| `Admin.Logout` | frontend/admin.js:59-63 | removes `isAdmin` only, goes to the login page, and afterwards every admin page redirects |
| `DashboardView.AlertIcon` | frontend/dashboard.js:258-265 | 'warning', 'danger', 'success' each get their own icon, exactly; anything else gets 'fas fa-info-circle' |
| `DashboardView.AgeOf` | frontend/dashboard.js:268-278 | minutes iff the difference is under an hour, hours iff under a day, days otherwise, each count rounded down; a negative difference is always a negative number of minutes |
| `DashboardView.AgeLabel` | frontend/dashboard.js:275-277 | a label reads back as its unit and count, so no two ages share a label |
| `DashboardView.TimeAgo` | frontend/dashboard.js:268-278 | the label shown reads back as exactly the bucket and count `AgeOf` chose for the difference |
| `DashboardView.ParseWithOwnSuffix` | frontend/dashboard.js:275-277 | a rendered count followed by its unit text reads back as the count |
| `DashboardView.ParseWithOtherSuffix` | frontend/dashboard.js:275-277 | a label that differs from a unit text within its length does not read as that unit |
| `DashboardView.Emojify` | frontend/dashboard.js:105 | text without any of the eleven emoji is unchanged, and wrapping introduces no newline |
| `DashboardView.EmojifyChar` | frontend/dashboard.js:105 | each of the listed emoji is wrapped in `<span class="emoji">…</span>` (`$&` is the match), any other character is kept; with `EmojifyConcat` this fixes the output for every text |
| `DashboardView.EmojifyConcat` | frontend/dashboard.js:105 | emoji wrapping distributes over concatenation |
| `DashboardView.FormatMessage` | frontend/dashboard.js:102-105 | no newline survives the formatting chain |
| `DashboardView.MessageHtml` | frontend/dashboard.js:107 | the message element is the formatted text in one paragraph, without newlines |
| `DashboardView.ParagraphBreak` | frontend/dashboard.js:102-104 | a blank line after newline-free text becomes one `</p><p>`, never two `<br>`, and the rest is formatted on its own |
| `DashboardView.LineBreak` | frontend/dashboard.js:102-105 | a single newline after newline-free text, not followed by another, becomes one `<br>` and the rest is formatted on its own |
| `DashboardView.FormatAtFirstNewline` | frontend/dashboard.js:102-105 | at the first newline of a message, a following second newline makes a paragraph break and any other character a line break, with the rest formatted on its own; so each `\n\n` read left to right becomes `</p><p>` |
| `DashboardView.FormatWithoutNewline` | frontend/dashboard.js:102-105 | newline-free text is only emoji-wrapped |
| `DashboardView.LinesAfterParagraph` | frontend/dashboard.js:104 | the line-break pass leaves newline-free text and paragraph breaks alone |
| `DashboardView.RecentAlerts` | frontend/dashboard.js:234 | `slice(0, 5)` is a prefix of length min(5, n) |
| `DashboardView.Card` | frontend/dashboard.js:236-251 | an alert's card has the icon of its type, its own title and message, and a time label that reads back as the age of the alert |
| `DashboardView.DisplayAlerts` | frontend/dashboard.js:225-255 | the no-alerts placeholder iff the list is empty; otherwise one `Card` for each of the first five alerts, in order |
| `DashboardView.DisplayRecentYields` | frontend/dashboard.js:192-210 | the 'No yield records found.' placeholder iff the list is empty; otherwise one item per record, in order |
| `DashboardView.RecentYieldsOf` | frontend/dashboard.js:173-180 | `data.recentYields \|\| []`: None iff the response is null (where the page fails reading a property) or holds a truthy non-array; empty for a missing or falsy value; the array's elements for an array |
| `DashboardView.StatsResponseShowsRecentYields` | frontend/dashboard.js:180 | for the server's statistics response the card receives exactly the recent yield rows |
| `DashboardView.OrZero` | frontend/dashboard.js:173-176 | a missing or falsy value shows as 0, anything else as itself |
| `DashboardView.StatCards` | frontend/dashboard.js:173-176 | None iff the response is null, where reading a property fails; otherwise four cards, each the `\|\| 0` default of its property |
| `DashboardView.StatCardsOfServerStats` | frontend/dashboard.js:173-176 | for the server's response the first three cards show its counts and the fourth is always 0 |
| `DashboardView.OnSearchInput` | frontend/dashboard.js:21-28 | a search runs iff the trimmed input is at least two UTF-16 code units long, and with the trimmed input |
| `DashboardView.AstralCharSearched` | frontend/dashboard.js:22-27 | one character outside the Basic Multilingual Plane, such as 🌱, is two code units and is searched |
| `DashboardView.BlankInputClears` | frontend/dashboard.js:22-27 | input of white space only never searches |
| `DashboardView.TrimmedQuerySearched` | frontend/dashboard.js:22-27 | a query of two or more characters without surrounding white space is searched as typed |

## Left out

- Execution of SQL: WHERE, ORDER BY, LIMIT and DISTINCT are MySQL's. The rows a statement returns are inputs, and so are COUNT results.
- Express and cors wiring, the logging middleware, and the catch-all 404 and error handlers. Route patterns are matched on path segments, exact and case-sensitive; Express's case-insensitive and trailing-slash matching is not modelled.
- The MySQL pool and connection setup, `dotenv` configuration and shutdown.
- `backend/models/Farmer.js` (bcrypt hashing behind a library call) and the pool setup of `backend/config/database.js`; neither is part of this model.
- `YieldRoutes.PostYield`: the answers are those its `query` callback writes. With the promise pool the router imports, that callback is never called: the INSERT is sent, no answer follows, and a database error becomes an unhandled rejection. The model does not capture that.
- `StatsRoute.AggregateStats`: the answer is the one its `query` callbacks build. With the promise pool the router imports, no callback is called, or a callback argument is refused outright. Either way `Promise.all` never resolves to the answer, so `/stats` as written does not answer. The model does not capture that.
- Handlers of `backend/server.js` that only pass rows through or write without a decision:
  - the crops and fertilizers searches;
  - the yield-record list, list-by-crop and POST;
  - knowledge-base update;
  - health and root.
- The GET list of `backend/routes/yields.js`.
- `Server.BuildListQuery`: query-string values are modelled as strings. Express can also deliver an array for a repeated key, and that case is not modelled.
- Key order of JSON objects: objects are maps, so the spread order of `{...results[0], recentYields}` is only reflected in which value wins.
- JSON numbers are integers. Floating point, NaN from an unparsable alert date, and the date parsing in `getTimeAgo` are left out. The difference in milliseconds is an input.
- `StatsRoute.AggregateStats`: the four statements run concurrently under `Promise.all`. The model visits them sequentially, which gives the same object because each callback writes only its own key.
- `StatsRoute.CountOrZero`: a successful count is taken to have one row with a `count` column, as `COUNT(*)` always returns. An empty result, on which the source would throw, is not modelled.
- `DashboardView.RecentYieldsOf`: a truthy non-array `recentYields` and a null response are answered with None, because the page fails on them. The failure itself is not modelled. Neither is an array-like object (say one with `length: 0`), which the page would render, while the model answers None.
- `DashboardView.StatCards`: None stands for the failure on a null response; the failure itself is not modelled.
- `Text.IntToString`: JavaScript writes integers of magnitude 10^21 and above in exponent form; the model always writes all digits, so it agrees only below 10^21. Counts and ages reach nowhere near that.
- `DashboardView.DisplayAlerts` and `DashboardView.DisplayRecentYields`: the HTML markup of each item is not built; each card is its icon, title, message and time label, and each yield item its record.
- The chat `sendMessage` round trip, suggestion buttons, crop/fertilizer recommendation alerts, the farmer logout confirm, password visibility toggles, tab switching and all `fetch`, `alert`, `setTimeout` and DOM updates.
- The alerts, search and chatbot endpoints the dashboard calls are not defined by any modelled file.

## Findings

| source | as written | input that shows it | evidently intended | confidence | as-written member | corrected member |
|---|---|---|---|---|---|---|
| backend/server.js:254-284 | `GET /api/knowledge-base/:id` is registered before `GET /api/knowledge-base/categories`, and Express dispatches to the first match | `GET /api/knowledge-base/categories`: it is dispatched to get-by-id with id 'categories', answering 404 or an article, never the category list | the categories route answers the list of categories | not executed | `KnowledgeBaseRoutes.CategoriesUnreachable` | `KnowledgeBaseRoutes.CorrectedCategoriesReachable` |
