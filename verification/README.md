# Blog REST backend: bridge and handler decisions

This project models the decision logic of a small REST backend for articles,
authors ("users"), likes and comments. It covers the data-access bridge
(`services/bridge.js`) and what each route handler decides before and after
calling it. That means which field checks run, when a request is refused with
401, the order of the insert parameters (which fixes the `id` reported back),
the existence gate of the like handler, and the 200/404 choice on list reads.

Everything is a pure function. The database driver is an input
`Driver = Call -> Answer`, where a `Call` is a statement plus its bound
parameters. The driver answers with a row list or with a write acknowledgement
whose `affectedRows` may be missing. The pagination helpers `getOffset` and
`emptyOrRows` and the configured page size travel in a `Context` record and
stay uninterpreted. SQL text is replaced by a `Query` datatype that names what
each statement does. Each handler returns an `Exchange`: the driver calls it
made, in order, and the response it sent. So "no insert happens" and "the
parameters reach the driver unchanged" are statements about that call list.

Modules: `Options` (optional values), `Db` (driver interface), `Bridge`,
`Validation` (field checks and error lists), `Handlers` (the handler shapes the
routes share), and `ArticleRoutes`, `UserRoutes` and `CommentRoutes`, one per
route file.

## Model

| member | source | states |
|---|---|---|
| Bridge.ReadCall | services/bridge.js:11-15 | The read passes the query to the driver unchanged. Its only two bound parameters are the offset `getOffset(page or 1, listPerPage)` and then the page size. |
| Bridge.PageDefaultsToOne | services/bridge.js:11-12 | Omitting the page gives the same driver call as page 1, with offset `getOffset(1, listPerPage)`. |
| Bridge.GetMultiple | services/bridge.js:11-21 | A read makes exactly the call `ReadCall` describes. It returns the `{data}` record whose rows are `emptyOrRows` of the driver's answer to that call. |
| Bridge.Interpret | services/bridge.js:31-40 | The message is always one of the two fixed strings. It is "Added successfully" exactly when `affectedRows` is present and non-zero. Otherwise the reply is exactly `{message: "Error in insert query"}` with no id. An id is present exactly on success with a non-empty array, and it is the first element. |
| Bridge.Insert | services/bridge.js:24-41 | The parameter array reaches the driver as given, and the reply is `Interpret` of the driver's answer to that call. An unacknowledged insert gives exactly `{message: "Error in insert query"}` with no id. An acknowledged insert with a non-empty array gives `{message: "Added successfully", id: insertArr[0]}`. |
| Bridge.InsertReplyKeys | services/bridge.js:31-38 | The serialised reply has exactly the keys `message` and `id` iff the insert was acknowledged, and the key `message` alone iff it was not. |
| Bridge.InsertReportsOnlyFirst | services/bridge.js:36-37 | Two parameter arrays with the same first element give identical replies, so no other element is reported. |
| Validation.Validate | routes/user.js:122-127 | The error list is empty iff every check passes. It holds the error of each failing check and nothing else, and it is no longer than the check list. |
| Handlers.ReadStatusAsWritten | routes/article.js:81 | As written, the status test reads `.length` of the `{data}` record, which is undefined, so the status is 404 whatever rows came back. |
| Handlers.ReadStatusCounterexample | routes/article.js:81 | With one row found, the as-written status is 404 and the documented one is 200. |
| Handlers.ReadStatus | routes/article.js:13-33 | Status is 200 iff rows were found and 404 iff the row list is empty. |
| Handlers.ListRead | routes/article.js:80-81 | A list read makes one bridge read of page 1 and sends the `{data}` record unchanged, with 200 iff rows were found and 404 (body `{data: []}`) iff none were. |
| Handlers.ListReadAsWritten | routes/article.js:80-81 | The as-written list read makes the same call and sends the same body, but always with status 404. |
| Handlers.ListReadDiffersOnlyWhenRowsFound | routes/article.js:81 | The as-written and corrected list reads agree on calls and body. Their exchanges are equal iff no rows were found. |
| Handlers.GuardedRead | routes/comment.js:176-195 | Corrected guarded read. An empty guarded path parameter gives 401 with exactly that one error and no driver call. Otherwise the handler is the corrected list read. |
| Handlers.AddResource | routes/comment.js:79-92 | If any check fails, the answer is 401 with the validation errors and no driver call. Otherwise exactly one insert of the given parameters is made and its reply is sent with status 200. |
| ArticleRoutes.AddChecksMeanValid | routes/article.js:151-155 | The article checks pass iff title is 1-50 characters, body is 1-8000 characters and author id is non-empty. The as-written checks pass iff the same holds with no bound on the body. |
| ArticleRoutes.Add | routes/article.js:148-178 | Corrected /add: 401 iff the article is not valid, with the errors and no insert. A valid article gives one insert of `[article_id, title, body, author_id]` and status 200. The body is the bridge's reply to that insert: `{message: "Added successfully", id: <fresh article id>}` when the driver acknowledged it, `{message: "Error in insert query"}` otherwise. |
| ArticleRoutes.AddAsWritten | routes/article.js:148-178 | As-written /add: 401 iff title is empty or over 50 characters, body is empty, or author id is empty. Otherwise one insert of `[article_id, title, body, author_id]` and status 200. The body is the bridge's reply: `{message: "Added successfully", id: <fresh article id>}` when acknowledged, `{message: "Error in insert query"}` otherwise. |
| ArticleRoutes.TitleMax8000Redundant | routes/article.js:152-154 | The title's 8000-character check fails only if its 50-character check fails. Dropping it changes no validation verdict. |
| ArticleRoutes.BodyUnboundedAsWritten | routes/article.js:151-155 | As written, a valid request stays accepted with any non-empty body in place of its own, however long. |
| ArticleRoutes.LongBodyAcceptedAsWritten | routes/article.js:154 | A body of 8001 characters is accepted as written and rejected with 401 by the corrected checks. |
| ArticleRoutes.All | routes/article.js:67-82 | Corrected GET /all: a list read of the article list with like counts. |
| ArticleRoutes.Search | routes/article.js:272-301 | Corrected search. An empty search term gives 401 with no read. Otherwise the handler is the corrected list read of the full-text search for that term. |
| ArticleRoutes.GetById | routes/article.js:394-420 | Corrected get by id. An empty id gives 401 with no read. Otherwise the handler is the corrected list read of that article. |
| ArticleRoutes.Like | routes/article.js:492-526 | A missing user or article id gives 401 with no call. Otherwise the article is looked up first and the author second. Status is 404 with exactly the not-found message and no insert iff either lookup is empty. Otherwise one insert of `[article_id, user_id]` follows, with status 200. The body is the bridge's reply to that insert: `{message: "Added successfully", id: <article id>}` when acknowledged, `{message: "Error in insert query"}` otherwise. |
| UserRoutes.All | routes/user.js:52-58 | Corrected GET /all: the corrected list read of the authors. |
| UserRoutes.AddChecksMeanValid | routes/user.js:122-125 | The author checks pass iff name and job title are each 1-50 characters. |
| UserRoutes.Add | routes/user.js:119-147 | 401 iff the author is not valid, with the errors and no insert. Otherwise one insert of `[author_id, name, job_title]` and status 200. The body is `{message: "Added successfully", id: <fresh author id>}` when the driver acknowledged the insert, `{message: "Error in insert query"}` otherwise. |
| UserRoutes.GetById | routes/user.js:226-245 | Corrected get by id. An empty id gives 401 with no read. Otherwise the handler is the corrected list read of that author. |
| CommentRoutes.AddChecksMeanValid | routes/comment.js:73-76 | The comment checks pass iff user id and article id are non-empty and the body is 1-200 characters. |
| CommentRoutes.Add | routes/comment.js:70-94 | 401 iff the comment is not valid, with the errors and no insert. Otherwise one insert of `[comment_id, article_id, user_id, body]` and status 200. The body is `{message: "Added successfully", id: <fresh comment id>}` when the driver acknowledged the insert, `{message: "Error in insert query"}` otherwise. |
| CommentRoutes.AddSkipsExistenceCheck | routes/comment.js:86-92 | A valid comment's only driver call is its insert, and it gets 200 whatever the database holds. A like with the same ids reads the article and the author first, and succeeds iff both exist. |
| CommentRoutes.AllOfArticle | routes/comment.js:176-196 | Corrected comment list. An empty article id gives 401 with no read. Otherwise the handler is the corrected list read of that article's comments. |

## Left out

- ArticleRoutes.All: models routes/article.js:80-81. It states the corrected 200/404 choice. As written the handler is `Handlers.ListReadAsWritten` of its query and always answers 404 (see Findings).
- ArticleRoutes.Search: models routes/article.js:298-299. It states the corrected 200/404 choice. As written the handler is `Handlers.ListReadAsWritten` of its query and always answers 404 (see Findings).
- ArticleRoutes.GetById: models routes/article.js:417-418. It states the corrected 200/404 choice. As written the handler is `Handlers.ListReadAsWritten` of its query and always answers 404 (see Findings).
- UserRoutes.All: models routes/user.js:56-57. It states the corrected 200/404 choice. As written the handler is `Handlers.ListReadAsWritten` of its query and always answers 404 (see Findings).
- UserRoutes.GetById: models routes/user.js:243-244. It states the corrected 200/404 choice. As written the handler is `Handlers.ListReadAsWritten` of its query and always answers 404 (see Findings).
- CommentRoutes.AllOfArticle: models routes/comment.js:194-195. It states the corrected 200/404 choice. As written the handler is `Handlers.ListReadAsWritten` of its query and always answers 404 (see Findings).
- Handlers.GuardedRead: shares the read of those handlers. It states the corrected 200/404 choice. As written the handler is `Handlers.ListReadAsWritten` of its query and always answers 404 (see Findings).
- SQL semantics (joins, the like count, full-text scoring, ordering) belong to the database. The driver is an input function, and each statement is named by a `Query` constructor.
- Splicing ids and search terms into statement text (an injection hazard) is not modelled. The spliced value appears as an argument of the `Query` constructor.
- services/db.js and services/helper.js are not part of this model. `getOffset`, `emptyOrRows` and the page size are uninterpreted fields of `Context`.
- Driver failures are not modelled: the driver is total. In the source, nothing in the bridge or the routes catches a rejected query, and the request is left without a response.
- Validator internals are simplified. A missing field reads as the empty string. Length counts Unicode code points, as the validator's `isLength` does. The error location is the one source the route reads from, not the validator's own search over locations. Non-string field values are not modelled.
- The fresh ids from `uuid.v4()` are inputs. The unused id generated in the search handler is not modelled.
- `Promise.all` in the like handler is two sequential lookups, recorded article first. There is no concurrency to model.
- Express routing: a path with an empty `:id` segment would not reach the handler at all. The model still shows the handler's own 401 branch.
- Application bootstrap, CORS, API documentation serving, the error handler, environment-based configuration, the unused Mongoose model and the integration tests are not modelled.

## Findings

| source | as written | input that shows it | evidently intended | confidence | as-written member | corrected member |
|---|---|---|---|---|---|---|
| routes/article.js:81 | The list handlers (also routes/article.js:299, 418; routes/user.js:57, 244; routes/comment.js:195) pick the status with `.length > 0` on the bridge's `{data}` record. The record has no `length`, so every read answers 404. | any read that returns one row | 200 with `{data: [...]}` when rows are found, 404 with `{data: []}` when none are, as the route documentation says | high; not executed | Handlers.ListReadAsWritten | Handlers.ListRead |
| routes/article.js:154 | The 8000-character check is applied to `title`, which is already limited to 50, so the article body has no length bound. | title "T", body of 8001 characters, author_id "A" | the body limited to 8000 characters | medium; not executed | ArticleRoutes.AddAsWritten | ArticleRoutes.Add |
