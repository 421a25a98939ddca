/**
 The database driver as the bridge sees it: statements, bound parameters and
 the driver's answers. The driver itself and the pagination helpers live in
 services/db.js and services/helper.js, which are not part of this model; they
 enter as input functions.
 */
module Db {
  import opened Options

  /** A value bound to a `?` placeholder or read from a column. */
  datatype Scalar = Str(s: string) | Num(n: int)

  /** A result row: column name to value. */
  datatype Row = Row(columns: map<string, Scalar>)

  /**
   The statements the routes send, named by what they select or insert.
   Values that the routes splice into the statement text are constructor
   arguments; values bound positionally travel in `Call.params`.
   */
  datatype Query =
    | ArticlesWithLikes                  // article list joined with authors and like counts
    | InsertArticle
    | SearchArticles(term: string)       // full-text search over title and body
    | ArticleWithLikesById(id: string)
    | ArticleById(id: string)            // plain article row, used by the like lookup
    | InsertLike
    | Authors
    | InsertAuthor
    | AuthorById(id: string)
    | InsertComment
    | CommentsOfArticle(articleId: string)

  /** One round trip to the driver: statement plus bound parameters. */
  datatype Call = Call(query: Query, params: seq<Scalar>)

  /** What the driver hands back: a list of rows, or a write acknowledgement
      whose `affectedRows` property may be missing. */
  datatype Answer = RowSet(rows: seq<Row>) | Ack(affectedRows: Option<nat>)

  /** The database, as a function from a call to its answer. */
  type Driver = Call -> Answer

  /**
   The inputs the bridge takes from outside its own file: the configured page
   size and the two helper functions, left uninterpreted.
   */
  datatype Context = Context(
    listPerPage: int,
    getOffset: (int, int) -> int,
    emptyOrRows: Answer -> seq<Row>)
}
