/** The article routes: list, add, search, get by id and like. */
module ArticleRoutes {
  import opened Options
  import opened Db
  import opened Bridge
  import opened Validation
  import opened Handlers

  // ----- /add -----

  const TitleNotEmpty := Check("title", NotEmpty, "Title  must be not empty")
  const TitleMax50 := Check("title", MaxLength(50), "title can't exceed 50 characters")
  const BodyNotEmpty := Check("body", NotEmpty, "body can't be not empty")
  /** The fourth check as written: the 8000-character bound lands on the title. */
  const TitleMax8000 := Check("title", MaxLength(8000), "title can't exceed 8000 characters")
  /** The fourth check as intended: the 8000-character bound on the body. */
  const BodyMax8000 := Check("body", MaxLength(8000), "body can't exceed 8000 characters")
  const AuthorNotEmpty := Check("author_id", NotEmpty, "can't be empty")

  const AddChecksAsWritten: seq<Check> := [TitleNotEmpty, TitleMax50, BodyNotEmpty, TitleMax8000, AuthorNotEmpty]
  const AddChecks: seq<Check> := [TitleNotEmpty, TitleMax50, BodyNotEmpty, BodyMax8000, AuthorNotEmpty]

  /** An acceptable new article: title of 1 to 50 characters, body of 1 to
      8000 characters, an author id. */
  predicate ValidArticle(fields: Fields) {
    var title := Field(fields, "title");
    var body := Field(fields, "body");
    && title != "" && |title| <= 50
    && body != "" && |body| <= 8000
    && Field(fields, "author_id") != ""
  }

  /** What the checks as written accept: the same, with no bound on the body. */
  predicate ValidArticleAsWritten(fields: Fields) {
    var title := Field(fields, "title");
    && title != "" && |title| <= 50
    && Field(fields, "body") != ""
    && Field(fields, "author_id") != ""
  }

  /** The insert parameters, new article id first. */
  function AddParams(fields: Fields, articleId: string): seq<Scalar> {
    [Str(articleId), Str(Field(fields, "title")), Str(Field(fields, "body")), Str(Field(fields, "author_id"))]
  }

  /** The insert call an accepted request makes. */
  function AddCall(fields: Fields, articleId: string): Call {
    Call(InsertArticle, AddParams(fields, articleId))
  }

  lemma AddChecksMeanValid(fields: Fields)
    ensures AllPass(AddChecks, fields) <==> ValidArticle(fields)
    ensures AllPass(AddChecksAsWritten, fields) <==> ValidArticleAsWritten(fields)
  {
    if ValidArticle(fields) {
      forall i | 0 <= i < |AddChecks| ensures Passes(AddChecks[i], fields) {}
    }
    if ValidArticleAsWritten(fields) {
      forall i | 0 <= i < |AddChecksAsWritten| ensures Passes(AddChecksAsWritten[i], fields) {}
    }
    if AllPass(AddChecks, fields) {
      assert Passes(AddChecks[0], fields) && Passes(AddChecks[1], fields) && Passes(AddChecks[2], fields);
      assert Passes(AddChecks[3], fields) && Passes(AddChecks[4], fields);
    }
    if AllPass(AddChecksAsWritten, fields) {
      assert Passes(AddChecksAsWritten[0], fields) && Passes(AddChecksAsWritten[1], fields);
      assert Passes(AddChecksAsWritten[2], fields) && Passes(AddChecksAsWritten[4], fields);
    }
  }

  /** POST /add with the body bound in place: a rejected request gets 401
      and no insert; an accepted one inserts the new article with its fresh
      id first, so a successful reply reports that id. */
  function Add(fields: Fields, articleId: string, driver: Driver): (x: Exchange)
    ensures x.response.status == Unauthorized <==> !ValidArticle(fields)
    ensures !ValidArticle(fields) ==> Rejected(x, Validate(AddChecks, fields, InBody))
    ensures ValidArticle(fields) ==> InsertAnswered(x, driver, AddCall(fields, articleId), Str(articleId))
  {
    AddChecksMeanValid(fields);
    AddResource(AddChecks, fields, driver, InsertArticle, AddParams(fields, articleId))
  }

  /** POST /add as written: the same handler over the checks as written. */
  function AddAsWritten(fields: Fields, articleId: string, driver: Driver): (x: Exchange)
    ensures x.response.status == Unauthorized <==> !ValidArticleAsWritten(fields)
    ensures !ValidArticleAsWritten(fields) ==> Rejected(x, Validate(AddChecksAsWritten, fields, InBody))
    ensures ValidArticleAsWritten(fields) ==> InsertAnswered(x, driver, AddCall(fields, articleId), Str(articleId))
  {
    AddChecksMeanValid(fields);
    AddResource(AddChecksAsWritten, fields, driver, InsertArticle, AddParams(fields, articleId))
  }

  /** The title's 8000-character check can only fail when its 50-character
      check fails too. */
  lemma TitleMax8000Redundant(fields: Fields)
    ensures !Passes(TitleMax8000, fields) ==> !Passes(TitleMax50, fields)
    ensures Validate(AddChecksAsWritten, fields, InBody) == []
            <==> Validate([TitleNotEmpty, TitleMax50, BodyNotEmpty, AuthorNotEmpty], fields, InBody) == []
  {
    var shorter := [TitleNotEmpty, TitleMax50, BodyNotEmpty, AuthorNotEmpty];
    if AllPass(shorter, fields) {
      assert Passes(shorter[0], fields) && Passes(shorter[1], fields);
      assert Passes(shorter[2], fields) && Passes(shorter[3], fields);
      forall i | 0 <= i < |AddChecksAsWritten| ensures Passes(AddChecksAsWritten[i], fields) {}
    }
    if AllPass(AddChecksAsWritten, fields) {
      assert Passes(AddChecksAsWritten[0], fields) && Passes(AddChecksAsWritten[1], fields);
      assert Passes(AddChecksAsWritten[2], fields) && Passes(AddChecksAsWritten[4], fields);
      forall i | 0 <= i < |shorter| ensures Passes(shorter[i], fields) {}
    }
  }

  /** As written, the body's length never matters: once the body is
      non-empty, replacing it by any other non-empty text leaves the status
      unchanged. */
  lemma BodyUnboundedAsWritten(fields: Fields, body: string, articleId: string, driver: Driver)
    requires ValidArticleAsWritten(fields)
    requires body != ""
    ensures AddAsWritten(fields["body" := body], articleId, driver).response.status == OK
  {
    assert Field(fields["body" := body], "title") == Field(fields, "title");
    assert Field(fields["body" := body], "author_id") == Field(fields, "author_id");
  }

  /** A 8001-character body: accepted as written, rejected with the bound
      on the body. */
  lemma LongBodyAcceptedAsWritten()
    ensures var fields := map["title" := "T", "body" := seq(8001, _ => 'b'), "author_id" := "A"];
            var driver: Driver := _ => Ack(Some(1));
            && AddAsWritten(fields, "new", driver).response.status == OK
            && Add(fields, "new", driver).response.status == Unauthorized
  {
    var fields := map["title" := "T", "body" := seq(8001, _ => 'b'), "author_id" := "A"];
    assert Field(fields, "title") == "T";
    assert |Field(fields, "body")| == 8001;
    assert Field(fields, "author_id") == "A";
  }

  // ----- list reads -----

  /** GET /all: the article list with like counts. */
  function All(ctx: Context, driver: Driver): (x: Exchange)
    ensures Listed(x, ctx, driver, ArticlesWithLikes)
  {
    ListRead(ctx, driver, ArticlesWithLikes)
  }

  const SearchGuard := Check("searchquery", NotEmpty, "Title search text  must be not empty")

  /** GET /search/:searchquery: 401 before any read on an empty term,
      otherwise a list read of the full-text search for the term. */
  function Search(ctx: Context, params: Fields, driver: Driver): (x: Exchange)
    ensures Field(params, "searchquery") == "" ==> Rejected(x, [ErrorOf(SearchGuard, params, InParams)])
    ensures Field(params, "searchquery") != "" ==>
              Listed(x, ctx, driver, SearchArticles(Field(params, "searchquery")))
  {
    GuardedRead(ctx, driver, params, SearchGuard, SearchArticles(Field(params, "searchquery")))
  }

  const IdGuard := Check("id", NotEmpty, "Title  must be not empty")

  /** GET /getbyid/:id: 401 before any read on an empty id, otherwise a list
      read of that article with its like count. */
  function GetById(ctx: Context, params: Fields, driver: Driver): (x: Exchange)
    ensures Field(params, "id") == "" ==> Rejected(x, [ErrorOf(IdGuard, params, InParams)])
    ensures Field(params, "id") != "" ==> Listed(x, ctx, driver, ArticleWithLikesById(Field(params, "id")))
  {
    GuardedRead(ctx, driver, params, IdGuard, ArticleWithLikesById(Field(params, "id")))
  }

  // ----- /like -----

  const LikeChecks: seq<Check> := [Check("user_id", NotEmpty, "can't be empty"), Check("article_id", NotEmpty, "can't be empty")]
  const LikeNotFound := "an error occured either user or article not found!"

  /** Both referenced rows exist: the two lookups each return a row. */
  predicate BothExist(ctx: Context, driver: Driver, fields: Fields) {
    && RowsOf(ctx, driver, ArticleById(Field(fields, "article_id"))) != []
    && RowsOf(ctx, driver, AuthorById(Field(fields, "user_id"))) != []
  }

  /** The like's insert parameters: article id first, then user id. */
  function LikeParams(fields: Fields): seq<Scalar> {
    [Str(Field(fields, "article_id")), Str(Field(fields, "user_id"))]
  }

  /**
   POST /like: 401 on a missing id; otherwise look up the article and the
   author, answer 404 with the fixed message unless both exist, and only then
   insert. The reported id is the first parameter, which is the article id.
   */
  function Like(ctx: Context, fields: Fields, driver: Driver): (x: Exchange)
    ensures x.response.status in {OK, Unauthorized, NotFound}
    ensures x.response.status == Unauthorized
            <==> Field(fields, "user_id") == "" || Field(fields, "article_id") == ""
    ensures x.response.status == Unauthorized ==> Rejected(x, Validate(LikeChecks, fields, InBody))
    ensures x.response.status != Unauthorized ==>
              && |x.calls| >= 2
              && x.calls[0] == ListCall(ctx, ArticleById(Field(fields, "article_id")))
              && x.calls[1] == ListCall(ctx, AuthorById(Field(fields, "user_id")))
    ensures x.response.status == NotFound
            <==> x.response.status != Unauthorized && !BothExist(ctx, driver, fields)
    ensures x.response.status == NotFound ==>
              |x.calls| == 2 && x.response.body == Message(LikeNotFound)
    ensures x.response.status == OK ==>
              && |x.calls| == 3
              && x.calls[2] == Call(InsertLike, LikeParams(fields))
              && x.response.body.Inserted?
    ensures x.response.status == OK ==>
              x.response.body == Inserted(Interpret(driver(Call(InsertLike, LikeParams(fields))), LikeParams(fields)))
    ensures x.response.status == OK && Acknowledged(driver(Call(InsertLike, LikeParams(fields)))) ==>
              x.response.body == Inserted(InsertReply(AddedMessage, Some(Str(Field(fields, "article_id")))))
    ensures x.response.status == OK && !Acknowledged(driver(Call(InsertLike, LikeParams(fields)))) ==>
              x.response.body == Inserted(InsertReply(ErrorMessage, None))
    ensures x.response.body.Inserted? && x.response.body.reply.id.Some? ==>
              x.response.body.reply.id.value == Str(Field(fields, "article_id"))
  {
    var errors := Validate(LikeChecks, fields, InBody);
    assert errors == [] <==> Field(fields, "user_id") != "" && Field(fields, "article_id") != "" by {
      if Field(fields, "user_id") != "" && Field(fields, "article_id") != "" {
        forall i | 0 <= i < |LikeChecks| ensures Passes(LikeChecks[i], fields) {}
      }
      if errors == [] {
        assert Passes(LikeChecks[0], fields) && Passes(LikeChecks[1], fields);
      }
    }
    if errors != [] then Exchange([], Response(Unauthorized, Errors(errors)))
    else
      var articles := GetMultiple(ctx, driver, ArticleById(Field(fields, "article_id")), Some(1));
      var users := GetMultiple(ctx, driver, AuthorById(Field(fields, "user_id")), Some(1));
      var lookups := [articles.call, users.call];
      if articles.reply.data == [] || users.reply.data == [] then
        Exchange(lookups, Response(NotFound, Message(LikeNotFound)))
      else
        var w := Insert(driver, InsertLike, LikeParams(fields));
        Exchange(lookups + [w.call], Response(OK, Inserted(w.reply)))
  }
}
