/** The load endpoint: past the credential gate it runs exactly one SELECT on
    the `books` table, chosen by a fixed priority among the `bookId`,
    `seriesId` and `postId` query parameters, and answers with the rows as
    JSON or with 400 when the database gives nothing back. */
module DataLoad {
  import opened Php
  import opened Http
  import Auth

  /** Which rows are asked for. */
  datatype Lookup = ByBook(id: string) | BySeries(id: string) | ByPost(id: string) | AllBooks

  /** The if/elseif chain over `$_GET[name] ?? ''`: the first non-empty
      parameter among bookId, seriesId and postId decides; with none, every row. Note that "0" is
      empty to PHP, so `bookId=0` falls through to the next parameter. */
  function Select(query: map<string, string>): (l: Lookup)
    ensures l.ByBook? <==> !EmptyString(QueryParam(query, "bookId", ""))
    ensures l.BySeries? <==> EmptyString(QueryParam(query, "bookId", ""))
                             && !EmptyString(QueryParam(query, "seriesId", ""))
    ensures l.ByPost? <==> EmptyString(QueryParam(query, "bookId", ""))
                           && EmptyString(QueryParam(query, "seriesId", ""))
                           && !EmptyString(QueryParam(query, "postId", ""))
    ensures l.AllBooks? <==> EmptyString(QueryParam(query, "bookId", ""))
                             && EmptyString(QueryParam(query, "seriesId", ""))
                             && EmptyString(QueryParam(query, "postId", ""))
    ensures l.ByBook? ==> l.id == QueryParam(query, "bookId", "")
    ensures l.BySeries? ==> l.id == QueryParam(query, "seriesId", "")
    ensures l.ByPost? ==> l.id == QueryParam(query, "postId", "")
  {
    var bookId := QueryParam(query, "bookId", "");
    var seriesId := QueryParam(query, "seriesId", "");
    var postId := QueryParam(query, "postId", "");
    if !EmptyString(bookId) then ByBook(bookId)
    else if !EmptyString(seriesId) then BySeries(seriesId)
    else if !EmptyString(postId) then ByPost(postId)
    else AllBooks
  }

  /** The statement and parameters for each lookup. */
  function Statement(l: Lookup): (q: Query)
  {
    match l
    case ByBook(id) => Query("SELECT * FROM books WHERE bookId=:id;", [("id", Str(id))])
    case BySeries(id) => Query("SELECT * FROM books WHERE seriesId=:id;", [("id", Str(id))])
    case ByPost(id) => Query("SELECT * FROM books WHERE postId=:id;", [("id", Str(id))])
    case AllBooks => Query("SELECT * FROM books;", [])
  }

  /** The whole script: the gate, one query, and the answer. A query runs
      exactly when the gate lets the request through, and never more than one. */
  function Load(req: Request, account: Value, sha256: string -> string, db: Query -> DbResult): (x: Exchange<Query>)
    ensures |x.calls| <= 1
    ensures |x.calls| == 1 <==> Auth.Check(req, account, sha256) == Auth.Proceed
  {
    match Auth.Check(req, account, sha256)
    case Halt(r) => Exchange([], r)
    case Proceed =>
      var q := Statement(Select(req.query));
      var result := db(q);
      Exchange([q], if result.Failed? then Exit(400, "Failed to open database.")
                    else Response(200, JsonRows(result.rows)))
  }

  /** Different lookups give different queries, so the query run tells which
      parameter was used and with what value. */
  lemma StatementInjective(l1: Lookup, l2: Lookup)
    requires Statement(l1) == Statement(l2)
    ensures l1 == l2
  {
    var q1, q2 := Statement(l1), Statement(l2);
    assert |q1.sql| == |q2.sql|;
    if l1.ByBook? || l1.BySeries? || l1.ByPost? {
      assert q1.sql[26] == q2.sql[26];
      assert q1.params[0].1 == q2.params[0].1;
    }
  }

  /** A non-empty bookId selects by bookId whatever the other parameters are. */
  lemma BookIdOverridesOthers(query1: map<string, string>, query2: map<string, string>)
    requires QueryParam(query1, "bookId", "") == QueryParam(query2, "bookId", "")
    requires !EmptyString(QueryParam(query1, "bookId", ""))
    ensures Statement(Select(query1)) == Statement(Select(query2))
      == Query("SELECT * FROM books WHERE bookId=:id;", [("id", Str(QueryParam(query1, "bookId", "")))])
  {
  }

  /** seriesId is used only when bookId is empty, and then whatever postId is. */
  lemma SeriesIdOnlyWithoutBookId(query1: map<string, string>, query2: map<string, string>)
    requires QueryParam(query1, "seriesId", "") == QueryParam(query2, "seriesId", "")
    requires !EmptyString(QueryParam(query1, "seriesId", ""))
    requires EmptyString(QueryParam(query1, "bookId", "")) && EmptyString(QueryParam(query2, "bookId", ""))
    ensures Statement(Select(query1)) == Statement(Select(query2))
      == Query("SELECT * FROM books WHERE seriesId=:id;", [("id", Str(QueryParam(query1, "seriesId", "")))])
  {
  }

  /** postId is used only when bookId and seriesId are both empty, and then
      with its own value. */
  lemma PostIdOnlyWithoutOthers(query: map<string, string>)
    requires EmptyString(QueryParam(query, "bookId", "")) && EmptyString(QueryParam(query, "seriesId", ""))
    requires !EmptyString(QueryParam(query, "postId", ""))
    ensures Statement(Select(query))
      == Query("SELECT * FROM books WHERE postId=:id;", [("id", Str(QueryParam(query, "postId", "")))])
  {
  }

  /** A query filtering by seriesId or postId is only ever run when the
      higher-priority parameters are empty. */
  lemma LowerPriorityOnlyWhenHigherEmpty(query: map<string, string>)
    ensures Statement(Select(query)).sql == "SELECT * FROM books WHERE seriesId=:id;"
      ==> EmptyString(QueryParam(query, "bookId", ""))
    ensures Statement(Select(query)).sql == "SELECT * FROM books WHERE postId=:id;"
      ==> EmptyString(QueryParam(query, "bookId", "")) && EmptyString(QueryParam(query, "seriesId", ""))
  {
    var l := Select(query);
    if l.ByBook? || l.ByPost? {
      assert Statement(l).sql[26] != 's';
    }
    if l.ByBook? || l.BySeries? {
      assert Statement(l).sql[26] != 'p';
    }
  }

  /** With all three parameters missing or empty, every row is selected. */
  lemma NoParameterSelectsAll(query: map<string, string>)
    requires "bookId" !in query || EmptyString(query["bookId"])
    requires "seriesId" !in query || EmptyString(query["seriesId"])
    requires "postId" !in query || EmptyString(query["postId"])
    ensures Statement(Select(query)) == Query("SELECT * FROM books;", [])
  {
  }

  /** Past the gate exactly one query is run; a false result is answered with
      400, anything else with the rows as JSON. */
  lemma OneQueryPerLoad(req: Request, account: Value, sha256: string -> string, db: Query -> DbResult)
    requires Auth.Check(req, account, sha256) == Auth.Proceed
    ensures var x := Load(req, account, sha256, db);
      && x.calls == [Statement(Select(req.query))]
      && (db(x.calls[0]).Failed? ==> x.response == Exit(400, "Failed to open database."))
      && (db(x.calls[0]).Rows? ==> x.response == Response(200, JsonRows(db(x.calls[0]).rows)))
  {
  }

  /** When the gate answers, no query is run and its answer is the response. */
  lemma GateAnswersWithoutQuery(req: Request, account: Value, sha256: string -> string, db: Query -> DbResult)
    requires Auth.Check(req, account, sha256).Halt?
    ensures Load(req, account, sha256, db) == Exchange([], Auth.Check(req, account, sha256).response)
  {
  }
}
