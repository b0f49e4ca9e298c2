/** The save endpoint: it turns a decoded JSON record into one SQLite upsert on
    the `books` table. Every key except `id` becomes an inserted column bound to
    a placeholder of the same name; on a `bookId` conflict only the columns whose
    value is a boolean or non-empty overwrite what is stored. */
module DataSave {
  import opened Php
  import opened Http

  /** The `array_filter` callback: a boolean (false included) or a non-empty
      value overwrites the stored column. */
  predicate Overwrites(v: Value) {
    v.Bool? || !Empty(v)
  }

  /** `array_filter($dataArr, ...)`: the entries whose value overwrites, in order. */
  function UpdateEntries(es: Entries): (r: Entries)
    ensures forall p :: p in r ==> p in es && Overwrites(p.1)
    ensures forall i :: 0 <= i < |es| && Overwrites(es[i].1) ==> es[i] in r
  {
    if es == [] then []
    else (if Overwrites(es[0].1) then [es[0]] else []) + UpdateEntries(es[1..])
  }

  /** `array_map(fn($key) => ":$key", $keys)`. */
  function Placeholders(columns: seq<string>): (r: seq<string>)
  {
    seq(|columns|, i requires 0 <= i < |columns| => ":" + columns[i])
  }

  /** `array_map(fn($key) => "$key=excluded.$key", $updateKeys)`. */
  function Assignments(columns: seq<string>): (r: seq<string>)
  {
    seq(|columns|, i requires 0 <= i < |columns| => columns[i] + "=excluded." + columns[i])
  }

  /** The statement text, with the line breaks and indentation of the source. */
  function UpsertSql(insertFields: string, insertValues: string, updateSets: string): string
  {
    InsertClause(insertFields, insertValues) + ConflictClause(updateSets)
  }

  const InsertInto := "INSERT INTO books ("
  const ValuesOpen := ") \n    VALUES ("

  function InsertClause(insertFields: string, insertValues: string): string
  {
    InsertInto + (insertFields + (ValuesOpen + insertValues + ")") + " \n    ")
  }

  const ConflictOpen := "ON CONFLICT(bookId) DO UPDATE set "

  function ConflictClause(updateSets: string): string
  {
    ConflictOpen + updateSets + ";"
  }

  /** The intermediate values the script computes and the query it runs. */
  datatype Upsert = Upsert(
    params: Entries,              // `$dataArr`, also the bound parameters
    columns: seq<string>,         // `$keys`
    placeholders: seq<string>,
    updateColumns: seq<string>,   // `$updateKeys`
    assignments: seq<string>,
    insertFields: string,
    insertValues: string,
    updateSets: string,
    sql: string)

  /** The statement built from a decoded, non-empty body. */
  function BuildUpsert(data: Value): (u: Upsert)
  {
    var dataArr := Unset(ToArray(data), "id");
    var keys := Keys(dataArr);
    var updateKeys := Keys(UpdateEntries(dataArr));
    var insertFields := Implode(",", keys);
    var insertValues := Implode(",", Placeholders(keys));
    var updateSets := Implode(",", Assignments(updateKeys));
    Upsert(dataArr, keys, Placeholders(keys), updateKeys, Assignments(updateKeys),
           insertFields, insertValues, updateSets, UpsertSql(insertFields, insertValues, updateSets))
  }

  /** The whole script: the OPTIONS exit, the JSON guard, one query, and the
      answer chosen by the query's result. It runs at most one query, skips it
      only for a preflight or an empty body, and answers 200 or 400. */
  function Save(req: Request, db: Query -> DbResult): (x: Exchange<Query>)
    ensures |x.calls| <= 1
    ensures |x.calls| == 0 <==> req.verb == "OPTIONS" || Empty(req.body)
    ensures x.response.status == 200 || x.response.status == 400
    ensures x.response.status == 200 && x.calls == [] ==> req.verb == "OPTIONS"
  {
    if Preflight(req.verb).Some? then Exchange([], Preflight(req.verb).value)
    else if Empty(req.body) then Exchange([], Exit(400, "Provided body was not JSON."))
    else
      var u := BuildUpsert(req.body);
      var q := Query(u.sql, u.params);
      Exchange([q], if db(q).Failed? then Exit(400, "Failed to write data to file.") else Response(200, NoBody))
  }

  /** The decoded body has no key twice, as every PHP array and every object
      from `json_decode` has not. */
  predicate DistinctKeys(data: Value) {
    UniqueKeys(ToArray(data))
  }

  /** Every key of a filtered array is a key of the array. */
  lemma KeysOfSubset(r: Entries, es: Entries)
    requires forall p :: p in r ==> p in es
    ensures forall c :: c in Keys(r) ==> c in Keys(es)
  {
    forall c | c in Keys(r) ensures c in Keys(es) {
      var j :| 0 <= j < |r| && Keys(r)[j] == c;
      assert r[j] in es;
      var i :| 0 <= i < |es| && es[i] == r[j];
      assert Keys(es)[i] == c;
    }
  }

  /** Removing a key keeps the remaining keys unique. */
  lemma {:induction false} UnsetKeepsKeysUnique(es: Entries, k: string)
    requires UniqueKeys(es)
    ensures UniqueKeys(Unset(es, k))
  {
    if es != [] {
      var rest := Unset(es[1..], k);
      UnsetKeepsKeysUnique(es[1..], k);
      if es[0].0 != k {
        var r := [es[0]] + rest;
        assert r[1..] == rest;
        KeysOfSubset(rest, es[1..]);
      }
    }
  }

  /** The kept keys are an order-preserving subsequence of all keys. */
  lemma {:induction false} UpdateKeysAreSubsequence(es: Entries)
    ensures IsSubsequence(Keys(UpdateEntries(es)), Keys(es))
  {
    if es != [] {
      UpdateKeysAreSubsequence(es[1..]);
      assert Keys(es)[1..] == Keys(es[1..]);
      var rest := UpdateEntries(es[1..]);
      if Overwrites(es[0].1) {
        assert UpdateEntries(es) == [es[0]] + rest;
        assert Keys(UpdateEntries(es))[1..] == Keys(rest);
      } else {
        assert UpdateEntries(es) == rest;
      }
    }
  }

  /** On an array without repeated keys, a key is kept by the filter exactly
      when its value overwrites. */
  lemma {:induction false} KeptExactlyWhenOverwrites(es: Entries)
    requires UniqueKeys(es)
    ensures forall p :: p in es ==> (p.0 in Keys(UpdateEntries(es)) <==> Overwrites(p.1))
  {
    if es != [] {
      var rest := UpdateEntries(es[1..]);
      KeptExactlyWhenOverwrites(es[1..]);
      KeysOfSubset(rest, es[1..]);
      var head := if Overwrites(es[0].1) then [es[0]] else [];
      assert UpdateEntries(es) == head + rest;
      KeysAppend(head, rest);
      forall p | p in es ensures p.0 in Keys(head) + Keys(rest) <==> Overwrites(p.1) {
        if p == es[0] {
          assert p.0 !in Keys(rest);
        } else {
          var i :| 0 <= i < |es| && es[i] == p;
          assert es[1..][i - 1] == p;
          assert Keys(es[1..])[i - 1] == p.0;
        }
      }
    }
  }

  /** The keys of a concatenation are the concatenated keys. */
  lemma KeysAppend(a: Entries, b: Entries)
    ensures Keys(a + b) == Keys(a) + Keys(b)
  {
    assert forall i :: 0 <= i < |a + b| ==> Keys(a + b)[i] == (Keys(a) + Keys(b))[i];
  }

  lemma PlaceholderInjective(c: string, k: string)
    ensures ":" + c == ":" + k ==> c == k
  {
    if ":" + c == ":" + k {
      assert c == (":" + c)[1..];
      assert k == (":" + k)[1..];
    }
  }

  lemma AssignmentInjective(c: string, k: string)
    ensures c + "=excluded." + c == k + "=excluded." + k ==> c == k
  {
    if c + "=excluded." + c == k + "=excluded." + k {
      assert |c| == |k|;
      assert c == (c + "=excluded." + c)[..|c|];
      assert k == (k + "=excluded." + k)[..|k|];
    }
  }

  /** A key absent from the array has no placeholder and no SET entry. */
  lemma AbsentKeyNotWritten(params: Entries, k: string)
    requires k !in Keys(params)
    ensures forall j :: 0 <= j < |params| ==> Placeholders(Keys(params))[j] != ":" + k
    ensures k !in Keys(UpdateEntries(params))
    ensures forall j :: 0 <= j < |Keys(UpdateEntries(params))| ==>
      Assignments(Keys(UpdateEntries(params)))[j] != k + "=excluded." + k
  {
    var kept := Keys(UpdateEntries(params));
    KeysOfSubset(UpdateEntries(params), params);
    forall j | 0 <= j < |params| ensures Placeholders(Keys(params))[j] != ":" + k {
      var c := Keys(params)[j];
      assert Placeholders(Keys(params))[j] == ":" + c;
      assert c != k;
      PlaceholderInjective(c, k);
    }
    forall j | 0 <= j < |kept| ensures Assignments(kept)[j] != k + "=excluded." + k {
      var c := kept[j];
      assert Assignments(kept)[j] == c + "=excluded." + c;
      assert c != k;
      AssignmentInjective(c, k);
    }
  }

  /** The placeholder and the SET entry the key `id` would get. */
  lemma IdTexts()
    ensures ":" + "id" == ":id"
    ensures "id" + "=excluded." + "id" == "id=excluded.id"
  {
  }

  /** The key `id` is never inserted, never bound, never given a placeholder and
      never updated, even when the body supplies it. */
  lemma UpsertNeverWritesId(data: Value)
    ensures var u := BuildUpsert(data);
      && "id" !in u.columns
      && "id" !in Keys(u.params)
      && (forall j :: 0 <= j < |u.placeholders| ==> u.placeholders[j] != ":id")
      && "id" !in u.updateColumns
      && (forall j :: 0 <= j < |u.assignments| ==> u.assignments[j] != "id=excluded.id")
  {
    var params := Unset(ToArray(data), "id");
    var u := BuildUpsert(data);
    assert u.params == params && u.columns == Keys(params);
    assert u.placeholders == Placeholders(Keys(params));
    assert u.updateColumns == Keys(UpdateEntries(params));
    assert u.assignments == Assignments(u.updateColumns);
    AbsentKeyNotWritten(params, "id");
    IdTexts();
  }

  /** Columns and placeholders line up one to one, and the bound parameters have
      exactly the inserted columns as keys, so every placeholder is bound. */
  lemma PlaceholdersBindColumns(data: Value)
    ensures var u := BuildUpsert(data);
      && |u.placeholders| == |u.columns| == |u.params|
      && (forall i :: 0 <= i < |u.columns| ==> u.placeholders[i] == ":" + u.columns[i])
      && Keys(u.params) == u.columns
  {
  }

  /** The merge policy: a column is updated exactly when its value is a boolean
      or non-empty (so no stored column is overwritten with null, "", "0", 0 or
      []), each update has the form `k=excluded.k`, and the updated columns keep
      the order of the inserted ones. */
  lemma MergePolicy(data: Value)
    requires DistinctKeys(data)
    ensures var u := BuildUpsert(data);
      && (forall p :: p in u.params ==> (p.0 in u.updateColumns <==> Overwrites(p.1)))
      && (forall j :: 0 <= j < |u.assignments| ==> u.assignments[j] == u.updateColumns[j] + "=excluded." + u.updateColumns[j])
      && IsSubsequence(u.updateColumns, u.columns)
  {
    var params := Unset(ToArray(data), "id");
    UnsetKeepsKeysUnique(ToArray(data), "id");
    UpdateKeysAreSubsequence(params);
    KeptExactlyWhenOverwrites(params);
  }

  /** The SET clause is the empty string exactly when no value survives the
      filter. */
  lemma SetClauseEmptyIffNothingSurvives(data: Value)
    ensures var u := BuildUpsert(data);
      u.updateSets == "" <==> forall p :: p in u.params ==> !Overwrites(p.1)
  {
    var params := Unset(ToArray(data), "id");
    var kept := UpdateEntries(params);
    var assignments := Assignments(Keys(kept));
    forall j | 0 <= j < |assignments| ensures assignments[j] != "" {
      assert |assignments[j]| >= 10;
    }
    ImplodeEmpty(",", assignments);
    if kept != [] {
      assert kept[0] in params;
    }
  }

  /** The statement text: the insert into `books` with the column list right
      after its opening parenthesis, then the placeholder list in `VALUES (...)`,
      and, at the very end, the `bookId` conflict clause with the SET list. */
  lemma {:induction false} TemplateConflictTarget(insertFields: string, insertValues: string, updateSets: string)
    ensures var sql := UpsertSql(insertFields, insertValues, updateSets);
      && sql[..19] == "INSERT INTO books ("
      && OccursAt(sql, insertFields, |InsertInto|)
      && OccursAt(sql, ValuesOpen + insertValues + ")", |InsertInto| + |insertFields|)
      && Contains(sql, "ON CONFLICT(bookId) DO UPDATE set " + updateSets + ";")
      && OccursAt(sql, ConflictClause(updateSets), |sql| - |ConflictClause(updateSets)|)
  {
    var head := InsertClause(insertFields, insertValues);
    SplitAt(head, ConflictClause(updateSets));
    SplitAt(InsertInto, insertFields + (ValuesOpen + insertValues + ")") + " \n    ");
    assert |InsertInto| == 19;
    ConflictClauseAtEnd(insertFields, insertValues, updateSets);
    InsertLists(insertFields, insertValues, updateSets);
  }

  /** The statement ends with the conflict clause. */
  lemma ConflictClauseAtEnd(insertFields: string, insertValues: string, updateSets: string)
    ensures var sql := UpsertSql(insertFields, insertValues, updateSets);
      OccursAt(sql, ConflictClause(updateSets), |sql| - |ConflictClause(updateSets)|)
  {
    SplitAt(InsertClause(insertFields, insertValues), ConflictClause(updateSets));
  }

  /** Where the two lists sit in the statement text. */
  lemma InsertLists(insertFields: string, insertValues: string, updateSets: string)
    ensures var sql := UpsertSql(insertFields, insertValues, updateSets);
      && OccursAt(sql, insertFields, |InsertInto|)
      && OccursAt(sql, ValuesOpen + insertValues + ")", |InsertInto| + |insertFields|)
  {
    OccursInFrame(InsertInto, insertFields, ValuesOpen + insertValues + ")", " \n    ", ConflictClause(updateSets));
  }

  /** The SET list sits right after `ON CONFLICT(bookId) DO UPDATE set `, in
      the clause that ends the statement. */
  lemma SetListAtEnd(insertFields: string, insertValues: string, updateSets: string)
    ensures var sql := UpsertSql(insertFields, insertValues, updateSets);
      OccursAt(sql, updateSets, |sql| - |ConflictClause(updateSets)| + |ConflictOpen|)
  {
    var head := InsertClause(insertFields, insertValues);
    var tail := ConflictClause(updateSets);
    SplitAt(head, tail);
    assert OccursAt(head + tail, tail, |head|);
    SplitThree(ConflictOpen, updateSets, ";");
    assert OccursAt(tail, updateSets, |ConflictOpen|);
    OccursWithin(head + tail, tail, |head|, updateSets, |ConflictOpen|);
  }

  /** In `a + (f + w + t) + c`, `f` starts right after `a` and `w` right after `f`. */
  lemma OccursInFrame(a: string, f: string, w: string, t: string, c: string)
    ensures OccursAt(a + (f + w + t) + c, f, |a|)
    ensures OccursAt(a + (f + w + t) + c, w, |a| + |f|)
  {
    var x := a + (f + w + t) + c;
    SplitThree(a, f + w + t, c);
    SplitThree(f, w, t);
    assert OccursAt(x, f + w + t, |a|);
    OccursWithin(x, f + w + t, |a|, f, 0);
    OccursWithin(x, f + w + t, |a|, w, |f|);
  }

  /** Where a comma-joined list sits in a text, entry i sits at its place in
      that list. */
  lemma EntryInList(columns: seq<string>, fields: string, sql: string, start: int, i: nat)
    requires fields == Implode(",", columns) && OccursAt(sql, fields, start)
    requires i < |columns|
    ensures OccursAt(sql, columns[i], start + PartOffset(",", columns, i))
  {
    ImplodePartAt(",", columns, i);
    OccursWithin(sql, fields, start, columns[i], PartOffset(",", columns, i));
  }

  /** Where a `VALUES` list sits in a text, placeholder i sits at its place in
      that list. */
  lemma PlaceholderInStatement(placeholders: seq<string>, values: string, sql: string, start: int, i: nat)
    requires values == Implode(",", placeholders) && OccursAt(sql, ValuesOpen + values + ")", start)
    requires i < |placeholders|
    ensures OccursAt(sql, placeholders[i], start + |ValuesOpen| + PartOffset(",", placeholders, i))
  {
    var list := ValuesOpen + values + ")";
    ImplodePartAt(",", placeholders, i);
    SplitThree(ValuesOpen, values, ")");
    assert OccursAt(list, values, |ValuesOpen|);
    OccursWithin(list, values, |ValuesOpen|, placeholders[i], PartOffset(",", placeholders, i));
    OccursWithin(sql, list, start, placeholders[i], |ValuesOpen| + PartOffset(",", placeholders, i));
  }

  /** How the pieces of the upsert built from a body fit together. */
  lemma UpsertLayout(data: Value)
    ensures var u := BuildUpsert(data);
      && u.placeholders == Placeholders(u.columns)
      && u.insertFields == Implode(",", u.columns)
      && u.insertValues == Implode(",", u.placeholders)
      && u.assignments == Assignments(u.updateColumns)
      && u.updateSets == Implode(",", u.assignments)
      && u.sql == UpsertSql(u.insertFields, u.insertValues, u.updateSets)
  {
  }

  /** Column i of the statement sits at its place in the column list, and
      placeholder i, `:` plus column i, at the same place in the `VALUES`
      list. */
  predicate ListedAt(u: Upsert, i: nat)
    requires i < |u.columns| && i < |u.placeholders|
  {
    && u.placeholders[i] == ":" + u.columns[i]
    && OccursAt(u.sql, u.columns[i], |InsertInto| + PartOffset(",", u.columns, i))
    && OccursAt(u.sql, u.placeholders[i], |InsertInto| + |u.insertFields| + |ValuesOpen| + PartOffset(",", u.placeholders, i))
  }

  /** An upsert laid out as `BuildUpsert` lays it out lists every column and
      its placeholder in place. */
  lemma LaidOutListsLineUp(u: Upsert, i: nat)
    requires u.placeholders == Placeholders(u.columns)
    requires u.insertFields == Implode(",", u.columns) && u.insertValues == Implode(",", u.placeholders)
    requires u.sql == UpsertSql(u.insertFields, u.insertValues, u.updateSets)
    requires i < |u.columns|
    ensures |u.placeholders| == |u.columns| && ListedAt(u, i)
  {
    InsertLists(u.insertFields, u.insertValues, u.updateSets);
    EntryInList(u.columns, u.insertFields, u.sql, |InsertInto|, i);
    PlaceholderInStatement(u.placeholders, u.insertValues, u.sql, |InsertInto| + |u.insertFields|, i);
  }

  /** The statement run for a body lists column i at its place in the column
      list and placeholder i, `:` plus column i, at the same place in the
      `VALUES` list. */
  lemma StatementListsColumns(data: Value, i: nat)
    requires i < |BuildUpsert(data).columns|
    ensures |BuildUpsert(data).placeholders| == |BuildUpsert(data).columns|
    ensures ListedAt(BuildUpsert(data), i)
  {
    UpsertLayout(data);
    LaidOutListsLineUp(BuildUpsert(data), i);
  }

  /** SET entry j, `k=excluded.k` for update column j, sits at its place in
      the SET list of the clause that ends the statement. */
  predicate SetEntryAt(u: Upsert, j: nat)
    requires j < |u.updateColumns| && j < |u.assignments|
  {
    && u.assignments[j] == u.updateColumns[j] + "=excluded." + u.updateColumns[j]
    && OccursAt(u.sql, u.assignments[j],
                |u.sql| - |ConflictClause(u.updateSets)| + |ConflictOpen| + PartOffset(",", u.assignments, j))
  }

  /** Where the SET list sits at the end of the statement, every update
      column's SET entry sits at its place in it. */
  lemma SetEntryInList(u: Upsert, j: nat)
    requires u.assignments == Assignments(u.updateColumns) && u.updateSets == Implode(",", u.assignments)
    requires OccursAt(u.sql, u.updateSets, |u.sql| - |ConflictClause(u.updateSets)| + |ConflictOpen|)
    requires j < |u.updateColumns|
    ensures |u.assignments| == |u.updateColumns| && SetEntryAt(u, j)
  {
    AssignmentAt(u.updateColumns, j);
    EntryInList(u.assignments, u.updateSets, u.sql, |u.sql| - |ConflictClause(u.updateSets)| + |ConflictOpen|, j);
  }

  /** An upsert laid out as `BuildUpsert` lays it out writes every update
      column's SET entry in place. */
  lemma LaidOutSetLinesUp(u: Upsert, j: nat)
    requires u.assignments == Assignments(u.updateColumns) && u.updateSets == Implode(",", u.assignments)
    requires u.sql == UpsertSql(u.insertFields, u.insertValues, u.updateSets)
    requires j < |u.updateColumns|
    ensures |u.assignments| == |u.updateColumns| && SetEntryAt(u, j)
  {
    SetListAtEnd(u.insertFields, u.insertValues, u.updateSets);
    SetEntryInList(u, j);
  }

  /** SET entry j is `k=excluded.k` for column j. */
  lemma AssignmentAt(columns: seq<string>, j: nat)
    requires j < |columns|
    ensures |Assignments(columns)| == |columns|
    ensures Assignments(columns)[j] == columns[j] + "=excluded." + columns[j]
  {
  }

  /** The statement run for a body writes `k=excluded.k` for update column j
      at its place in the SET list at the end of the statement. */
  lemma StatementListsSetEntries(data: Value, j: nat)
    requires j < |BuildUpsert(data).updateColumns|
    ensures |BuildUpsert(data).assignments| == |BuildUpsert(data).updateColumns|
    ensures SetEntryAt(BuildUpsert(data), j)
  {
    UpsertLayout(data);
    LaidOutSetLinesUp(BuildUpsert(data), j);
  }

  /** Whatever the body, the statement text opens with the insert into `books`
      and ends with the `ON CONFLICT(bookId)` clause and its SET list. */
  lemma ConflictTargetIsBookId(data: Value)
    ensures var u := BuildUpsert(data);
      && u.sql[..19] == "INSERT INTO books ("
      && Contains(u.sql, "ON CONFLICT(bookId) DO UPDATE set " + u.updateSets + ";")
      && OccursAt(u.sql, ConflictClause(u.updateSets), |u.sql| - |ConflictClause(u.updateSets)|)
  {
    var u := BuildUpsert(data);
    TemplateConflictTarget(u.insertFields, u.insertValues, u.updateSets);
  }

  /** An OPTIONS request is answered with an empty 200 and runs no query,
      whatever its body. */
  lemma SavePreflight(req: Request, db: Query -> DbResult)
    requires req.verb == "OPTIONS"
    ensures Save(req, db) == Exchange([], Response(200, NoBody))
  {
  }

  /** What the `(array)` cast and `unset` make of the body: an object or array
      gives its own entries without `id`; a scalar gives the single column `0`,
      updated on conflict exactly when the scalar overwrites. */
  lemma BodyColumns(data: Value)
    ensures data.Obj? ==> forall p :: p in BuildUpsert(data).params <==> p in data.props && p.0 != "id"
    ensures data.Arr? ==> forall p :: p in BuildUpsert(data).params <==> p in data.entries && p.0 != "id"
    ensures data.Bool? || data.Int? || data.Str? ==>
      && BuildUpsert(data).params == [("0", data)]
      && BuildUpsert(data).columns == ["0"]
      && BuildUpsert(data).updateColumns == if Overwrites(data) then ["0"] else []
  {
    if data.Bool? || data.Int? || data.Str? {
      var params := [("0", data)];
      assert Unset(ToArray(data), "id") == params;
      assert UpdateEntries(params) == (if Overwrites(data) then params else []) + UpdateEntries([]);
    }
  }

  /** An empty or non-JSON body (null, false, 0, "", "0", []) is answered with
      400 and no query is run. */
  lemma EmptyBodyRejected(req: Request, db: Query -> DbResult)
    requires req.verb != "OPTIONS"
    requires req.body in {Null, Bool(false), Int(0), Str(""), Str("0"), Arr([])}
    ensures Save(req, db) == Exchange([], Exit(400, "Provided body was not JSON."))
  {
  }

  /** An object is never empty to PHP, so `{}`, or a body holding only `id`,
      passes the JSON guard and yields a statement with no columns and an empty
      SET clause; what happens next is up to the database. */
  lemma NoColumnObjectStillQueries(req: Request, db: Query -> DbResult, id: Value)
    requires req.verb != "OPTIONS"
    requires req.body == Obj([]) || req.body == Obj([("id", id)])
    ensures Save(req, db).calls == [Query(UpsertSql("", "", ""), [])]
  {
    var u := BuildUpsert(req.body);
    assert u.params == [];
    assert u.columns == [] && u.updateColumns == [];
    assert u.insertFields == "" && u.insertValues == "" && u.updateSets == "";
  }

  /** Any other body leads to exactly one query, the upsert; the answer is 400
      exactly when the query result is not an array. */
  lemma OneUpsertPerSave(req: Request, db: Query -> DbResult)
    requires req.verb != "OPTIONS" && !Empty(req.body)
    ensures var x := Save(req, db);
      && |x.calls| == 1
      && x.calls[0].sql == BuildUpsert(req.body).sql
      && x.calls[0].params == BuildUpsert(req.body).params
      && (x.response.status == 400 <==> db(x.calls[0]).Failed?)
      && (x.response.status == 400 ==> x.response.body == Text("Failed to write data to file."))
  {
  }
}
