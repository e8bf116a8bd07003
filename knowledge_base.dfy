/** The two retrieval paths of `KnowledgeBase` in slack-knowledge-assistant.py:
    the wiki search with its content filter, and the generated-SQL path with
    its prefix gate, row construction and row filter. */
module KnowledgeBase {
  import opened Wrappers
  import opened Text
  import opened Seqs
  import opened ContentFilter

  // ---------------------------------------------------------------- wiki

  /** The result count the wiki provider is asked for. */
  const SearchLimit: nat := 5

  /** One raw item of the provider's result list, as a dictionary: a missing
      key reads as None, and a missing `_links` as an empty dictionary. */
  datatype WikiResult = WikiResult(
    title: Option<string>,
    excerpt: Option<string>,
    content: Option<string>,
    links: map<string, string>)

  /** The record emitted for a kept result. */
  datatype Excerpt = Excerpt(title: Option<string>, excerpt: Option<string>, url: Option<string>)

  /** The wiki provider: `confluence.search(query, limit=...)`; None when the call raises. */
  type WikiSearch = (string, nat) -> Option<seq<WikiResult>>

  /** `{'title': ..., 'excerpt': ..., 'url': result.get('_links', {}).get('webui')}`. */
  function ToExcerpt(r: WikiResult): (e: Excerpt)
    ensures e.title == r.title && e.excerpt == r.excerpt
    ensures e.url.Some? <==> "webui" in r.links
    ensures e.url.Some? ==> e.url.value == r.links["webui"]
  {
    Excerpt(r.title, r.excerpt, if "webui" in r.links then Some(r.links["webui"]) else None)
  }

  /** The filter looks at `content` only, reading a missing one as the empty text. */
  ghost predicate SafeResult(r: WikiResult) {
    Safe(r.content.GetOr(""))
  }

  /** What `search_confluence` returns for the provider's list. */
  ghost function KeptExcerpts(results: seq<WikiResult>): seq<Excerpt> {
    FilterMap(results, SafeResult, ToExcerpt)
  }

  /** `search_confluence`: asks the provider for at most `SearchLimit` results
      and keeps, in order, those whose content is safe. A raising provider
      call is not caught here. */
  method SearchConfluence(query: string, provider: WikiSearch) returns (found: Result<seq<Excerpt>>)
    ensures provider(query, SearchLimit).None? ==> found == Raised
    ensures provider(query, SearchLimit).Some? ==>
      found == Ok(KeptExcerpts(provider(query, SearchLimit).value))
  {
    var response := provider(query, SearchLimit);
    if response.None? {
      return Raised;
    }
    var results := response.value;
    var filtered: seq<Excerpt> := [];
    for i := 0 to |results|
      invariant filtered == KeptExcerpts(results[..i])
    {
      assert results[..i + 1][..i] == results[..i];
      var result := results[i];
      var safe := IsSafeContent(result.content.GetOr(""));
      if safe {
        filtered := filtered + [ToExcerpt(result)];
      }
    }
    assert results[..|results|] == results;
    return Ok(filtered);
  }

  /** The wiki output is an order-preserving subsequence of the provider's
      list: the k-th excerpt is built from the result at the k-th selected
      position, and a position is selected exactly when its content is safe. */
  lemma KeptExcerptsAreSafeSubsequence(results: seq<WikiResult>)
    ensures var ix := Selected(results, SafeResult);
      && |KeptExcerpts(results)| == |ix|
      && StrictlyIncreasing(ix)
      && (forall k :: 0 <= k < |ix| ==>
            ix[k] < |results| && KeptExcerpts(results)[k] == ToExcerpt(results[ix[k]]))
      && (forall i :: 0 <= i < |results| ==> (i in ix <==> SafeResult(results[i])))
  {
    FilterMapIsSubsequence(results, SafeResult, ToExcerpt);
  }

  /** A provider that honours the limit yields at most `SearchLimit` excerpts. */
  lemma KeptExcerptsWithinLimit(results: seq<WikiResult>)
    requires |results| <= SearchLimit
    ensures |KeptExcerpts(results)| <= SearchLimit
  {
  }

  /** A single result with safe content comes out as its excerpt record. */
  lemma SingleSafeResultKept(r: WikiResult)
    requires SafeResult(r)
    ensures KeptExcerpts([r]) == [ToExcerpt(r)]
  {
    assert [r][..0] == [];
  }

  /** A result without `content` is kept whatever its excerpt says: the
      excerpt that is shown is never checked. */
  lemma ExcerptIsNotChecked(r: WikiResult)
    requires r.content.None?
    ensures SafeResult(r) && KeptExcerpts([r]) == [ToExcerpt(r)]
  {
    SafeShortText("");
    SingleSafeResultKept(r);
  }

  // ---------------------------------------------------------------- database

  /** A stored value, as its `str()` text. */
  type Value = string

  /** A row as the dictionary `dict(zip(columns, row))`. */
  type Record = map<string, Value>

  /** What running one statement gives: an error raised by `execute`,
      `description` or `fetchall`, or the column names and the rows. */
  datatype Execution = ExecFailed | Rows(columns: seq<string>, rows: seq<seq<Value>>)

  /** The relational store: whether a connection can be opened, and the
      outcome of executing each statement. */
  datatype Database = Database(connects: bool, run: string -> Execution)

  /** The oracle that turns the question and the allowed tables into SQL text;
      None when the call raises. */
  type Translator = (string, seq<string>) -> Option<string>

  function Min(a: nat, b: nat): nat {
    if a <= b then a else b
  }

  /** `dict(pairs)` for the pairs `cs[i]: vs[i]`, inserted in order. */
  function Dict(cs: seq<string>, vs: seq<Value>): Record
    requires |cs| == |vs|
  {
    if cs == [] then map[]
    else Dict(cs[..|cs| - 1], vs[..|vs| - 1])[cs[|cs| - 1] := vs[|vs| - 1]]
  }

  /** Every name is a key of the dictionary, nothing else is, and a name that
      repeats keeps the value of its last occurrence. */
  lemma {:induction false} DictContents(cs: seq<string>, vs: seq<Value>)
    requires |cs| == |vs|
    ensures var r := Dict(cs, vs);
      && (forall i :: 0 <= i < |cs| ==> cs[i] in r)
      && (forall c :: c in r ==> c in cs)
      && (forall i :: 0 <= i < |cs| && cs[i] !in cs[i + 1..] ==> r[cs[i]] == vs[i])
  {
    if cs != [] {
      var n := |cs| - 1;
      var init, vinit := cs[..n], vs[..n];
      DictContents(init, vinit);
      var r := Dict(cs, vs);
      forall i | 0 <= i < |cs| && cs[i] !in cs[i + 1..] ensures r[cs[i]] == vs[i] {
        if i < n {
          assert cs[i + 1..] == init[i + 1..] + [cs[n]];
          assert init[i] == cs[i] && vinit[i] == vs[i];
        }
      }
      forall c | c in r ensures c in cs {
        if c != cs[n] { assert c in init; }
      }
      forall i | 0 <= i < |cs| ensures cs[i] in r {
        if i < n { assert init[i] == cs[i]; }
      }
    }
  }

  /** `dict(zip(columns, row))`: zip stops at the shorter of the two lists. */
  function RowRecord(columns: seq<string>, row: seq<Value>): Record {
    var n := Min(|columns|, |row|);
    Dict(columns[..n], row[..n])
  }

  /** A row passes when the `str()` of every value of its dictionary is safe. */
  ghost predicate RecordSafe(r: Record) {
    forall c :: c in r ==> Safe(r[c])
  }

  /** The rows `query_database` keeps, as dictionaries, in executor order. */
  ghost function SafeRecords(columns: seq<string>, rows: seq<seq<Value>>): seq<Record> {
    FilterMap(rows, row => RecordSafe(RowRecord(columns, row)), row => RowRecord(columns, row))
  }

  /** The validation of the generated SQL: after stripping, lowercase, it must
      start with `select`. Nothing else is looked at. */
  predicate Accepts(completion: string) {
    StartsWith(Lower(Strip(completion)), Keyword)
  }

  /** The one keyword a statement may start with. */
  const Keyword: string := "select"

  /** What `query_database` returns for the oracle's SQL text: nothing for a
      rejected statement or a failed execution, the safe rows otherwise; a
      failure to connect is not caught and propagates. */
  ghost function DatabaseAnswer(completion: string, db: Database): Result<seq<Record>> {
    if !Accepts(completion) then Ok([])
    else if !db.connects then Raised
    else
      match db.run(Strip(completion))
      case ExecFailed => Ok([])
      case Rows(columns, rows) => Ok(SafeRecords(columns, rows))
  }

  /** `all(is_safe_content(str(value)) for value in result.values())`. */
  method AllValuesSafe(r: Record) returns (ok: bool)
    ensures ok <==> RecordSafe(r)
  {
    var pending := r.Keys;
    while pending != {}
      invariant pending <= r.Keys
      invariant forall c :: c in r && c !in pending ==> Safe(r[c])
      decreases |pending|
    {
      var c :| c in pending;
      var safe := IsSafeContent(r[c]);
      if !safe {
        return false;
      }
      pending := pending - {c};
    }
    return true;
  }

  /** One more row scanned: the kept list grows by that row's dictionary
      exactly when all its values are safe. */
  lemma SafeRecordsStep(columns: seq<string>, rows: seq<seq<Value>>, i: nat)
    requires i < |rows|
    ensures SafeRecords(columns, rows[..i + 1])
         == SafeRecords(columns, rows[..i])
          + (if RecordSafe(RowRecord(columns, rows[i])) then [RowRecord(columns, rows[i])] else [])
  {
    assert rows[..i + 1][..i] == rows[..i];
  }

  /** `query_database`: translate the question, strip the text, gate it, and
      only then connect and execute it; build each row's dictionary and keep
      the rows whose values are all safe. `executed` is the statement handed
      to the executor, if any. */
  method QueryDatabase(question: string, allowedTables: seq<string>, translate: Translator, db: Database)
    returns (records: Result<seq<Record>>, executed: Option<string>)
    ensures translate(question, allowedTables).None? ==> records == Raised && executed == None
    ensures translate(question, allowedTables).Some? ==>
      var completion := translate(question, allowedTables).value;
      && records == DatabaseAnswer(completion, db)
      && executed == (if Accepts(completion) && db.connects then Some(Strip(completion)) else None)
  {
    var response := translate(question, allowedTables);
    if response.None? {
      return Raised, None;
    }
    var sqlQuery := Strip(response.value);
    if !StartsWith(Lower(sqlQuery), Keyword) {
      return Ok([]), None;
    }
    if !db.connects {
      return Raised, None;
    }
    executed := Some(sqlQuery);
    var execution := db.run(sqlQuery);
    if execution.ExecFailed? {
      return Ok([]), executed;
    }
    var columns, rows := execution.columns, execution.rows;
    var results: seq<Record> := [];
    for i := 0 to |rows|
      invariant results == SafeRecords(columns, rows[..i])
    {
      SafeRecordsStep(columns, rows, i);
      var result := RowRecord(columns, rows[i]);
      var keep := AllValuesSafe(result);
      if keep {
        results := results + [result];
      }
    }
    assert rows[..|rows|] == rows;
    return Ok(results), executed;
  }

  /** zip truncates: the row's dictionary has the names of the first
      `Min(|columns|, |row|)` columns as keys, and each name maps to the value
      of its last occurrence among them. */
  lemma RowRecordContents(columns: seq<string>, row: seq<Value>)
    ensures var n := Min(|columns|, |row|); var r := RowRecord(columns, row);
      && (forall i :: 0 <= i < n ==> columns[i] in r)
      && (forall c :: c in r ==> c in columns[..n])
      && (forall i :: 0 <= i < n && columns[i] !in columns[i + 1..n] ==> r[columns[i]] == row[i])
  {
    var n := Min(|columns|, |row|);
    DictContents(columns[..n], row[..n]);
  }

  /** The row filter keeps exactly the rows whose every value is safe, in
      executor order, each as its unchanged dictionary; a row with one unsafe
      value is dropped whole, and column names play no part. */
  lemma SafeRecordsExactly(columns: seq<string>, rows: seq<seq<Value>>)
    ensures var keep := (row: seq<Value>) => RecordSafe(RowRecord(columns, row));
      var ix := Selected(rows, keep);
      && |SafeRecords(columns, rows)| == |ix|
      && StrictlyIncreasing(ix)
      && (forall k :: 0 <= k < |ix| ==>
            ix[k] < |rows| && SafeRecords(columns, rows)[k] == RowRecord(columns, rows[ix[k]]))
      && (forall i :: 0 <= i < |rows| ==> (i in ix <==> RecordSafe(RowRecord(columns, rows[i]))))
  {
    FilterMapIsSubsequence(rows, (row: seq<Value>) => RecordSafe(RowRecord(columns, row)),
                           (row: seq<Value>) => RowRecord(columns, row));
  }

  /** Nothing `query_database` returns holds an unsafe value. */
  lemma DatabaseAnswerIsSafe(completion: string, db: Database)
    ensures DatabaseAnswer(completion, db).Ok? ==>
      forall r :: r in DatabaseAnswer(completion, db).value ==> RecordSafe(r)
  {
    if Accepts(completion) && db.connects && db.run(Strip(completion)).Rows? {
      var ex := db.run(Strip(completion));
      SafeRecordsExactly(ex.columns, ex.rows);
    }
  }

  /** A rejected statement never reaches the store: the answer is the empty
      list whatever the store would have done. */
  lemma RejectedIgnoresDatabase(completion: string, db1: Database, db2: Database)
    requires !Accepts(completion)
    ensures DatabaseAnswer(completion, db1) == DatabaseAnswer(completion, db2) == Ok([])
  {
  }

  /** The gate accepts any text that is whitespace, then `select` in any case,
      then anything at all. */
  lemma AcceptsPadded(ws: string, kw: string, rest: string)
    requires AllSpace(ws) && Lower(kw) == Keyword
    ensures Accepts(ws + kw + rest)
  {
    assert |kw| == 6;
    assert LowerChar(kw[0]) == 's' && LowerChar(kw[5]) == 't';
    StripKeepsWord(ws, kw, rest);
    var r := Strip(ws + kw + rest);
    assert Lower(r)[..6] == Lower(kw);
  }

  /** Conversely, accepted text is whitespace followed by `select` in some case. */
  lemma {:induction false} AcceptedShape(q: string) returns (n: nat)
    requires Accepts(q)
    ensures n + 6 <= |q| && AllSpace(q[..n]) && Lower(q[n..n + 6]) == Keyword
  {
    n := LeadingSpaces(q);
    var r := Strip(q);
    assert r[..6] == q[n..n + 6];
    assert Lower(r)[..6] == Lower(r[..6]);
  }

  /** Text whose first character is neither whitespace nor `s`/`S` is rejected. */
  lemma RejectsOtherFirst(q: string)
    requires q != [] && !IsSpace(q[0]) && LowerChar(q[0]) != 's'
    ensures !Accepts(q)
  {
    if Accepts(q) {
      var n := AcceptedShape(q);
    }
  }

  /** A destructive statement is rejected. */
  lemma RejectsDrop()
    ensures !Accepts("DROP TABLE users;")
    ensures forall db :: DatabaseAnswer("DROP TABLE users;", db) == Ok([])
  {
    RejectsOtherFirst("DROP TABLE users;");
  }

  // The literal arrives through a parameter fixed by `requires`, which keeps Dafny from evaluating functions of it eagerly.
  lemma LowerOfUpperKeyword(kw: string)
    requires kw == "SELECT"
    ensures Lower(kw) == Keyword
  {
  }

  /** Leading whitespace and upper case do not matter: `  SELECT name FROM staff`
      is accepted. */
  // The literal arrives through a parameter fixed by `requires`, which keeps Dafny from evaluating functions of it eagerly.
  lemma AcceptsUpperCase(ws: string, kw: string, rest: string)
    requires ws == "  " && kw == "SELECT" && rest == " name FROM staff"
    ensures Accepts(ws + kw + rest)
  {
    LowerOfUpperKeyword(kw);
    AcceptsPadded(ws, kw, rest);
  }

  /** A chained statement behind a `select` prefix gets through, as in
      `selectx; DROP TABLE users`: the gate is a prefix check only. */
  // The literal arrives through a parameter fixed by `requires`, which keeps Dafny from evaluating functions of it eagerly.
  lemma AcceptsChained(kw: string, rest: string)
    requires kw == Keyword && rest == "x; DROP TABLE users"
    ensures Accepts(kw + rest)
  {
    assert [] + kw + rest == kw + rest;
    AcceptsPadded([], kw, rest);
  }

  /** A row with only safe values passes whole. */
  lemma SingleSafeRowKept(columns: seq<string>, row: seq<Value>)
    requires RecordSafe(RowRecord(columns, row))
    ensures SafeRecords(columns, [row]) == [RowRecord(columns, row)]
  {
    assert [row][..0] == [];
  }

  // The literal arrives through a parameter fixed by `requires`, which keeps Dafny from evaluating functions of it eagerly.
  lemma NameAndIdRecord(columns: seq<string>, row: seq<Value>)
    requires columns == ["name", "ssn"] && row == ["Alice", "123-45-6789"]
    ensures RowRecord(columns, row) == map["name" := "Alice", "ssn" := "123-45-6789"]
  {
    assert columns[..2] == columns && row[..2] == row;
    assert columns[..1] == ["name"] && row[..1] == ["Alice"];
    assert Dict(columns[..1], row[..1]) == map["name" := "Alice"];
  }

  /** Column names are never checked: the row `{name: "Alice", ssn: "123-45-6789"}`
      is returned unchanged, since neither value holds a blocked word. */
  lemma ColumnNamesNotChecked()
    ensures SafeRecords(["name", "ssn"], [["Alice", "123-45-6789"]])
         == [map["name" := "Alice", "ssn" := "123-45-6789"]]
  {
    NameAndIdRecord(["name", "ssn"], ["Alice", "123-45-6789"]);
    SafeName();
    SafeIdNumber("123-45-6789");
    SingleSafeRowKept(["name", "ssn"], ["Alice", "123-45-6789"]);
  }

  // The literal arrives through a parameter fixed by `requires`, which keeps Dafny from evaluating functions of it eagerly.
  lemma RepeatedColumnRecord(columns: seq<string>, row: seq<Value>)
    requires columns == ["note", "note"] && row == ["password", "ok"]
    ensures RowRecord(columns, row) == map["note" := "ok"]
  {
    assert columns[..2] == columns && row[..2] == row;
    assert columns[..1] == ["note"] && row[..1] == ["password"];
    assert Dict(columns[..1], row[..1]) == map["note" := "password"];
  }

  /** With a repeated column name only the last value is in the dictionary, so
      an unsafe value under the same name earlier in the row is never checked. */
  lemma RepeatedColumnHidesValue()
    ensures SafeRecords(["note", "note"], [["password", "ok"]]) == [map["note" := "ok"]]
  {
    RepeatedColumnRecord(["note", "note"], ["password", "ok"]);
    SafeShortText("ok");
    SingleSafeRowKept(["note", "note"], ["password", "ok"]);
  }
}
