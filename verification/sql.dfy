/** `SQLExecutor` (databricks_ops/sql.py): running a SQL script statement by
    statement, and shaping query results into rows of column -> value.
    The warehouse's answer to each statement is an input: `succeeds(i)` says
    whether `execute_statement` returned a response for the i-th statement. */
module SqlExecutor {
  import opened Wrappers
  import opened Strings
  import opened Templates

  // ---------------------------------------------------------------------------
  // Splitting a script into statements
  // ---------------------------------------------------------------------------

  /** The stripped, non-blank pieces, in order. */
  function NonBlankStripped(pieces: seq<string>): (stmts: seq<string>)
    requires forall i :: 0 <= i < |pieces| ==> ';' !in pieces[i]
    ensures |stmts| <= |pieces|
    ensures forall i :: 0 <= i < |stmts| ==> |stmts[i]| > 0 && IsStripped(stmts[i]) && ';' !in stmts[i]
  {
    if |pieces| == 0 then []
    else
      var s := Strip(pieces[0]);
      var rest := NonBlankStripped(pieces[1..]);
      if |s| == 0 then rest
      else
        StripKeepsCharacters(pieces[0]);
        [s] + rest
  }

  lemma {:induction false} NonBlankStrippedAppend(a: seq<string>, b: seq<string>)
    requires forall i :: 0 <= i < |a| ==> ';' !in a[i]
    requires forall i :: 0 <= i < |b| ==> ';' !in b[i]
    ensures NonBlankStripped(a + b) == NonBlankStripped(a) + NonBlankStripped(b)
    decreases |a|
  {
    if |a| == 0 {
      assert a + b == b;
    } else {
      assert (a + b)[0] == a[0];
      assert (a + b)[1..] == a[1..] + b;
      NonBlankStrippedAppend(a[1..], b);
    }
  }

  /** The pieces of a script split at `;` never contain `;`. */
  lemma PiecesHaveNoSemicolon(sql: string)
    ensures forall i :: 0 <= i < |Split(sql, ";")| ==> ';' !in Split(sql, ";")[i]
  {
    var pieces := Split(sql, ";");
    SplitPiecesAvoidSeparator(sql, ";");
    forall i | 0 <= i < |pieces|
      ensures ';' !in pieces[i]
    {
      ContainsChar(pieces[i], ';');
    }
  }

  /** The statements of a script (the list comprehension in
      `execute_sql_file`): every statement is non-empty, has no surrounding
      whitespace and holds no `;`. */
  function SplitStatements(sql: string): (stmts: seq<string>)
    ensures forall i :: 0 <= i < |stmts| ==> |stmts[i]| > 0 && IsStripped(stmts[i]) && ';' !in stmts[i]
  {
    PiecesHaveNoSemicolon(sql);
    NonBlankStripped(Split(sql, ";"))
  }

  /** The split is naive and keeps source order: a `;` anywhere, inside a
      string literal or a comment included, ends one statement, and the
      statements of the two sides follow each other. */
  lemma SplitStatementsAtSemicolon(a: string, b: string)
    ensures SplitStatements(a + ";" + b) == SplitStatements(a) + SplitStatements(b)
  {
    SplitAtChar(a, ';', b);
    PiecesHaveNoSemicolon(a);
    PiecesHaveNoSemicolon(b);
    NonBlankStrippedAppend(Split(a, ";"), Split(b, ";"));
  }

  /** A text without `;` is one statement, its stripped self, unless blank. */
  lemma SplitStatementsWithoutSemicolon(sql: string)
    requires ';' !in sql
    ensures SplitStatements(sql) == if |Strip(sql)| == 0 then [] else [Strip(sql)]
  {
    ContainsChar(sql, ';');
    SplitCount(sql, ";");
    JoinSplit(sql, ";");
    var pieces := Split(sql, ";");
    assert pieces == [sql];
    assert pieces[1..] == [];
  }

  // ---------------------------------------------------------------------------
  // Executing a script
  // ---------------------------------------------------------------------------

  /** The statements run in order; the first one without a response ends
      the run with `false`, and no later statement is submitted. */
  method RunStatements(stmts: seq<string>, succeeds: nat -> bool) returns (ok: bool, submitted: seq<string>)
    ensures submitted <= stmts
    ensures ok <==> forall i :: 0 <= i < |stmts| ==> succeeds(i)
    ensures ok ==> submitted == stmts
    ensures !ok ==> && |submitted| > 0
                    && !succeeds(|submitted| - 1)
                    && forall i :: 0 <= i < |submitted| - 1 ==> succeeds(i)
  {
    submitted := [];
    var i := 0;
    while i < |stmts|
      invariant 0 <= i <= |stmts|
      invariant submitted == stmts[..i]
      invariant forall j :: 0 <= j < i ==> succeeds(j)
    {
      submitted := submitted + [stmts[i]];
      if !succeeds(i) {
        return false, submitted;
      }
      i := i + 1;
    }
    assert submitted == stmts;
    return true, submitted;
  }

  /** `execute_sql_file`. `file` is the script's text, `None` when the file
      does not exist or cannot be read. A script with no statements
      succeeds. */
  method ExecuteSqlFile(file: Option<string>, subs: Option<Substitutions>, succeeds: nat -> bool)
    returns (ok: bool, submitted: seq<string>)
    ensures file.None? ==> !ok && submitted == []
    ensures file.Some? ==>
              var stmts := SplitStatements(ApplySubstitutions(file.value, subs));
              && submitted <= stmts
              && (ok <==> forall i :: 0 <= i < |stmts| ==> succeeds(i))
              && (ok ==> submitted == stmts)
              && (!ok ==> && |submitted| > 0
                          && !succeeds(|submitted| - 1)
                          && forall i :: 0 <= i < |submitted| - 1 ==> succeeds(i))
  {
    if file.None? {
      return false, [];
    }
    var content := file.value;
    if subs.Some? && |subs.value| > 0 {
      content := ApplySubstitutions(content, subs);
    }
    assert content == ApplySubstitutions(file.value, subs);
    var stmts := SplitStatements(content);
    ok, submitted := RunStatements(stmts, succeeds);
  }

  // ---------------------------------------------------------------------------
  // Query results
  // ---------------------------------------------------------------------------

  /** One cell of a result row: a string, or JSON null. */
  type Cell = Option<string>

  /** What `execute_statement` hands back for a query: the manifest's column
      names (`None` without a manifest) and the result's `data_array`
      (`None` without a result or data). */
  datatype StatementResponse = StatementResponse(columns: Option<seq<string>>, dataArray: Option<seq<seq<Cell>>>)

  type Row = map<string, Cell>

  datatype QueryResult =
    | NoResults               // `None`
    | Rows(rows: seq<Row>)
    | RowTooShort             // `row[i]` raised IndexError

  /** Python's `s[:n]`. */
  function SliceTo<T>(s: seq<T>, n: int): (r: seq<T>)
    ensures r <= s
    ensures 0 <= n ==> |r| == if n < |s| then n else |s|
    ensures n < 0 ==> |r| == if |s| + n < 0 then 0 else |s| + n
  {
    if 0 <= n then (if n < |s| then s[..n] else s)
    else if |s| + n < 0 then [] else s[..|s| + n]
  }

  /** Column `i` is the last column carrying its name. */
  predicate LastWithName(columns: seq<string>, i: int) {
    0 <= i < |columns| && forall j :: i < j < |columns| ==> columns[j] != columns[i]
  }

  /** `d` is the row `row` under the column names `columns`: the keys are the
      column names, and each name holds the cell of the last column so named. */
  ghost predicate RowMatches(columns: seq<string>, row: seq<Cell>, d: Row)
    requires |row| >= |columns|
  {
    && (forall c :: c in d <==> c in columns)
    && forall i :: 0 <= i < |columns| && LastWithName(columns, i) ==> d[columns[i]] == row[i]
  }

  /** The dict comprehension `{columns[i]: row[i] for i in range(len(columns))}`. */
  function RowDict(columns: seq<string>, row: seq<Cell>): (d: Row)
    requires |row| >= |columns|
    ensures RowMatches(columns, row, d)
    decreases |columns|
  {
    if |columns| == 0 then map[]
    else
      var n := |columns| - 1;
      var prev := RowDict(columns[..n], row);
      RowMatchesExtend(columns, row, prev);
      prev[columns[n] := row[n]]
  }

  /** Adding the last column to the row of the columns before it: a later
      column of the same name overrides an earlier one. */
  lemma RowMatchesExtend(columns: seq<string>, row: seq<Cell>, prev: Row)
    requires 0 < |columns| <= |row|
    requires RowMatches(columns[..|columns| - 1], row, prev)
    ensures RowMatches(columns, row, prev[columns[|columns| - 1] := row[|columns| - 1]])
  {
    var n := |columns| - 1;
    var earlier, c := columns[..n], columns[n];
    var d := prev[c := row[n]];
    assert columns == earlier + [c];
    forall x
      ensures x in d <==> x in columns
    {
      assert x in columns <==> x in earlier || x == c;
    }
    forall i | 0 <= i < |columns| && LastWithName(columns, i)
      ensures d[columns[i]] == row[i]
    {
      if i < n {
        assert columns[i] != c;
        assert LastWithName(earlier, i);
        assert earlier[i] == columns[i];
      }
    }
  }

  predicate HasData(reply: Option<StatementResponse>) {
    reply.Some? && reply.value.dataArray.Some? && |reply.value.dataArray.value| > 0
  }

  /** `execute_query_with_results`. */
  function ExecuteQueryWithResults(reply: Option<StatementResponse>, maxRows: int): (r: QueryResult)
    ensures r.NoResults? <==> !HasData(reply)
    ensures HasData(reply) ==>
              var columns := reply.value.columns.GetOr([]);
              var kept := SliceTo(reply.value.dataArray.value, maxRows);
              && (r.RowTooShort? <==> exists k :: 0 <= k < |kept| && |kept[k]| < |columns|)
              && (r.Rows? ==> && |r.rows| == |kept|
                              && (0 <= maxRows ==> |r.rows| <= maxRows)
                              && forall k :: 0 <= k < |kept| ==> RowMatches(columns, kept[k], r.rows[k]))
  {
    if !HasData(reply) then NoResults
    else
      var columns := reply.value.columns.GetOr([]);
      var kept := SliceTo(reply.value.dataArray.value, maxRows);
      if exists k :: 0 <= k < |kept| && |kept[k]| < |columns| then RowTooShort
      else Rows(seq(|kept|, k requires 0 <= k < |kept| => RowDict(columns, kept[k])))
  }

  datatype RowCount =
    | NoCount       // `None`
    | Count(n: int)
    | Raised        // `int()` or the query raised

  /** The first-row `count` lookup of `get_table_row_count`. */
  function CountOf(q: QueryResult): (count: RowCount) {
    match q
    case NoResults => NoCount
    case RowTooShort => Raised
    case Rows(rows) =>
      if |rows| == 0 then NoCount
      else if "count" !in rows[0] then Count(0)
      else match rows[0]["count"]
        case None => Count(0)
        case Some(text) =>
          match ParseInt(text)
          case Some(n) => Count(n)
          case None => Raised
  }

  /** `get_table_row_count`: the count query's reply read with the default
      limit of 100 rows. */
  function GetTableRowCount(reply: Option<StatementResponse>): (c: RowCount)
    ensures !HasData(reply) ==> c == NoCount
  {
    CountOf(ExecuteQueryWithResults(reply, 100))
  }

  /** A single-cell answer `[[str(n)]]` under the column `count` is read back
      as `n`; a null count is 0. */
  lemma RowCountReadsCountColumn(n: int)
    ensures GetTableRowCount(Some(StatementResponse(Some(["count"]), Some([[Some(IntToString(n))]]))))
            == Count(n)
    ensures GetTableRowCount(Some(StatementResponse(Some(["count"]), Some([[None]])))) == Count(0)
  {
    ParseIntOfIntToString(n);
    var columns := ["count"];
    var row: seq<Cell> := [Some(IntToString(n))];
    assert LastWithName(columns, 0);
    var q := ExecuteQueryWithResults(Some(StatementResponse(Some(columns), Some([row]))), 100);
    assert q.Rows? && RowMatches(columns, row, q.rows[0]);
    var nullRow: seq<Cell> := [None];
    var q' := ExecuteQueryWithResults(Some(StatementResponse(Some(columns), Some([nullRow]))), 100);
    assert q'.Rows? && RowMatches(columns, nullRow, q'.rows[0]);
  }
}
