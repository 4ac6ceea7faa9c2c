/** How each database adapter writes a select statement (the GetSelectStatement methods of
    dbutils). Derby writes what Oracle 12 writes, Phoenix and MySQL what Generic writes. */
module SqlAdapters {
  import opened Options
  import opened SqlText

  datatype Dialect = Oracle | Mssql2008 | Mssql | Oracle12 | Generic

  /** The parameters of GetSelectStatement; at most the first partition column is used. */
  datatype Request = Request(table: string, columns: string, condition: string, orderBy: string,
                             count: int, start: int, partition: seq<string>)

  function TrimBlanks(s: string): string {
    if s != [] && s[0] == ' ' then TrimBlanks(s[1..])
    else if s != [] && s[|s| - 1] == ' ' then TrimBlanks(s[..|s| - 1])
    else s
  }

  function Columns(columns: string): (t: Token)
    ensures IsColumns(t)
  {
    if columns == "" || TrimBlanks(columns) == "*" then STAR else Text(columns)
  }

  function Blanks(n: nat): string {
    if n == 0 then "" else " " + Blanks(n - 1)
  }

  /** No columns given, or a star between blanks: the caller wants whole rows. */
  ghost predicate WholeRows(columns: string) {
    columns == "" || exists i: nat, j: nat :: columns == Blanks(i) + "*" + Blanks(j)
  }

  lemma {:induction false} BlanksBehind(n: nat)
    requires n > 0
    ensures Blanks(n) == Blanks(n - 1) + " "
  {
    if n > 1 {
      BlanksBehind(n - 1);
    }
  }

  lemma {:induction false} StarIsTrimmed(i: nat, j: nat)
    ensures TrimBlanks(Blanks(i) + "*" + Blanks(j)) == "*"
    decreases i + j
  {
    var s := Blanks(i) + "*" + Blanks(j);
    if i > 0 {
      assert s[1..] == Blanks(i - 1) + "*" + Blanks(j);
      StarIsTrimmed(i - 1, j);
    } else if j > 0 {
      BlanksBehind(j);
      assert s[..|s| - 1] == Blanks(0) + "*" + Blanks(j - 1);
      StarIsTrimmed(0, j - 1);
    } else {
      assert s == "*";
    }
  }

  lemma {:induction false} TrimmedWasStar(s: string) returns (i: nat, j: nat)
    requires TrimBlanks(s) == "*"
    ensures s == Blanks(i) + "*" + Blanks(j)
    decreases |s|
  {
    if s != [] && s[0] == ' ' {
      i, j := TrimmedWasStar(s[1..]);
      i := i + 1;
      assert s == [' '] + s[1..];
    } else if s != [] && s[|s| - 1] == ' ' {
      i, j := TrimmedWasStar(s[..|s| - 1]);
      j := j + 1;
      BlanksBehind(j);
      assert s == s[..|s| - 1] + [' '];
    } else {
      i, j := 0, 0;
    }
  }

  /** The columns asked for are the caller's text, unless whole rows are wanted. */
  lemma ColumnsExactly(columns: string)
    ensures Columns(columns) == if WholeRows(columns) then STAR else Text(columns)
  {
    if TrimBlanks(columns) == "*" {
      var i, j := TrimmedWasStar(columns);
    } else if columns != "" && WholeRows(columns) {
      var i: nat, j: nat :| columns == Blanks(i) + "*" + Blanks(j);
      StarIsTrimmed(i, j);
    }
  }

  function PartitionColumn(r: Request): (column: string)
    ensures r.partition == [] ==> column == ""
    ensures r.partition != [] ==> [column] <= r.partition
  {
    if |r.partition| > 0 then r.partition[0] else ""
  }

  /** The caller's condition; the window on the partition column only goes with one. */
  function Conditions(r: Request, start: int): seq<Condition> {
    if r.condition == "" then []
    else if PartitionColumn(r) == "" then [Given(r.condition)]
    else
      [Given(r.condition), Compare(Text(PartitionColumn(r)), AT_LEAST, start)]
      + if r.count == 0 then [] else [Compare(Text(PartitionColumn(r)), LESS, start + r.count)]
  }

  function Order(r: Request): Option<string> {
    if r.orderBy != "" && PartitionColumn(r) == "" then Some(r.orderBy) else None
  }

  function Selection(r: Request, start: int): Query {
    Query(None, Columns(r.columns), Unnumbered, Table(r.table), Conditions(r, start), Order(r), None, None, None)
  }

  function OracleRows(r: Request): Query {
    Selection(r, r.start).(
      columns := ALL_OF_A, numbering := Rownum, source := Nested(Selection(r, r.start), Some(LOWER_A)),
      conditions := if r.count == 0 then [] else [Compare(ROWNUM, AT_MOST, r.start + r.count)], order := None)
  }

  function OracleStatement(r: Request): Query {
    if (r.count == 0 && r.start == 0) || PartitionColumn(r) != "" then Selection(r, r.start)
    else Selection(r, r.start).(source := Nested(OracleRows(r), None),
                                conditions := [Compare(RNUM, GREATER, r.start)], order := None)
  }

  function NotNegative(n: int): int {
    if n < 0 then 0 else n
  }

  function Mssql2008Rows(r: Request): Query {
    var start := NotNegative(r.start);
    var pages := r.count != 0 && PartitionColumn(r) == "";
    Selection(r, start).(
      top := if pages && start + r.count > 0 then Some(start + r.count) else None,
      numbering := if pages && r.start >= 0 && r.orderBy != "" then RowNumberOver(r.orderBy) else Unnumbered)
  }

  function Mssql2008Statement(r: Request): Query {
    if r.count != 0 && r.start >= 0 && PartitionColumn(r) == "" then
      Query(None, STAR, Unnumbered, Nested(Mssql2008Rows(r), Some(UPPER_A)),
            [Compare(RNUM, GREATER, r.start), Compare(RNUM, AT_MOST, r.start + r.count)],
            None, None, None, None)
    else Mssql2008Rows(r)
  }

  function MssqlStatement(r: Request): Query {
    var pages := PartitionColumn(r) == "" && 0 < r.count && 0 <= r.start;
    Selection(r, r.start).(
      top := if r.count != 0 && r.start < 0 && PartitionColumn(r) == "" then Some(r.count) else None,
      offset := if pages then Some(Offset(r.start, true)) else None,
      fetch := if pages then Some(r.count) else None)
  }

  function Oracle12Statement(r: Request): Query {
    Selection(r, r.start).(
      offset := if PartitionColumn(r) == "" && 0 < r.start then Some(Offset(r.start, true)) else None,
      fetch := if PartitionColumn(r) == "" && r.count != 0 then Some(r.count) else None)
  }

  function GenericStatement(r: Request): Query {
    Selection(r, r.start).(
      limit := if PartitionColumn(r) == "" && r.count != 0 then Some(r.count) else None,
      offset := if PartitionColumn(r) == "" && r.start != 0 then Some(Offset(r.start, false)) else None)
  }

  /** The statement an adapter writes; none where it returns an error. */
  function StatementOf(d: Dialect, r: Request): Option<Query> {
    if r.table == "" then None
    else
      match d
      case Oracle => Some(OracleStatement(r))
      case Mssql2008 => Some(Mssql2008Statement(r))
      case Mssql =>
        if PartitionColumn(r) == "" && 0 < r.count && 0 <= r.start && r.orderBy == "" then None
        else Some(MssqlStatement(r))
      case Oracle12 => Some(Oracle12Statement(r))
      case Generic => Some(GenericStatement(r))
  }

  function TextOf(d: Dialect, r: Request): Option<seq<Token>> {
    if StatementOf(d, r).None? then None else Some(Tokens(StatementOf(d, r).value))
  }

  /** The tokens an adapter writes are read back as the intended statement, whatever clauses
      the caller gives. */
  lemma TextMeansStatement(d: Dialect, r: Request)
    requires StatementOf(d, r).Some?
    ensures WellFormed(StatementOf(d, r).value)
    ensures Statement(TextOf(d, r).value) == StatementOf(d, r)
  {
    assert WellFormed(Selection(r, r.start)) && WellFormed(Mssql2008Rows(r));
    assert WellFormed(OracleRows(r));
    TextDeterminesStatement(StatementOf(d, r).value);
  }

  // ---------------------------------------------------------------------------
  // The adapters
  // ---------------------------------------------------------------------------

  /** The text of a statement whose rows come from a table. */
  lemma TableTokens(q: Query)
    requires q.source.Table?
    ensures Tokens(q) == [SELECT] + NumberTokens(TOP, q.top) + [q.columns] + NumberingTokens(q.numbering)
                         + [FROM, Text(q.source.name)] + WhereTokens(q.conditions) + OrderTokens(q.order)
                         + NumberTokens(LIMIT, q.limit) + OffsetTokens(q.offset) + FetchTokens(q.fetch)
  {
    Assoc([SELECT] + NumberTokens(TOP, q.top) + [q.columns] + NumberingTokens(q.numbering),
          [FROM], [Text(q.source.name)]);
    assert [FROM] + [Text(q.source.name)] == [FROM, Text(q.source.name)];
  }

  lemma Appended(a: seq<Token>)
    ensures a + [] == a
  {
  }

  /** The part that all adapters share: the caller's condition, and the window with it. */
  method AppendConditions(queryParts: seq<Token>, r: Request, start: int) returns (parts: seq<Token>)
    ensures parts == queryParts + WhereTokens(Conditions(r, start))
  {
    parts := queryParts;
    if r.condition != "" {
      parts := parts + [WHERE, Text(r.condition)];
      if PartitionColumn(r) != "" {
        var column := Text(PartitionColumn(r));
        parts := parts + [AND, column, AT_LEAST, Num(start)];
        if r.count != 0 {
          parts := parts + [AND, column, LESS, Num(start + r.count)];
        }
      }
    }
    ConditionsText(r, start);
  }

  lemma ConditionsText(r: Request, start: int)
    ensures WhereTokens(Conditions(r, start)) ==
            if r.condition == "" then []
            else
              [WHERE, Text(r.condition)]
              + (if PartitionColumn(r) == "" then []
                 else
                   [AND, Text(PartitionColumn(r)), AT_LEAST, Num(start)]
                   + if r.count == 0 then [] else [AND, Text(PartitionColumn(r)), LESS, Num(start + r.count)])
  {
    var cs := Conditions(r, start);
    if |cs| > 1 {
      assert AndTokens(cs[1..]) == [AND] + (ConditionTokens(cs[1]) + AndTokens(cs[2..])) by {
        assert cs[1..][1..] == cs[2..];
      }
      if |cs| > 2 {
        assert AndTokens(cs[2..]) == [AND] + (ConditionTokens(cs[2]) + []) by {
          assert cs[2..][1..] == [];
        }
      }
    }
  }

  method AppendOrder(queryParts: seq<Token>, r: Request) returns (parts: seq<Token>)
    ensures parts == queryParts + OrderTokens(Order(r))
  {
    parts := queryParts;
    if r.orderBy != "" && PartitionColumn(r) == "" {
      parts := parts + [ORDER_BY, Text(r.orderBy)];
    }
  }

  method GenericGetSelectStatement(r: Request) returns (text: Option<seq<Token>>)
    ensures text == TextOf(Generic, r)
  {
    if r.table == "" {
      return None;
    }
    var queryParts := [SELECT, Columns(r.columns), FROM, Text(r.table)];
    queryParts := AppendConditions(queryParts, r, r.start);
    queryParts := AppendOrder(queryParts, r);
    ghost var q := GenericStatement(r);
    ghost var before := queryParts;
    if PartitionColumn(r) == "" {
      if r.count != 0 {
        queryParts := queryParts + [LIMIT, Num(r.count)];
      }
      assert queryParts == before + NumberTokens(LIMIT, q.limit);
      if r.start != 0 {
        queryParts := queryParts + [OFFSET, Num(r.start)];
      }
    }
    assert queryParts == before + NumberTokens(LIMIT, q.limit) + OffsetTokens(q.offset);
    TableTokens(q);
    assert [SELECT] + [] + [q.columns] + [] + [FROM, Text(r.table)] == [SELECT, Columns(r.columns), FROM, Text(r.table)];
    Appended(queryParts);
    return Some(queryParts);
  }

  method Oracle12GetSelectStatement(r: Request) returns (text: Option<seq<Token>>)
    ensures text == TextOf(Oracle12, r)
  {
    if r.table == "" {
      return None;
    }
    var queryParts := [SELECT, Columns(r.columns), FROM, Text(r.table)];
    queryParts := AppendConditions(queryParts, r, r.start);
    queryParts := AppendOrder(queryParts, r);
    ghost var q := Oracle12Statement(r);
    ghost var before := queryParts;
    if PartitionColumn(r) == "" {
      if 0 < r.start {
        queryParts := queryParts + [OFFSET, Num(r.start), ROWS];
      }
      assert queryParts == before + OffsetTokens(q.offset);
      if r.count != 0 {
        queryParts := queryParts + [FETCH_NEXT, Num(r.count), ROWS_ONLY];
      }
    }
    assert queryParts == before + OffsetTokens(q.offset) + FetchTokens(q.fetch);
    TableTokens(q);
    assert [SELECT] + [] + [q.columns] + [] + [FROM, Text(r.table)] == [SELECT, Columns(r.columns), FROM, Text(r.table)];
    Appended(before);
    return Some(queryParts);
  }

  method MssqlGetSelectStatement(r: Request) returns (text: Option<seq<Token>>)
    ensures text == TextOf(Mssql, r)
  {
    if r.table == "" {
      return None;
    }
    ghost var q := MssqlStatement(r);
    var queryParts := [SELECT];
    if r.count != 0 && 0 > r.start && PartitionColumn(r) == "" {
      queryParts := queryParts + [TOP, Num(r.count)];
    }
    assert queryParts == [SELECT] + NumberTokens(TOP, q.top);
    queryParts := queryParts + [Columns(r.columns)];
    Appended(queryParts);
    queryParts := queryParts + [FROM, Text(r.table)];
    queryParts := AppendConditions(queryParts, r, r.start);
    queryParts := AppendOrder(queryParts, r);
    ghost var before := queryParts;
    if PartitionColumn(r) == "" {
      if 0 < r.count && 0 <= r.start {
        if r.orderBy == "" {
          return None;
        }
        queryParts := queryParts + [OFFSET, Num(r.start), ROWS, FETCH_NEXT, Num(r.count), ROWS_ONLY];
      }
    }
    assert queryParts == before + OffsetTokens(q.offset) + FetchTokens(q.fetch);
    TableTokens(q);
    Appended(before);
    return Some(queryParts);
  }

  method Mssql2008GetSelectStatement(r: Request) returns (text: Option<seq<Token>>)
    ensures text == TextOf(Mssql2008, r)
  {
    if r.table == "" {
      return None;
    }
    var start := r.start;
    if start < 0 {
      start := 0;
    }
    ghost var q := Mssql2008Rows(r);
    ghost var outer := [];
    var queryParts := [SELECT];
    if r.count != 0 && PartitionColumn(r) == "" {
      if 0 <= r.start {
        queryParts := queryParts + [STAR, FROM, OPEN, SELECT];
        outer := [SELECT, STAR, FROM, OPEN];
      }
      if start + r.count > 0 {
        queryParts := queryParts + [TOP, Num(start + r.count)];
      }
    }
    assert queryParts == outer + ([SELECT] + NumberTokens(TOP, q.top));
    queryParts := queryParts + [Columns(r.columns)];
    ghost var selected := [SELECT] + NumberTokens(TOP, q.top) + [q.columns];
    Assoc(outer, [SELECT] + NumberTokens(TOP, q.top), [q.columns]);
    if r.count != 0 && 0 <= r.start && r.orderBy != "" && PartitionColumn(r) == "" {
      queryParts := queryParts + [COMMA, ROW_NUMBER, OVER_ORDER_BY, Text(r.orderBy), ASC_CLOSE, RNUM];
    }
    Assoc(outer, selected, NumberingTokens(q.numbering));
    Appended(queryParts);
    selected := selected + NumberingTokens(q.numbering);
    assert queryParts == outer + selected;
    queryParts := queryParts + [FROM, Text(r.table)];
    Assoc(outer, selected, [FROM, Text(r.table)]);
    selected := selected + [FROM, Text(r.table)];
    queryParts := AppendConditions(queryParts, r, start);
    Assoc(outer, selected, WhereTokens(q.conditions));
    selected := selected + WhereTokens(q.conditions);
    queryParts := AppendOrder(queryParts, r);
    Assoc(outer, selected, OrderTokens(q.order));
    selected := selected + OrderTokens(q.order);
    TableTokens(q);
    Appended(selected);
    assert selected == Tokens(q) && queryParts == outer + Tokens(q);
    if r.count != 0 && 0 <= r.start && PartitionColumn(r) == "" {
      queryParts := queryParts
        + [CLOSE, UPPER_A, WHERE, RNUM, GREATER, Num(start), AND, RNUM, AT_MOST, Num(start + r.count)];
      Mssql2008Nests(r);
    } else {
      assert [] + Tokens(q) == Tokens(q);
    }
    return Some(queryParts);
  }

  lemma Mssql2008Nests(r: Request)
    requires r.count != 0 && r.start >= 0 && PartitionColumn(r) == ""
    ensures Tokens(Mssql2008Statement(r)) == [SELECT, STAR, FROM, OPEN] + Tokens(Mssql2008Rows(r))
            + [CLOSE, UPPER_A, WHERE, RNUM, GREATER, Num(r.start), AND, RNUM, AT_MOST, Num(r.start + r.count)]
  {
    var inner := Tokens(Mssql2008Rows(r));
    NestedTokens(Mssql2008Statement(r), inner);
    RangeText(r.start, r.start + r.count);
    StarText();
  }

  lemma StarText()
    ensures [SELECT, STAR] + NumberingTokens(Unnumbered) + [FROM, OPEN] == [SELECT, STAR, FROM, OPEN]
  {
  }

  lemma RangeText(start: int, end: int)
    ensures [CLOSE] + AliasTokens(Some(UPPER_A)) + WhereTokens([Compare(RNUM, GREATER, start), Compare(RNUM, AT_MOST, end)])
            == [CLOSE, UPPER_A, WHERE, RNUM, GREATER, Num(start), AND, RNUM, AT_MOST, Num(end)]
  {
    var cs := [Compare(RNUM, GREATER, start), Compare(RNUM, AT_MOST, end)];
    assert cs[1..] == [cs[1]] && cs[1..][1..] == [];
    assert AndTokens(cs[1..]) == [AND] + (ConditionTokens(cs[1]) + []);
  }

  /** The text of a statement that only selects from another one, around the other's text. */
  lemma NestedTokens(q: Query, inner: seq<Token>)
    requires q.source.Nested? && inner == Tokens(q.source.query)
    requires q.top.None? && q.order.None? && q.limit.None? && q.offset.None? && q.fetch.None?
    ensures Tokens(q) == ([SELECT, q.columns] + NumberingTokens(q.numbering) + [FROM, OPEN]) + inner
                         + ([CLOSE] + AliasTokens(q.source.alias) + WhereTokens(q.conditions))
  {
    var head := [SELECT, q.columns] + NumberingTokens(q.numbering) + [FROM];
    var close := [CLOSE] + AliasTokens(q.source.alias);
    assert [SELECT] + [] + [q.columns] == [SELECT, q.columns];
    var w := WhereTokens(q.conditions);
    assert Tokens(q) == head + ([OPEN] + (inner + close)) + w;
    Assoc(head, [OPEN], inner + close);
    Assoc(head + [OPEN], inner, close);
    Assoc(head + [OPEN] + inner, close, w);
    Assoc([SELECT, q.columns] + NumberingTokens(q.numbering), [FROM], [OPEN]);
    assert [FROM] + [OPEN] == [FROM, OPEN];
  }

  method OracleGetSelectStatement(r: Request) returns (text: Option<seq<Token>>)
    ensures text == TextOf(Oracle, r)
  {
    if r.table == "" {
      return None;
    }
    var queryParts := [];
    var nestedSelect := false;
    if (r.count != 0 || r.start != 0) && PartitionColumn(r) == "" {
      nestedSelect := true;
    }
    if nestedSelect {
      queryParts := queryParts + [SELECT];
      queryParts := queryParts + [Columns(r.columns)];
      queryParts := queryParts + [FROM, OPEN, SELECT, ALL_OF_A, COMMA, ROWNUM, RNUM, FROM, OPEN];
    }
    ghost var outer := queryParts;
    ghost var q := Selection(r, r.start);
    queryParts := queryParts + [SELECT, Columns(r.columns), FROM, Text(r.table)];
    ghost var selected := [SELECT, Columns(r.columns), FROM, Text(r.table)];
    assert [SELECT] + [] + [q.columns] + [] + [FROM, Text(r.table)] == selected;
    queryParts := AppendConditions(queryParts, r, r.start);
    Assoc(outer, selected, WhereTokens(q.conditions));
    selected := selected + WhereTokens(q.conditions);
    queryParts := AppendOrder(queryParts, r);
    Assoc(outer, selected, OrderTokens(q.order));
    selected := selected + OrderTokens(q.order);
    TableTokens(q);
    Appended(selected);
    assert selected == Tokens(q) && queryParts == outer + Tokens(q);
    if nestedSelect {
      queryParts := queryParts + [CLOSE, LOWER_A];
      if r.count != 0 {
        queryParts := queryParts + [WHERE, ROWNUM, AT_MOST, Num(r.start + r.count)];
      }
      ghost var rows := if r.count != 0 then [CLOSE, LOWER_A, WHERE, ROWNUM, AT_MOST, Num(r.start + r.count)]
                        else [CLOSE, LOWER_A];
      assert queryParts == outer + Tokens(q) + rows;
      queryParts := queryParts + [CLOSE, WHERE, RNUM, GREATER, Num(r.start)];
      OracleNests(r, outer, rows);
    } else {
      assert [] + Tokens(q) == Tokens(q);
    }
    return Some(queryParts);
  }

  lemma OracleNests(r: Request, outer: seq<Token>, rows: seq<Token>)
    requires (r.count != 0 || r.start != 0) && PartitionColumn(r) == ""
    requires outer == [SELECT, Columns(r.columns), FROM, OPEN, SELECT, ALL_OF_A, COMMA, ROWNUM, RNUM, FROM, OPEN]
    requires rows == if r.count != 0 then [CLOSE, LOWER_A, WHERE, ROWNUM, AT_MOST, Num(r.start + r.count)]
                     else [CLOSE, LOWER_A]
    ensures Tokens(OracleStatement(r))
            == outer + Tokens(Selection(r, r.start)) + rows + [CLOSE, WHERE, RNUM, GREATER, Num(r.start)]
  {
    var middle := [SELECT, ALL_OF_A, COMMA, ROWNUM, RNUM, FROM, OPEN];
    var first, last := [SELECT, Columns(r.columns), FROM, OPEN], [CLOSE, WHERE, RNUM, GREATER, Num(r.start)];
    OracleRowsText(r, middle, rows);
    OracleTopText(r, first, last);
    OuterText(Columns(r.columns), first, middle, outer);
    Assoc(first, middle + Tokens(Selection(r, r.start)), rows);
    Assoc(first, middle, Tokens(Selection(r, r.start)));
  }

  lemma OuterText(columns: Token, first: seq<Token>, middle: seq<Token>, outer: seq<Token>)
    requires first == [SELECT, columns, FROM, OPEN] && middle == [SELECT, ALL_OF_A, COMMA, ROWNUM, RNUM, FROM, OPEN]
    requires outer == [SELECT, columns, FROM, OPEN, SELECT, ALL_OF_A, COMMA, ROWNUM, RNUM, FROM, OPEN]
    ensures first + middle == outer
  {
  }

  lemma OracleRowsText(r: Request, middle: seq<Token>, rows: seq<Token>)
    requires middle == [SELECT, ALL_OF_A, COMMA, ROWNUM, RNUM, FROM, OPEN]
    requires rows == if r.count != 0 then [CLOSE, LOWER_A, WHERE, ROWNUM, AT_MOST, Num(r.start + r.count)]
                     else [CLOSE, LOWER_A]
    ensures Tokens(OracleRows(r)) == middle + Tokens(Selection(r, r.start)) + rows
  {
    NestedTokens(OracleRows(r), Tokens(Selection(r, r.start)));
    assert [SELECT, ALL_OF_A] + NumberingTokens(Rownum) + [FROM, OPEN] == middle;
    assert [CLOSE] + [LOWER_A] + WhereTokens(OracleRows(r).conditions) == rows;
  }

  lemma OracleTopText(r: Request, first: seq<Token>, last: seq<Token>)
    requires (r.count != 0 || r.start != 0) && PartitionColumn(r) == ""
    requires first == [SELECT, Columns(r.columns), FROM, OPEN] && last == [CLOSE, WHERE, RNUM, GREATER, Num(r.start)]
    ensures Tokens(OracleStatement(r)) == first + Tokens(OracleRows(r)) + last
  {
    NestedTokens(OracleStatement(r), Tokens(OracleRows(r)));
    assert [SELECT, Columns(r.columns)] + [] + [FROM, OPEN] == first;
    assert [CLOSE] + [] + WhereTokens(OracleStatement(r).conditions) == last;
  }

  // ---------------------------------------------------------------------------
  // The texts in full
  // ---------------------------------------------------------------------------

  predicate AsksForEverything(r: Request) {
    r.table != "" && r.condition != "" && r.orderBy != "" && r.count > 0 && r.start > 0 && r.partition == []
  }

  /** What every adapter writes for the source, the condition and the order. */
  function Body(r: Request): seq<Token> {
    [FROM, Text(r.table), WHERE, Text(r.condition), ORDER_BY, Text(r.orderBy)]
  }

  lemma BodyText(r: Request)
    requires AsksForEverything(r)
    ensures [FROM, Text(r.table)] + WhereTokens(Conditions(r, r.start)) + OrderTokens(Order(r)) == Body(r)
  {
    ConditionsText(r, r.start);
  }

  /** The tokens of a page of a table, with every clause: LIMIT and OFFSET, or OFFSET ROWS and
      FETCH NEXT. */
  lemma PageTexts(r: Request)
    requires AsksForEverything(r)
    ensures TextOf(Generic, r) == Some([SELECT, Columns(r.columns)] + Body(r) + [LIMIT, Num(r.count), OFFSET, Num(r.start)])
    ensures forall d :: d == Oracle12 || d == Mssql ==>
              TextOf(d, r) == Some([SELECT, Columns(r.columns)] + Body(r)
                                   + [OFFSET, Num(r.start), ROWS, FETCH_NEXT, Num(r.count), ROWS_ONLY])
  {
    BodyText(r);
    TailText(GenericStatement(r), r, [LIMIT, Num(r.count), OFFSET, Num(r.start)]);
    TailText(Oracle12Statement(r), r, [OFFSET, Num(r.start), ROWS, FETCH_NEXT, Num(r.count), ROWS_ONLY]);
    TailText(MssqlStatement(r), r, [OFFSET, Num(r.start), ROWS, FETCH_NEXT, Num(r.count), ROWS_ONLY]);
  }

  lemma TailText(q: Query, r: Request, tail: seq<Token>)
    requires AsksForEverything(r) && q == Selection(r, r.start).(limit := q.limit, offset := q.offset, fetch := q.fetch)
    requires NumberTokens(LIMIT, q.limit) + OffsetTokens(q.offset) + FetchTokens(q.fetch) == tail
    ensures Tokens(q) == [SELECT, Columns(r.columns)] + Body(r) + tail
  {
    TableTokens(q);
    BodyText(r);
    var head, from := [SELECT, Columns(r.columns)], [FROM, Text(r.table)];
    var where, order := WhereTokens(q.conditions), OrderTokens(q.order);
    assert [SELECT] + [] + [q.columns] + [] + from == head + from;
    Assoc(head, from, where);
    Assoc(head, from + where, order);
    Assoc(head + Body(r), NumberTokens(LIMIT, q.limit), OffsetTokens(q.offset));
    Assoc(head + Body(r), NumberTokens(LIMIT, q.limit) + OffsetTokens(q.offset), FetchTokens(q.fetch));
  }

  /** The same page in the nested texts of Oracle and the 2008 dialect. */
  lemma NestedTexts(r: Request)
    requires AsksForEverything(r)
    ensures TextOf(Oracle, r)
            == Some([SELECT, Columns(r.columns), FROM, OPEN, SELECT, ALL_OF_A, COMMA, ROWNUM, RNUM, FROM, OPEN]
                    + ([SELECT, Columns(r.columns)] + Body(r))
                    + [CLOSE, LOWER_A, WHERE, ROWNUM, AT_MOST, Num(r.start + r.count)]
                    + [CLOSE, WHERE, RNUM, GREATER, Num(r.start)])
    ensures TextOf(Mssql2008, r)
            == Some([SELECT, STAR, FROM, OPEN]
                    + ([SELECT, TOP, Num(r.start + r.count), Columns(r.columns), COMMA, ROW_NUMBER, OVER_ORDER_BY,
                        Text(r.orderBy), ASC_CLOSE, RNUM] + Body(r))
                    + [CLOSE, UPPER_A, WHERE, RNUM, GREATER, Num(r.start), AND, RNUM, AT_MOST, Num(r.start + r.count)])
  {
    OracleNests(r, [SELECT, Columns(r.columns), FROM, OPEN, SELECT, ALL_OF_A, COMMA, ROWNUM, RNUM, FROM, OPEN],
                [CLOSE, LOWER_A, WHERE, ROWNUM, AT_MOST, Num(r.start + r.count)]);
    TailText(Selection(r, r.start), r, []);
    Appended([SELECT, Columns(r.columns)] + Body(r));
    Mssql2008Nests(r);
    NumberedText(r);
  }

  lemma NumberedText(r: Request)
    requires AsksForEverything(r)
    ensures Tokens(Mssql2008Rows(r))
            == [SELECT, TOP, Num(r.start + r.count), Columns(r.columns), COMMA, ROW_NUMBER, OVER_ORDER_BY,
                Text(r.orderBy), ASC_CLOSE, RNUM] + Body(r)
  {
    var q := Mssql2008Rows(r);
    TableTokens(q);
    BodyText(r);
    var head, from := [SELECT, TOP, Num(r.start + r.count), Columns(r.columns), COMMA, ROW_NUMBER, OVER_ORDER_BY,
                       Text(r.orderBy), ASC_CLOSE, RNUM], [FROM, Text(r.table)];
    assert [SELECT] + NumberTokens(TOP, q.top) + [q.columns] + NumberingTokens(q.numbering) == head;
    Assoc(head, from, WhereTokens(q.conditions));
    Assoc(head, from + WhereTokens(q.conditions), OrderTokens(q.order));
    Appended(head + Body(r));
  }
}
