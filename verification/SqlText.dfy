/** The text of the select statements that the database adapters write (the adapters of
    dbutils): the statements they can form, the text of each, and a reader that gets the
    statement back from its text. A text is a sequence of words, numbers and the caller's own
    clauses, each clause one token as the caller wrote it; the adapters join these with blanks.
    In the joined string a clause can look like words of the statement, as in the condition
    `x=1 ORDER BY y`: what is proved here holds of the sequences, before they are joined. */
module SqlText {
  import opened Options

  /** The words are spelled as in the adapters: STAR and ALL_OF_A are * and a.*, LOWER_A and
      UPPER_A the aliases a and A, ASC_CLOSE the asc) after OVER(ORDER BY. */
  datatype Token =
    | SELECT | TOP | STAR | ALL_OF_A | FROM | OPEN | CLOSE | LOWER_A | UPPER_A
    | COMMA | ROWNUM | RNUM | ROW_NUMBER | OVER_ORDER_BY | ASC_CLOSE
    | WHERE | AND | AT_LEAST | LESS | AT_MOST | GREATER
    | ORDER_BY | LIMIT | OFFSET | ROWS | FETCH_NEXT | ROWS_ONLY
    | Num(n: int) | Text(text: string)

  datatype Query = Query(top: Option<int>, columns: Token, numbering: Numbering, source: Source,
                         conditions: seq<Condition>, order: Option<string>,
                         limit: Option<int>, offset: Option<Offset>, fetch: Option<int>)

  /** A row number among the selected columns, always under the name rnum. */
  datatype Numbering = Unnumbered | Rownum | RowNumberOver(order: string)

  datatype Source = Table(name: string) | Nested(query: Query, alias: Option<Token>)

  /** A clause of the caller, or a comparison of a column, ROWNUM or rnum with a number. */
  datatype Condition = Given(text: string) | Compare(subject: Token, op: Token, n: int)

  datatype Offset = Offset(n: int, rows: bool)

  predicate IsComparison(t: Token) {
    t.AT_LEAST? || t.LESS? || t.AT_MOST? || t.GREATER?
  }

  predicate IsAlias(t: Token) {
    t.LOWER_A? || t.UPPER_A?
  }

  predicate IsSubject(t: Token) {
    t.Text? || t.ROWNUM? || t.RNUM?
  }

  predicate IsColumns(t: Token) {
    t.Text? || t.STAR? || t.ALL_OF_A?
  }

  predicate WellFormed(q: Query) {
    && IsColumns(q.columns)
    && (forall c :: c in q.conditions && c.Compare? ==> IsSubject(c.subject) && IsComparison(c.op))
    && (q.source.Nested? ==> (q.source.alias.Some? ==> IsAlias(q.source.alias.value)) && WellFormed(q.source.query))
  }

  // ---------------------------------------------------------------------------
  // Writing
  // ---------------------------------------------------------------------------

  function NumberTokens(keyword: Token, n: Option<int>): seq<Token> {
    if n.Some? then [keyword, Num(n.value)] else []
  }

  function NumberingTokens(n: Numbering): seq<Token> {
    match n
    case Unnumbered => []
    case Rownum => [COMMA, ROWNUM, RNUM]
    case RowNumberOver(order) =>
      [COMMA, ROW_NUMBER, OVER_ORDER_BY, Text(order), ASC_CLOSE, RNUM]
  }

  function ConditionTokens(c: Condition): seq<Token> {
    match c
    case Given(text) => [Text(text)]
    case Compare(subject, op, n) => [subject, op, Num(n)]
  }

  function AndTokens(cs: seq<Condition>): seq<Token> {
    if cs == [] then [] else [AND] + (ConditionTokens(cs[0]) + AndTokens(cs[1..]))
  }

  function WhereTokens(cs: seq<Condition>): seq<Token> {
    if cs == [] then [] else [WHERE] + (ConditionTokens(cs[0]) + AndTokens(cs[1..]))
  }

  function OrderTokens(order: Option<string>): seq<Token> {
    if order.Some? then [ORDER_BY, Text(order.value)] else []
  }

  function OffsetTokens(offset: Option<Offset>): seq<Token> {
    if offset.None? then []
    else [OFFSET, Num(offset.value.n)] + if offset.value.rows then [ROWS] else []
  }

  function FetchTokens(fetch: Option<int>): seq<Token> {
    if fetch.Some? then [FETCH_NEXT, Num(fetch.value), ROWS_ONLY] else []
  }

  function AliasTokens(alias: Option<Token>): seq<Token> {
    if alias.Some? then [alias.value] else []
  }

  function SourceTokens(s: Source): seq<Token> {
    match s
    case Table(name) => [Text(name)]
    case Nested(query, alias) =>
      [OPEN] + (Tokens(query) + ([CLOSE] + AliasTokens(alias)))
  }

  function Tokens(q: Query): seq<Token> {
    [SELECT] + NumberTokens(TOP, q.top) + [q.columns] + NumberingTokens(q.numbering)
    + [FROM] + SourceTokens(q.source) + WhereTokens(q.conditions) + OrderTokens(q.order)
    + NumberTokens(LIMIT, q.limit) + OffsetTokens(q.offset) + FetchTokens(q.fetch)
  }

  // ---------------------------------------------------------------------------
  // Reading
  // ---------------------------------------------------------------------------

  datatype Parsed<+T> = Failed | Parsed(value: T, rest: seq<Token>)

  predicate Starts(ts: seq<Token>, word: Token) {
    ts != [] && ts[0] == word
  }

  function ParseNumber(ts: seq<Token>, keyword: Token): (p: Parsed<Option<int>>)
    ensures p.Parsed? && |p.rest| <= |ts|
  {
    if Starts(ts, keyword) && |ts| > 1 && ts[1].Num? then Parsed(Some(ts[1].n), ts[2..])
    else Parsed(None, ts)
  }

  function ParseNumbering(ts: seq<Token>): (p: Parsed<Numbering>)
    ensures p.Parsed? && |p.rest| <= |ts|
  {
    if |ts| >= 3 && ts[0] == COMMA && ts[1] == ROWNUM && ts[2] == RNUM then
      Parsed(Rownum, ts[3..])
    else if |ts| >= 6 && ts[0] == COMMA && ts[1] == ROW_NUMBER && ts[2] == OVER_ORDER_BY
            && ts[3].Text? && ts[4] == ASC_CLOSE && ts[5] == RNUM then
      Parsed(RowNumberOver(ts[3].text), ts[6..])
    else Parsed(Unnumbered, ts)
  }

  function ParseCondition(ts: seq<Token>): (p: Parsed<Condition>)
    ensures p.Parsed? ==> |p.rest| < |ts|
  {
    if |ts| >= 3 && IsSubject(ts[0]) && IsComparison(ts[1]) && ts[2].Num? then
      Parsed(Compare(ts[0], ts[1], ts[2].n), ts[3..])
    else if ts != [] && ts[0].Text? then Parsed(Given(ts[0].text), ts[1..])
    else Failed
  }

  function ParseAnds(ts: seq<Token>): (p: Parsed<seq<Condition>>)
    ensures p.Parsed? ==> |p.rest| <= |ts|
    decreases |ts|
  {
    if !Starts(ts, AND) then Parsed([], ts)
    else
      var first := ParseCondition(ts[1..]);
      if first.Failed? then Failed
      else
        var more := ParseAnds(first.rest);
        if more.Failed? then Failed else Parsed([first.value] + more.value, more.rest)
  }

  function ParseWhere(ts: seq<Token>): (p: Parsed<seq<Condition>>)
    ensures p.Parsed? ==> |p.rest| <= |ts|
  {
    if !Starts(ts, WHERE) then Parsed([], ts)
    else
      var first := ParseCondition(ts[1..]);
      if first.Failed? then Failed
      else
        var more := ParseAnds(first.rest);
        if more.Failed? then Failed else Parsed([first.value] + more.value, more.rest)
  }

  function ParseOrder(ts: seq<Token>): (p: Parsed<Option<string>>)
    ensures p.Parsed? && |p.rest| <= |ts|
  {
    if Starts(ts, ORDER_BY) && |ts| > 1 && ts[1].Text? then Parsed(Some(ts[1].text), ts[2..])
    else Parsed(None, ts)
  }

  function ParseOffset(ts: seq<Token>): (p: Parsed<Option<Offset>>)
    ensures p.Parsed? && |p.rest| <= |ts|
  {
    if Starts(ts, OFFSET) && |ts| > 1 && ts[1].Num? then
      if Starts(ts[2..], ROWS) then Parsed(Some(Offset(ts[1].n, true)), ts[3..])
      else Parsed(Some(Offset(ts[1].n, false)), ts[2..])
    else Parsed(None, ts)
  }

  function ParseFetch(ts: seq<Token>): (p: Parsed<Option<int>>)
    ensures p.Parsed? && |p.rest| <= |ts|
  {
    if Starts(ts, FETCH_NEXT) && |ts| > 2 && ts[1].Num? && ts[2] == ROWS_ONLY then
      Parsed(Some(ts[1].n), ts[3..])
    else Parsed(None, ts)
  }

  function ParseAlias(ts: seq<Token>): (p: Parsed<Option<Token>>)
    ensures p.Parsed? && |p.rest| <= |ts|
  {
    if ts != [] && IsAlias(ts[0]) then Parsed(Some(ts[0]), ts[1..]) else Parsed(None, ts)
  }

  function ParseSource(ts: seq<Token>): (p: Parsed<Source>)
    ensures p.Parsed? ==> |p.rest| <= |ts|
    decreases |ts|, 0
  {
    if ts != [] && ts[0].Text? then Parsed(Table(ts[0].text), ts[1..])
    else if !Starts(ts, OPEN) then Failed
    else
      var inner := ParseQuery(ts[1..]);
      if inner.Failed? || !Starts(inner.rest, CLOSE) then Failed
      else
        var alias := ParseAlias(inner.rest[1..]);
        Parsed(Nested(inner.value, alias.value), alias.rest)
  }

  function ParseTail(top: Option<int>, columns: Token, numbering: Numbering, source: Source, ts: seq<Token>):
      (p: Parsed<Query>)
    ensures p.Parsed? ==> |p.rest| <= |ts|
  {
    var conditions := ParseWhere(ts);
    if conditions.Failed? then Failed
    else
      var order := ParseOrder(conditions.rest);
      var limit := ParseNumber(order.rest, LIMIT);
      var offset := ParseOffset(limit.rest);
      var fetch := ParseFetch(offset.rest);
      Parsed(Query(top, columns, numbering, source, conditions.value, order.value, limit.value, offset.value,
                   fetch.value), fetch.rest)
  }

  function ParseQuery(ts: seq<Token>): (p: Parsed<Query>)
    ensures p.Parsed? ==> |p.rest| <= |ts|
    decreases |ts|, 1
  {
    if !Starts(ts, SELECT) then Failed
    else
      var top := ParseNumber(ts[1..], TOP);
      if top.rest == [] || !IsColumns(top.rest[0]) then Failed
      else
        var numbering := ParseNumbering(top.rest[1..]);
        if !Starts(numbering.rest, FROM) then Failed
        else
          var source := ParseSource(numbering.rest[1..]);
          if source.Failed? then Failed
          else ParseTail(top.value, top.rest[0], numbering.value, source.value, source.rest)
  }

  // ---------------------------------------------------------------------------
  // Reading what was written
  // ---------------------------------------------------------------------------

  /** A text that goes on with another clause, or ends. */
  predicate Clause(ts: seq<Token>) {
    ts == [] || ts[0].WHERE? || ts[0].ORDER_BY? || ts[0].LIMIT? || ts[0].OFFSET? || ts[0].FETCH_NEXT? || ts[0].CLOSE?
  }

  predicate Ends(ts: seq<Token>) {
    ts == [] || ts[0].CLOSE?
  }

  lemma Assoc(a: seq<Token>, b: seq<Token>, c: seq<Token>)
    ensures (a + b) + c == a + (b + c)
  {
  }

  lemma Tail(t: Token, rest: seq<Token>)
    ensures Starts([t] + rest, t) && ([t] + rest)[1..] == rest
  {
  }

  lemma NumberBack(keyword: Token, n: Option<int>, rest: seq<Token>)
    requires n.None? ==> !Starts(rest, keyword)
    ensures ParseNumber(NumberTokens(keyword, n) + rest, keyword) == Parsed(n, rest)
  {
    if n.None? {
      assert NumberTokens(keyword, n) + rest == rest;
    }
  }

  lemma NumberingBack(n: Numbering, rest: seq<Token>)
    requires Starts(rest, FROM)
    ensures ParseNumbering(NumberingTokens(n) + rest) == Parsed(n, rest)
  {
    if n.Unnumbered? {
      assert NumberingTokens(n) + rest == rest;
    }
  }

  lemma ConditionBack(c: Condition, rest: seq<Token>)
    requires c.Compare? ==> IsSubject(c.subject) && IsComparison(c.op)
    requires Clause(rest) || Starts(rest, AND)
    ensures ParseCondition(ConditionTokens(c) + rest) == Parsed(c, rest)
  {
  }

  lemma AndsHead(cs: seq<Condition>, rest: seq<Token>)
    requires Clause(rest)
    ensures Clause(AndTokens(cs) + rest) || Starts(AndTokens(cs) + rest, AND)
  {
    if cs == [] {
      assert AndTokens(cs) + rest == rest;
    }
  }

  lemma ConditionsText(word: Token, cs: seq<Condition>, rest: seq<Token>)
    requires cs != []
    ensures var tail := ConditionTokens(cs[0]) + (AndTokens(cs[1..]) + rest);
            var text := ([word] + (ConditionTokens(cs[0]) + AndTokens(cs[1..]))) + rest;
            Starts(text, word) && text[1..] == tail
  {
    Assoc([word], ConditionTokens(cs[0]) + AndTokens(cs[1..]), rest);
    Assoc(ConditionTokens(cs[0]), AndTokens(cs[1..]), rest);
    Tail(word, ConditionTokens(cs[0]) + (AndTokens(cs[1..]) + rest));
  }

  ghost predicate Writable(cs: seq<Condition>) {
    forall c :: c in cs && c.Compare? ==> IsSubject(c.subject) && IsComparison(c.op)
  }

  lemma {:induction false} AndsBack(cs: seq<Condition>, rest: seq<Token>)
    requires Writable(cs) && Clause(rest)
    ensures ParseAnds(AndTokens(cs) + rest) == Parsed(cs, rest)
  {
    if cs == [] {
      assert AndTokens(cs) + rest == rest;
    } else {
      AndsBack(cs[1..], rest);
      AndsHead(cs[1..], rest);
      var text, more := AndTokens(cs) + rest, AndTokens(cs[1..]) + rest;
      ConditionBack(cs[0], more);
      assert Starts(text, AND) && ParseCondition(text[1..]) == Parsed(cs[0], more) by {
        ConditionsText(AND, cs, rest);
      }
      assert ParseAnds(text) == Parsed([cs[0]] + cs[1..], rest);
      assert [cs[0]] + cs[1..] == cs;
    }
  }

  lemma WhereBack(cs: seq<Condition>, rest: seq<Token>)
    requires Writable(cs) && Clause(rest) && !Starts(rest, WHERE)
    ensures ParseWhere(WhereTokens(cs) + rest) == Parsed(cs, rest)
  {
    if cs == [] {
      assert WhereTokens(cs) + rest == rest;
    } else {
      AndsBack(cs[1..], rest);
      AndsHead(cs[1..], rest);
      var text, more := WhereTokens(cs) + rest, AndTokens(cs[1..]) + rest;
      ConditionBack(cs[0], more);
      assert Starts(text, WHERE) && ParseCondition(text[1..]) == Parsed(cs[0], more) by {
        ConditionsText(WHERE, cs, rest);
      }
      assert ParseWhere(text) == Parsed([cs[0]] + cs[1..], rest);
      assert [cs[0]] + cs[1..] == cs;
    }
  }

  lemma OrderBack(order: Option<string>, rest: seq<Token>)
    requires !Starts(rest, ORDER_BY)
    ensures ParseOrder(OrderTokens(order) + rest) == Parsed(order, rest)
  {
    if order.None? {
      assert OrderTokens(order) + rest == rest;
    }
  }

  lemma OffsetBack(offset: Option<Offset>, rest: seq<Token>)
    requires !Starts(rest, OFFSET) && !Starts(rest, ROWS)
    ensures ParseOffset(OffsetTokens(offset) + rest) == Parsed(offset, rest)
  {
    var ts := OffsetTokens(offset) + rest;
    if offset.None? {
      assert ts == rest;
    } else if offset.value.rows {
      assert ts[3..] == rest;
    } else {
      assert ts[2..] == rest;
    }
  }

  lemma FetchBack(fetch: Option<int>, rest: seq<Token>)
    requires !Starts(rest, FETCH_NEXT)
    ensures ParseFetch(FetchTokens(fetch) + rest) == Parsed(fetch, rest)
  {
    if fetch.None? {
      assert FetchTokens(fetch) + rest == rest;
    }
  }

  function TailTokens(q: Query, rest: seq<Token>): seq<Token> {
    WhereTokens(q.conditions) + (OrderTokens(q.order) + (NumberTokens(LIMIT, q.limit)
    + (OffsetTokens(q.offset) + (FetchTokens(q.fetch) + rest))))
  }

  lemma TailBack(q: Query, rest: seq<Token>)
    requires WellFormed(q) && Ends(rest)
    ensures Clause(TailTokens(q, rest))
    ensures ParseTail(q.top, q.columns, q.numbering, q.source, TailTokens(q, rest)) == Parsed(q, rest)
  {
    var fetch := FetchTokens(q.fetch) + rest;
    assert Starts(fetch, FETCH_NEXT) || Ends(fetch);
    var offset := OffsetTokens(q.offset) + fetch;
    assert Starts(offset, OFFSET) || Starts(offset, FETCH_NEXT) || Ends(offset);
    var limit := NumberTokens(LIMIT, q.limit) + offset;
    assert Clause(limit) && !Starts(limit, WHERE) && !Starts(limit, ORDER_BY);
    var order := OrderTokens(q.order) + limit;
    assert Clause(order) && !Starts(order, WHERE);
    WhereBack(q.conditions, order);
    OrderBack(q.order, limit);
    NumberBack(LIMIT, q.limit, offset);
    OffsetBack(q.offset, fetch);
    FetchBack(q.fetch, rest);
  }

  /** The text of a statement, grouped from the right as the reader takes it. */
  lemma Regrouped(q: Query, rest: seq<Token>)
    ensures Tokens(q) + rest
            == [SELECT] + (NumberTokens(TOP, q.top) + ([q.columns] + (NumberingTokens(q.numbering)
            + ([FROM] + (SourceTokens(q.source) + TailTokens(q, rest))))))
  {
    var a1 := [SELECT];
    var a2 := a1 + NumberTokens(TOP, q.top);
    var a3 := a2 + [q.columns];
    var a4 := a3 + NumberingTokens(q.numbering);
    var a5 := a4 + [FROM];
    var a6 := a5 + SourceTokens(q.source);
    var a7 := a6 + WhereTokens(q.conditions);
    var a8 := a7 + OrderTokens(q.order);
    var a9 := a8 + NumberTokens(LIMIT, q.limit);
    var a10 := a9 + OffsetTokens(q.offset);
    var r10 := FetchTokens(q.fetch) + rest;
    var r9 := OffsetTokens(q.offset) + r10;
    var r8 := NumberTokens(LIMIT, q.limit) + r9;
    var r7 := OrderTokens(q.order) + r8;
    var r6 := TailTokens(q, rest);
    var r5 := SourceTokens(q.source) + r6;
    var r4 := [FROM] + r5;
    var r3 := NumberingTokens(q.numbering) + r4;
    var r2 := [q.columns] + r3;
    Assoc(a10, FetchTokens(q.fetch), rest);
    Assoc(a9, OffsetTokens(q.offset), r10);
    Assoc(a8, NumberTokens(LIMIT, q.limit), r9);
    Assoc(a7, OrderTokens(q.order), r8);
    Assoc(a6, WhereTokens(q.conditions), r7);
    Assoc(a5, SourceTokens(q.source), r6);
    Assoc(a4, [FROM], r5);
    Assoc(a3, NumberingTokens(q.numbering), r4);
    Assoc(a2, [q.columns], r3);
    Assoc(a1, NumberTokens(TOP, q.top), r2);
  }

  lemma {:induction false} SourceBack(s: Source, rest: seq<Token>)
    requires s.Nested? ==> (s.alias.Some? ==> IsAlias(s.alias.value)) && WellFormed(s.query)
    requires Clause(rest)
    ensures ParseSource(SourceTokens(s) + rest) == Parsed(s, rest)
    decreases s, 0
  {
    if s.Nested? {
      var after := AliasTokens(s.alias) + rest;
      var inner := Tokens(s.query) + ([CLOSE] + after);
      assert SourceTokens(s) + rest == [OPEN] + inner by {
        Assoc([OPEN], Tokens(s.query) + ([CLOSE] + AliasTokens(s.alias)), rest);
        Assoc(Tokens(s.query), [CLOSE] + AliasTokens(s.alias), rest);
        Assoc([CLOSE], AliasTokens(s.alias), rest);
      }
      QueryBack(s.query, [CLOSE] + after);
      Tail(OPEN, inner);
      Tail(CLOSE, after);
      AliasBack(s.alias, rest);
    }
  }

  lemma AliasBack(alias: Option<Token>, rest: seq<Token>)
    requires alias.Some? ==> IsAlias(alias.value)
    requires Clause(rest)
    ensures ParseAlias(AliasTokens(alias) + rest) == Parsed(alias, rest)
  {
    if alias.None? {
      assert AliasTokens(alias) + rest == rest;
    }
  }

  /** The reader gets every statement back from its text. */
  lemma {:induction false} QueryBack(q: Query, rest: seq<Token>)
    requires WellFormed(q) && Ends(rest)
    ensures ParseQuery(Tokens(q) + rest) == Parsed(q, rest)
    decreases q, 1
  {
    TailBack(q, rest);
    var r6 := TailTokens(q, rest);
    SourceBack(q.source, r6);
    var r5 := SourceTokens(q.source) + r6;
    var r4 := [FROM] + r5;
    NumberingBack(q.numbering, r4);
    var r3 := NumberingTokens(q.numbering) + r4;
    var r2 := [q.columns] + r3;
    NumberBack(TOP, q.top, r2);
    Regrouped(q, rest);
    var r1 := NumberTokens(TOP, q.top) + r2;
    Tail(SELECT, r1);
    Tail(q.columns, r3);
    Tail(FROM, r5);
  }

  /** The statement that a text says. */
  function Statement(ts: seq<Token>): Option<Query> {
    var p := ParseQuery(ts);
    if p.Parsed? && p.rest == [] then Some(p.value) else None
  }

  /** A statement is read back from its tokens: no two statements are written as the same
      sequence of words, numbers and clauses. */
  lemma TextDeterminesStatement(q: Query)
    requires WellFormed(q)
    ensures Statement(Tokens(q)) == Some(q)
  {
    assert Tokens(q) + [] == Tokens(q);
    QueryBack(q, []);
  }
}
