/** What the statements of the adapters mean, and that the dialects page alike
    (GetSelectStatement of dbutils). A statement is evaluated in the order of SQL: source,
    conditions, row numbers, order, the cut by TOP, LIMIT, OFFSET and FETCH, and last the
    columns. */
module SqlPaging {
  import opened Arithmetic
  import opened Options
  import opened SqlText
  import opened SqlAdapters

  /** A row of a result, with its number where the statement selected one. */
  datatype Out<R> = Out(row: R, rnum: Option<int>)

  /** A database: its tables, what the caller's texts mean there, and how it orders rows.
      `project` is the row that a select of these columns makes of a row. A condition text is a list of alternatives joined by OR. Sorting for ORDER BY and
      ranking for ROW_NUMBER may break ties differently, also from one engine to the next. */
  datatype Engine<!R(!new)> = Engine(
    table: string -> seq<R>,
    alternatives: string -> seq<R -> bool>,
    column: (string, R) -> int,
    project: (string, R) -> R,
    sort: (string, seq<Out<R>>) -> seq<Out<R>>,
    rank: (string, seq<Out<R>>) -> seq<Out<R>>)

  ghost predicate SortedBy<R(!new)>(e: Engine<R>, column: string, rows: seq<Out<R>>) {
    forall i, j :: 0 <= i < j < |rows| ==> e.column(column, rows[i].row) <= e.column(column, rows[j].row)
  }

  /** Selecting the same columns of what has been selected changes nothing: they are columns by
      name, not expressions. */
  ghost predicate NamesColumns<R(!new)>(project: (string, R) -> R) {
    forall columns, row :: project(columns, project(columns, row)) == project(columns, row)
  }

  ghost predicate Lawful<R(!new)>(e: Engine<R>) {
    && NamesColumns(e.project)
    && (forall column, rows :: multiset(e.sort(column, rows)) == multiset(rows)
                               && SortedBy(e, column, e.sort(column, rows)))
    && (forall column, rows :: multiset(e.rank(column, rows)) == multiset(rows)
                               && SortedBy(e, column, e.rank(column, rows)))
  }

  // ---------------------------------------------------------------------------
  // Evaluation
  // ---------------------------------------------------------------------------

  predicate Compared(value: int, op: Token, n: int) {
    match op
    case AT_LEAST => value >= n
    case LESS => value < n
    case AT_MOST => value <= n
    case _ => value > n
  }

  /** An alternative before the last; what follows the text with AND does not bind to it. */
  ghost predicate Early<R(!new)>(e: Engine<R>, text: string, row: R) {
    exists i :: 0 <= i < |e.alternatives(text)| - 1 && e.alternatives(text)[i](row)
  }

  ghost predicate Last<R(!new)>(e: Engine<R>, text: string, row: R) {
    var n := |e.alternatives(text)|;
    n > 0 && e.alternatives(text)[n - 1](row)
  }

  ghost predicate Holds<R(!new)>(e: Engine<R>, c: Condition, o: Out<R>, rownum: int) {
    match c
    case Given(text) => Early(e, text, o.row) || Last(e, text, o.row)
    case Compare(subject, op, n) =>
      match subject
      case Text(column) => Compared(e.column(column, o.row), op, n)
      case ROWNUM => Compared(rownum, op, n)
      case _ => o.rnum.Some? && Compared(o.rnum.value, op, n)
  }

  /** AND binds tighter than the ORs inside the caller's text in front. */
  ghost predicate Passes<R(!new)>(e: Engine<R>, cs: seq<Condition>, o: Out<R>, rownum: int) {
    (cs != [] && cs[0].Given? && Early(e, cs[0].text, o.row))
    || forall j :: 0 <= j < |cs| ==>
         if j == 0 && cs[0].Given? then Last(e, cs[0].text, o.row) else Holds(e, cs[j], o, rownum)
  }

  /** The rows that pass; ROWNUM of a row counts those that passed before it, and itself. */
  ghost function Keep<R(!new)>(e: Engine<R>, cs: seq<Condition>, rows: seq<Out<R>>, passed: nat): seq<Out<R>> {
    if rows == [] then []
    else if Passes(e, cs, rows[0], passed + 1) then [rows[0]] + Keep(e, cs, rows[1..], passed + 1)
    else Keep(e, cs, rows[1..], passed)
  }

  function Plain<R>(rows: seq<R>): (outs: seq<Out<R>>)
    ensures |outs| == |rows|
  {
    seq(|rows|, i requires 0 <= i < |rows| => Out(rows[i], None))
  }

  function Rows<R>(outs: seq<Out<R>>): (rows: seq<R>)
    ensures |rows| == |outs|
  {
    seq(|outs|, i requires 0 <= i < |outs| => outs[i].row)
  }

  function Numbered<R>(outs: seq<Out<R>>): (numbered: seq<Out<R>>)
    ensures |numbered| == |outs|
  {
    seq(|outs|, i requires 0 <= i < |outs| => Out(outs[i].row, Some(i + 1)))
  }

  function Clamp(n: int, size: nat): nat {
    if n < 0 then 0 else if n > size then size else n
  }

  function Take<R>(outs: seq<Out<R>>, n: Option<int>): seq<Out<R>> {
    if n.None? then outs else outs[..Clamp(n.value, |outs|)]
  }

  predicate Negative(n: Option<int>) {
    n.Some? && n.value < 0
  }

  predicate NamesRnum(cs: seq<Condition>) {
    exists i :: 0 <= i < |cs| && cs[i].Compare? && cs[i].subject.RNUM?
  }

  /** What a database checks before it evaluates: no negative counts, and rnum only where the
      statement inside selects it. */
  predicate Accepted(q: Query) {
    && !Negative(q.top) && !Negative(q.limit) && !Negative(q.fetch)
    && (q.offset.Some? ==> q.offset.value.n >= 0)
    && (q.source.Nested? ==> Accepted(q.source.query))
    && (NamesRnum(q.conditions) ==> q.source.Nested? && !q.source.query.numbering.Unnumbered?)
  }

  ghost function Number<R(!new)>(e: Engine<R>, n: Numbering, kept: seq<Out<R>>): seq<Out<R>> {
    match n
    case Unnumbered => kept
    case Rownum => Numbered(kept)
    case RowNumberOver(column) => Numbered(e.rank(column, kept))
  }

  ghost function Sort<R(!new)>(e: Engine<R>, order: Option<string>, rows: seq<Out<R>>): seq<Out<R>> {
    if order.None? then rows else e.sort(order.value, rows)
  }

  function Cut<R>(q: Query, rows: seq<Out<R>>): seq<Out<R>> {
    var from := if q.offset.None? then 0 else q.offset.value.n;
    Take(Take(Take(rows[Clamp(from, |rows|)..], q.limit), q.fetch), q.top)
  }

  /** The columns selected; row numbers stay. */
  function Project<R>(project: (string, R) -> R, columns: Token, outs: seq<Out<R>>): (r: seq<Out<R>>)
    ensures |r| == |outs|
  {
    if columns.Text? then
      seq(|outs|, i requires 0 <= i < |outs| => Out(project(columns.text, outs[i].row), outs[i].rnum))
    else outs
  }

  /** The rows that a caller who asks for `columns` is to see of `rows`. */
  ghost function Chosen<R(!new)>(project: (string, R) -> R, columns: string, rows: seq<R>): (r: seq<R>)
    ensures |r| == |rows|
  {
    if WholeRows(columns) then rows
    else seq(|rows|, i requires 0 <= i < |rows| => project(columns, rows[i]))
  }

  lemma RowsProjected<R(!new)>(project: (string, R) -> R, columns: string, outs: seq<Out<R>>)
    ensures Rows(Project(project, Columns(columns), outs)) == Chosen(project, columns, Rows(outs))
  {
    ColumnsExactly(columns);
  }

  lemma PlainProjected<R(!new)>(project: (string, R) -> R, columns: string, rows: seq<R>)
    ensures Project(project, Columns(columns), Plain(rows)) == Plain(Chosen(project, columns, rows))
  {
    ColumnsExactly(columns);
  }

  lemma NumberedProjected<R(!new)>(project: (string, R) -> R, columns: string, rows: seq<R>, n: nat)
    requires n <= |rows|
    ensures Project(project, Columns(columns), Numbered(Plain(rows))[..n])
            == Numbered(Plain(Chosen(project, columns, rows)))[..n]
  {
    ColumnsExactly(columns);
  }

  lemma ChosenTwice<R(!new)>(project: (string, R) -> R, columns: string, rows: seq<R>)
    requires NamesColumns(project)
    ensures Chosen(project, columns, Chosen(project, columns, rows)) == Chosen(project, columns, rows)
  {
  }

  ghost function SourceRows<R(!new)>(e: Engine<R>, s: Source): seq<Out<R>>
    decreases s, 0
  {
    match s
    case Table(name) => Plain(e.table(name))
    case Nested(query, _) => Eval(e, query)
  }

  /** The rows of a statement. */
  ghost function Eval<R(!new)>(e: Engine<R>, q: Query): seq<Out<R>>
    decreases q, 1
  {
    Project(e.project, q.columns,
            Cut(q, Sort(e, q.order, Number(e, q.numbering, Keep(e, q.conditions, SourceRows(e, q.source), 0)))))
  }

  ghost function Result<R(!new)>(e: Engine<R>, q: Option<Query>): Option<seq<R>> {
    if q.None? || !Accepted(q.value) then None else Some(Rows(Eval(e, q.value)))
  }

  /** The rows that a text yields; none where the adapter or the database returns an error. */
  ghost function Answer<R(!new)>(e: Engine<R>, text: Option<seq<Token>>): Option<seq<R>> {
    if text.None? then None else Result(e, Statement(text.value))
  }

  lemma AnswerIs<R(!new)>(d: Dialect, e: Engine<R>, r: Request)
    ensures Answer(e, TextOf(d, r)) == Result(e, StatementOf(d, r))
  {
    if StatementOf(d, r).Some? {
      TextMeansStatement(d, r);
    }
  }

  /** Evaluation, one stage at a time. */
  lemma Stages<R(!new)>(e: Engine<R>, q: Query, source: seq<Out<R>>, kept: seq<Out<R>>, numbered: seq<Out<R>>, sorted: seq<Out<R>>)
    requires SourceRows(e, q.source) == source && Keep(e, q.conditions, source, 0) == kept
    requires Number(e, q.numbering, kept) == numbered && Sort(e, q.order, numbered) == sorted
    ensures Eval(e, q) == Project(e.project, q.columns, Cut(q, sorted))
  {
  }

  // ---------------------------------------------------------------------------
  // Sorting by a key without ties has one result
  // ---------------------------------------------------------------------------

  ghost predicate Strictly<R(!new)>(e: Engine<R>, column: string, rows: seq<R>) {
    forall i, j :: 0 <= i < j < |rows| ==> e.column(column, rows[i]) < e.column(column, rows[j])
  }

  lemma {:induction false} SortUnique<R(!new)>(e: Engine<R>, column: string, a: seq<Out<R>>, b: seq<Out<R>>)
    requires multiset(a) == multiset(b)
    requires SortedBy(e, column, a)
    requires forall i, j :: 0 <= i < j < |b| ==> e.column(column, b[i].row) < e.column(column, b[j].row)
    ensures a == b
    decreases |a|
  {
    assert |multiset(a)| == |a| && |multiset(b)| == |b|;
    if a != [] {
      SameHead(e, column, a, b);
      SameTails(a, b);
      SortUnique(e, column, a[1..], b[1..]);
      assert a == [a[0]] + a[1..] && b == [b[0]] + b[1..];
    }
  }

  lemma SameTails<T>(a: seq<T>, b: seq<T>)
    requires a != [] && b != [] && a[0] == b[0] && multiset(a) == multiset(b)
    ensures multiset(a[1..]) == multiset(b[1..])
  {
    assert a == [a[0]] + a[1..] && b == [b[0]] + b[1..];
    assert multiset(a[1..]) == multiset(a) - multiset{a[0]};
    assert multiset(b[1..]) == multiset(b) - multiset{b[0]};
  }

  lemma SameHead<R(!new)>(e: Engine<R>, column: string, a: seq<Out<R>>, b: seq<Out<R>>)
    requires multiset(a) == multiset(b) && a != [] && b != []
    requires SortedBy(e, column, a)
    requires forall i, j :: 0 <= i < j < |b| ==> e.column(column, b[i].row) < e.column(column, b[j].row)
    ensures a[0] == b[0]
  {
    assert a[0] in multiset(b) && b[0] in multiset(a);
    var i :| 0 <= i < |b| && b[i] == a[0];
    var j :| 0 <= j < |a| && a[j] == b[0];
    assert j > 0 ==> e.column(column, a[0].row) <= e.column(column, a[j].row);
  }

  lemma {:induction false} PlainCount<R>(rows: seq<R>, o: Out<R>)
    ensures multiset(Plain(rows))[o] == if o.rnum.None? then multiset(rows)[o.row] else 0
  {
    if rows == [] {
    } else {
      assert Plain(rows) == [Out(rows[0], None)] + Plain(rows[1..]);
      assert rows == [rows[0]] + rows[1..];
      PlainCount(rows[1..], o);
    }
  }

  lemma PlainMultiset<R>(a: seq<R>, b: seq<R>)
    requires multiset(a) == multiset(b)
    ensures multiset(Plain(a)) == multiset(Plain(b))
  {
    forall o ensures multiset(Plain(a))[o] == multiset(Plain(b))[o] {
      PlainCount(a, o);
      PlainCount(b, o);
    }
  }

  // ---------------------------------------------------------------------------
  // Conditions
  // ---------------------------------------------------------------------------

  ghost predicate Matches<R(!new)>(e: Engine<R>, text: string, row: R) {
    text == "" || Early(e, text, row) || Last(e, text, row)
  }

  ghost function Filtered<R(!new)>(e: Engine<R>, text: string, rows: seq<R>): seq<R> {
    if rows == [] then []
    else (if Matches(e, text, rows[0]) then [rows[0]] else []) + Filtered(e, text, rows[1..])
  }

  lemma {:induction false} KeepGiven<R(!new)>(e: Engine<R>, r: Request, start: int, rows: seq<R>, passed: nat)
    requires PartitionColumn(r) == ""
    ensures Keep(e, Conditions(r, start), Plain(rows), passed) == Plain(Filtered(e, r.condition, rows))
    decreases |rows|
  {
    if rows != [] {
      assert Plain(rows)[1..] == Plain(rows[1..]);
      var pass := Passes(e, Conditions(r, start), Plain(rows)[0], passed + 1);
      assert pass == Matches(e, r.condition, rows[0]);
      KeepGiven(e, r, start, rows[1..], if pass then passed + 1 else passed);
    }
  }

  lemma {:induction false} KeepAll<R(!new)>(e: Engine<R>, rows: seq<Out<R>>, passed: nat)
    ensures Keep(e, [], rows, passed) == rows
    decreases |rows|
  {
    if rows != [] {
      assert Passes(e, [], rows[0], passed + 1);
      KeepAll(e, rows[1..], passed + 1);
    }
  }

  /** A bound on ROWNUM keeps that many rows of the front. */
  lemma {:induction false} KeepRownum<R(!new)>(e: Engine<R>, n: int, rows: seq<Out<R>>, passed: nat)
    ensures Keep(e, [Compare(ROWNUM, AT_MOST, n)], rows, passed) == rows[..Clamp(n - passed, |rows|)]
    decreases |rows|
  {
    if rows != [] {
      var cs := [Compare(ROWNUM, AT_MOST, n)];
      assert Passes(e, cs, rows[0], passed + 1) == Holds(e, cs[0], rows[0], passed + 1);
      KeepRownum(e, n, rows[1..], if passed + 1 <= n then passed + 1 else passed);
      if passed + 1 <= n {
        assert [rows[0]] + rows[1..][..Clamp(n - passed - 1, |rows| - 1)] == rows[..Clamp(n - passed, |rows|)];
      }
    }
  }

  predicate NumberedFrom<R>(outs: seq<Out<R>>, first: int) {
    forall i :: 0 <= i < |outs| ==> outs[i].rnum == Some(first + i)
  }

  function Range(lo: int, hi: Option<int>): seq<Condition> {
    [Compare(RNUM, GREATER, lo)] + if hi.None? then [] else [Compare(RNUM, AT_MOST, hi.value)]
  }

  lemma RangePasses<R(!new)>(e: Engine<R>, lo: int, hi: Option<int>, o: Out<R>, rownum: int)
    requires o.rnum.Some?
    ensures Passes(e, Range(lo, hi), o, rownum) <==> lo < o.rnum.value && (hi.Some? ==> o.rnum.value <= hi.value)
  {
    var cs := Range(lo, hi);
    assert Holds(e, cs[0], o, rownum) <==> lo < o.rnum.value;
    if hi.Some? {
      assert Holds(e, cs[1], o, rownum) <==> o.rnum.value <= hi.value;
    }
  }

  /** The rows numbered above `lo` and up to `hi`, when the first is numbered `first`. */
  function Between<T>(s: seq<T>, first: int, lo: int, hi: Option<int>): seq<T>
    requires hi.Some? ==> lo <= hi.value
  {
    s[Clamp(lo - first + 1, |s|)..if hi.Some? then Clamp(hi.value - first + 1, |s|) else |s|]
  }

  predicate InRange(n: int, lo: int, hi: Option<int>) {
    lo < n && (hi.Some? ==> n <= hi.value)
  }

  lemma BetweenStep<T>(s: seq<T>, first: int, lo: int, hi: Option<int>)
    requires s != [] && (hi.Some? ==> lo <= hi.value)
    ensures Between(s, first, lo, hi)
            == (if InRange(first, lo, hi) then [s[0]] else []) + Between(s[1..], first + 1, lo, hi)
  {
    var from, to := Clamp(lo - first + 1, |s|), if hi.Some? then Clamp(hi.value - first + 1, |s|) else |s|;
    if first <= lo {
      assert Clamp(lo - first, |s| - 1) == from - 1;
      SliceOfTail(s, from - 1, to - 1);
    } else if InRange(first, lo, hi) {
      SliceWithHead(s, to);
    }
  }

  lemma SliceOfTail<T>(s: seq<T>, from: nat, to: nat)
    requires s != [] && from <= to < |s|
    ensures s[1..][from..to] == s[1 + from..1 + to]
  {
  }

  lemma SliceWithHead<T>(s: seq<T>, to: nat)
    requires 0 < to <= |s|
    ensures s[0..to] == [s[0]] + s[1..][0..to - 1]
  {
  }

  lemma KeepStep<R(!new)>(e: Engine<R>, lo: int, hi: Option<int>, outs: seq<Out<R>>, first: int, passed: nat)
    requires outs != [] && outs[0].rnum == Some(first)
    ensures Keep(e, Range(lo, hi), outs, passed)
            == if InRange(first, lo, hi) then [outs[0]] + Keep(e, Range(lo, hi), outs[1..], passed + 1)
               else Keep(e, Range(lo, hi), outs[1..], passed)
  {
    RangePasses(e, lo, hi, outs[0], passed + 1);
    var cs := Range(lo, hi);
    assert Passes(e, cs, outs[0], passed + 1) <==> InRange(first, lo, hi);
  }

  /** Bounds on consecutive row numbers cut out a slice. */
  lemma {:induction false} KeepRange<R(!new)>(e: Engine<R>, lo: int, hi: Option<int>, outs: seq<Out<R>>, first: int, passed: nat)
    requires NumberedFrom(outs, first) && (hi.Some? ==> lo <= hi.value)
    ensures Keep(e, Range(lo, hi), outs, passed) == Between(outs, first, lo, hi)
    decreases |outs|
  {
    if outs != [] {
      KeepStep(e, lo, hi, outs, first, passed);
      BetweenStep(outs, first, lo, hi);
      KeepRange(e, lo, hi, outs[1..], first + 1, if InRange(first, lo, hi) then passed + 1 else passed);
    }
  }

  // ---------------------------------------------------------------------------
  // Pages
  // ---------------------------------------------------------------------------

  /** The rows [start, start + count) of a sequence. */
  function Page<R>(rows: seq<R>, start: int, count: nat): seq<R> {
    rows[Clamp(start, |rows|)..Clamp(start + count, |rows|)]
  }

  lemma PageChosen<R(!new)>(project: (string, R) -> R, columns: string, rows: seq<R>, start: int, count: nat)
    ensures Page(Chosen(project, columns, rows), start, count) == Chosen(project, columns, Page(rows, start, count))
  {
  }

  /** A paging request against a table whose matching rows, in the order asked for, are `sorted`. */
  ghost predicate Pages<R(!new)>(e: Engine<R>, r: Request, sorted: seq<R>) {
    && Lawful(e) && r.table != "" && r.orderBy != "" && PartitionColumn(r) == "" && r.count > 0
    && multiset(sorted) == multiset(Filtered(e, r.condition, e.table(r.table)))
    && Strictly(e, r.orderBy, sorted)
  }

  /** What sorting and ranking come to in a paging request; without an order the rows stay as the
      table has them. */
  ghost predicate Sorts<R(!new)>(e: Engine<R>, r: Request, sorted: seq<R>) {
    var matching := Filtered(e, r.condition, e.table(r.table));
    && NamesColumns(e.project)
    && if r.orderBy == "" then sorted == matching
       else
         && e.sort(r.orderBy, Plain(matching)) == Plain(sorted) && e.rank(r.orderBy, Plain(matching)) == Plain(sorted)
         && e.sort(r.orderBy, Numbered(Plain(sorted))) == Numbered(Plain(sorted))
  }

  lemma PagesSort<R(!new)>(e: Engine<R>, r: Request, sorted: seq<R>)
    requires Pages(e, r, sorted)
    ensures Sorts(e, r, sorted)
  {
    var outs := Plain(Filtered(e, r.condition, e.table(r.table)));
    PlainMultiset(sorted, Filtered(e, r.condition, e.table(r.table)));
    SortUnique(e, r.orderBy, e.sort(r.orderBy, outs), Plain(sorted));
    SortUnique(e, r.orderBy, e.rank(r.orderBy, outs), Plain(sorted));
    SortUnique(e, r.orderBy, e.sort(r.orderBy, Numbered(Plain(sorted))), Numbered(Plain(sorted)));
  }

  lemma ConditionsNameNoRnum(r: Request, start: int)
    ensures !NamesRnum(Conditions(r, start))
  {
  }

  lemma TakePage<R>(sorted: seq<R>, from: nat, to: nat)
    ensures Rows(Take(Plain(sorted)[Clamp(from, |sorted|)..], Some(to))) == Page(sorted, from, to)
  {
    var lo, hi := Clamp(from, |sorted|), Clamp(from + to, |sorted|);
    assert Take(Plain(sorted)[lo..], Some(to)) == Plain(sorted)[lo..hi];
  }

  /** Statements that only sort the matching rows and cut once at either end. */
  lemma SelectionPages<R(!new)>(e: Engine<R>, r: Request, sorted: seq<R>, start: int, q: Query, from: nat, to: int)
    requires Sorts(e, r, sorted) && PartitionColumn(r) == "" && to >= 0
    requires q == Selection(r, start).(top := q.top, limit := q.limit, offset := q.offset, fetch := q.fetch)
    requires if q.offset.None? then from == 0 else q.offset.value.n == from
    requires || (q.top == Some(to) && q.limit.None? && q.fetch.None?)
             || (q.top.None? && q.limit == Some(to) && q.fetch.None?)
             || (q.top.None? && q.limit.None? && q.fetch == Some(to))
    ensures Result(e, Some(q)) == Some(Chosen(e.project, r.columns, Page(sorted, from, to)))
  {
    ConditionsNameNoRnum(r, start);
    KeepGiven(e, r, start, e.table(r.table), 0);
    var kept := Plain(Filtered(e, r.condition, e.table(r.table)));
    Stages(e, q, Plain(e.table(r.table)), kept, kept, Plain(sorted));
    TakePage(sorted, from, to);
    RowsProjected(e.project, r.columns, Cut(q, Plain(sorted)));
  }

  /** The three levels of the Oracle statement. */
  lemma OraclePages<R(!new)>(e: Engine<R>, r: Request, sorted: seq<R>)
    requires Sorts(e, r, sorted) && PartitionColumn(r) == "" && r.count > 0
    ensures Result(e, Some(OracleStatement(r))) == Some(Chosen(e.project, r.columns, Page(sorted, r.start, r.count)))
  {
    OracleInner(e, r, sorted);
    var named := Chosen(e.project, r.columns, sorted);
    var front := Plain(named)[..Clamp(r.start + r.count, |named|)];
    OracleMiddle(e, r, named);
    OracleOuter(e, r, front);
    OracleChosen(e.project, r, sorted, front);
  }

  lemma OracleChosen<R(!new)>(project: (string, R) -> R, r: Request, sorted: seq<R>, front: seq<Out<R>>)
    requires NamesColumns(project) && r.count > 0
    requires var named := Chosen(project, r.columns, sorted);
             front == Plain(named)[..Clamp(r.start + r.count, |named|)]
    ensures Rows(Project(project, Columns(r.columns), Numbered(front)[Clamp(r.start, |front|)..]))
            == Chosen(project, r.columns, Page(sorted, r.start, r.count))
  {
    OracleSlice(Chosen(project, r.columns, sorted), r.start, r.count);
    RowsProjected(project, r.columns, Numbered(front)[Clamp(r.start, |front|)..]);
    PageChosen(project, r.columns, sorted, r.start, r.count);
    ChosenTwice(project, r.columns, Page(sorted, r.start, r.count));
  }

  lemma OracleOuter<R(!new)>(e: Engine<R>, r: Request, front: seq<Out<R>>)
    requires PartitionColumn(r) == "" && (r.count != 0 || r.start != 0) && Eval(e, OracleRows(r)) == Numbered(front)
    ensures Eval(e, OracleStatement(r))
            == Project(e.project, Columns(r.columns), Numbered(front)[Clamp(r.start, |front|)..])
  {
    var page := Numbered(front)[Clamp(r.start, |front|)..];
    KeepRange(e, r.start, None, Numbered(front), 1, 0);
    assert OracleStatement(r).conditions == Range(r.start, None);
    Stages(e, OracleStatement(r), Numbered(front), page, page, page);
  }

  lemma OracleInner<R(!new)>(e: Engine<R>, r: Request, sorted: seq<R>)
    requires Sorts(e, r, sorted) && PartitionColumn(r) == ""
    ensures Eval(e, Selection(r, r.start)) == Plain(Chosen(e.project, r.columns, sorted))
  {
    KeepGiven(e, r, r.start, e.table(r.table), 0);
    var kept := Plain(Filtered(e, r.condition, e.table(r.table)));
    Stages(e, Selection(r, r.start), Plain(e.table(r.table)), kept, kept, Plain(sorted));
    PlainProjected(e.project, r.columns, sorted);
  }

  lemma OracleMiddle<R(!new)>(e: Engine<R>, r: Request, sorted: seq<R>)
    requires r.count != 0 && Eval(e, Selection(r, r.start)) == Plain(sorted)
    ensures Eval(e, OracleRows(r)) == Numbered(Plain(sorted)[..Clamp(r.start + r.count, |sorted|)])
    ensures Accepted(Selection(r, r.start)) && Accepted(OracleRows(r)) && Accepted(OracleStatement(r))
  {
    ConditionsNameNoRnum(r, r.start);
    assert Accepted(Selection(r, r.start)) && Accepted(OracleRows(r));
    KeepRownum(e, r.start + r.count, Plain(sorted), 0);
    var front := Plain(sorted)[..Clamp(r.start + r.count, |sorted|)];
    assert OracleRows(r).conditions == [Compare(ROWNUM, AT_MOST, r.start + r.count)];
    Stages(e, OracleRows(r), Plain(sorted), front, Numbered(front), Numbered(front));
  }

  lemma OracleSlice<R>(sorted: seq<R>, start: int, count: nat)
    ensures var front := Plain(sorted)[..Clamp(start + count, |sorted|)];
            Rows(Numbered(front)[Clamp(start, |front|)..]) == Page(sorted, start, count)
  {
    var front := Plain(sorted)[..Clamp(start + count, |sorted|)];
    var lo := Clamp(start, |front|);
    assert lo == Clamp(start, |sorted|);
    forall i | 0 <= i < |front| - lo ensures Numbered(front)[lo..][i].row == sorted[lo + i] {
    }
  }

  /** TOP and ROW_NUMBER: numbering and sorting are two sorts, equal as there are no ties. */
  lemma Mssql2008Pages<R(!new)>(e: Engine<R>, r: Request, sorted: seq<R>)
    requires Sorts(e, r, sorted) && PartitionColumn(r) == "" && r.orderBy != "" && r.count > 0
    requires r.start >= 0
    ensures Result(e, Some(Mssql2008Statement(r))) == Some(Chosen(e.project, r.columns, Page(sorted, r.start, r.count)))
  {
    Mssql2008Inner(e, r, sorted);
    var end := r.start + r.count;
    var named := Chosen(e.project, r.columns, sorted);
    var inner := Numbered(Plain(named))[..Clamp(end, |named|)];
    var page := inner[Clamp(r.start, |inner|)..Clamp(end, |inner|)];
    Mssql2008Outer(e, r, inner, page);
    Mssql2008Slice(named, r.start, r.count);
    PageChosen(e.project, r.columns, sorted, r.start, r.count);
  }

  lemma Mssql2008Outer<R(!new)>(e: Engine<R>, r: Request, inner: seq<Out<R>>, page: seq<Out<R>>)
    requires PartitionColumn(r) == "" && r.count > 0 && r.start >= 0
    requires Eval(e, Mssql2008Rows(r)) == inner && NumberedFrom(inner, 1)
    requires page == inner[Clamp(r.start, |inner|)..Clamp(r.start + r.count, |inner|)]
    ensures Eval(e, Mssql2008Statement(r)) == page
  {
    var end := r.start + r.count;
    KeepRange(e, r.start, Some(end), inner, 1, 0);
    assert Mssql2008Statement(r).conditions == Range(r.start, Some(end));
    Stages(e, Mssql2008Statement(r), inner, page, page, page);
  }

  lemma Mssql2008Slice<R>(sorted: seq<R>, start: nat, count: nat)
    ensures var inner := Numbered(Plain(sorted))[..Clamp(start + count, |sorted|)];
            Rows(inner[Clamp(start, |inner|)..Clamp(start + count, |inner|)]) == Page(sorted, start, count)
  {
    var hi := Clamp(start + count, |sorted|);
    var inner := Numbered(Plain(sorted))[..hi];
    assert Clamp(start + count, |inner|) == hi && Clamp(start, |inner|) == Clamp(start, |sorted|);
    assert forall i :: 0 <= i < hi ==> inner[i].row == sorted[i];
  }

  lemma Mssql2008Inner<R(!new)>(e: Engine<R>, r: Request, sorted: seq<R>)
    requires Sorts(e, r, sorted) && PartitionColumn(r) == "" && r.orderBy != "" && r.count > 0
    requires r.start >= 0
    ensures var named := Chosen(e.project, r.columns, sorted);
            Eval(e, Mssql2008Rows(r)) == Numbered(Plain(named))[..Clamp(r.start + r.count, |named|)]
    ensures Accepted(Mssql2008Rows(r)) && Accepted(Mssql2008Statement(r))
  {
    ConditionsNameNoRnum(r, r.start);
    assert Accepted(Mssql2008Rows(r));
    KeepGiven(e, r, r.start, e.table(r.table), 0);
    var kept := Plain(Filtered(e, r.condition, e.table(r.table)));
    var numbered := Numbered(Plain(sorted));
    Stages(e, Mssql2008Rows(r), Plain(e.table(r.table)), kept, numbered, numbered);
    NumberedProjected(e.project, r.columns, sorted, Clamp(r.start + r.count, |sorted|));
  }

  /** What each dialect pages for any start: only from 0 on do they all give the page. */
  ghost function Expected<R(!new)>(d: Dialect, project: (string, R) -> R, r: Request, sorted: seq<R>): Option<seq<R>>
    requires r.count > 0
  {
    if r.start >= 0 || d == Oracle then Some(Chosen(project, r.columns, Page(sorted, r.start, r.count)))
    else if d == Generic then None
    else Some(Chosen(project, r.columns, Page(sorted, 0, r.count)))
  }

  lemma DialectPages<R(!new)>(d: Dialect, e: Engine<R>, r: Request, sorted: seq<R>)
    requires Pages(e, r, sorted)
    ensures Answer(e, TextOf(d, r)) == Expected(d, e.project, r, sorted)
  {
    AnswerIs(d, e, r);
    PagesSort(e, r, sorted);
    StatementPages(d, e, r, sorted);
  }

  lemma StatementPages<R(!new)>(d: Dialect, e: Engine<R>, r: Request, sorted: seq<R>)
    requires Sorts(e, r, sorted)
    requires r.table != "" && PartitionColumn(r) == "" && r.count > 0
    requires r.orderBy != "" || r.start < 0 || (d != Mssql && d != Mssql2008)
    ensures Result(e, StatementOf(d, r)) == Expected(d, e.project, r, sorted)
  {
    match d
    case Oracle => OraclePages(e, r, sorted);
    case Mssql2008 =>
      if r.start >= 0 {
        Mssql2008Pages(e, r, sorted);
      } else {
        SelectionPages(e, r, sorted, 0, Mssql2008Statement(r), 0, r.count);
      }
    case Mssql =>
      SelectionPages(e, r, sorted, r.start, MssqlStatement(r), NotNegative(r.start), r.count);
    case Oracle12 =>
      SelectionPages(e, r, sorted, r.start, Oracle12Statement(r), NotNegative(r.start), r.count);
    case Generic =>
      if r.start >= 0 {
        SelectionPages(e, r, sorted, r.start, GenericStatement(r), r.start, r.count);
      }
  }

  /** Without an order the dialects page the rows as the table has them, but for the two of
      Microsoft, which reject that from a start of 0 on. */
  lemma UnorderedPages<R(!new)>(d: Dialect, e: Engine<R>, r: Request)
    requires Lawful(e) && r.table != "" && r.orderBy == "" && PartitionColumn(r) == "" && r.count > 0
    ensures Answer(e, TextOf(d, r))
            == if r.start >= 0 && (d == Mssql || d == Mssql2008) then None
               else Expected(d, e.project, r, Filtered(e, r.condition, e.table(r.table)))
  {
    AnswerIs(d, e, r);
    if r.start >= 0 && d == Mssql2008 {
      Mssql2008PagesOnlyOrdered(e, r);
    } else if r.start < 0 || d != Mssql {
      StatementPages(d, e, r, Filtered(e, r.condition, e.table(r.table)));
    }
  }

  /** What each dialect yields for a start without a count: the rows from there on, except that
      the two of Microsoft yield them all, and that only Oracle takes a negative start as 0, with
      Oracle 12. */
  lemma DialectsSkip<R(!new)>(d: Dialect, e: Engine<R>, r: Request, sorted: seq<R>)
    requires Sorts(e, r, sorted) && r.table != "" && PartitionColumn(r) == "" && r.count == 0 && r.start != 0
    ensures Answer(e, TextOf(d, r)) ==
            if d == Mssql || d == Mssql2008 then Some(Chosen(e.project, r.columns, sorted))
            else if d == Generic && r.start < 0 then None
            else Some(Chosen(e.project, r.columns, sorted[Clamp(r.start, |sorted|)..]))
  {
    AnswerIs(d, e, r);
    match d
    case Oracle => OracleSkips(e, r, sorted);
    case Mssql2008 => SelectionSkips(e, r, sorted, NotNegative(r.start), Mssql2008Statement(r));
    case Mssql => SelectionSkips(e, r, sorted, r.start, MssqlStatement(r));
    case Oracle12 => SelectionSkips(e, r, sorted, r.start, Oracle12Statement(r));
    case Generic =>
      if r.start > 0 {
        SelectionSkips(e, r, sorted, r.start, GenericStatement(r));
      }
  }

  lemma SelectionSkips<R(!new)>(e: Engine<R>, r: Request, sorted: seq<R>, start: int, q: Query)
    requires Sorts(e, r, sorted) && PartitionColumn(r) == ""
    requires q == Selection(r, start).(offset := q.offset) && (q.offset.Some? ==> q.offset.value.n >= 0)
    ensures Result(e, Some(q))
            == Some(Chosen(e.project, r.columns, sorted[if q.offset.None? then 0 else Clamp(q.offset.value.n, |sorted|)..]))
  {
    ConditionsNameNoRnum(r, start);
    KeepGiven(e, r, start, e.table(r.table), 0);
    var kept := Plain(Filtered(e, r.condition, e.table(r.table)));
    Stages(e, q, Plain(e.table(r.table)), kept, kept, Plain(sorted));
    var from := if q.offset.None? then 0 else Clamp(q.offset.value.n, |sorted|);
    assert Cut(q, Plain(sorted)) == Plain(sorted)[from..];
    RowsProjected(e.project, r.columns, Plain(sorted)[from..]);
    assert Rows(Plain(sorted)[from..]) == sorted[from..];
  }

  lemma OracleSkips<R(!new)>(e: Engine<R>, r: Request, sorted: seq<R>)
    requires Sorts(e, r, sorted) && PartitionColumn(r) == "" && r.count == 0 && r.start != 0
    ensures Result(e, Some(OracleStatement(r))) == Some(Chosen(e.project, r.columns, sorted[Clamp(r.start, |sorted|)..]))
  {
    OracleInner(e, r, sorted);
    var named := Chosen(e.project, r.columns, sorted);
    OracleWholeMiddle(e, r, named);
    OracleOuter(e, r, Plain(named));
    SkippedChosen(e.project, r.columns, sorted, Clamp(r.start, |named|));
  }

  /** The columns chosen inside, the front cut off, and the columns chosen again. */
  lemma SkippedChosen<R(!new)>(project: (string, R) -> R, columns: string, sorted: seq<R>, from: nat)
    requires NamesColumns(project) && from <= |sorted|
    ensures Rows(Project(project, Columns(columns), Numbered(Plain(Chosen(project, columns, sorted)))[from..]))
            == Chosen(project, columns, sorted[from..])
  {
    var named := Chosen(project, columns, sorted);
    RowsProjected(project, columns, Numbered(Plain(named))[from..]);
    assert Rows(Numbered(Plain(named))[from..]) == named[from..];
    assert named[from..] == Chosen(project, columns, sorted[from..]);
    ChosenTwice(project, columns, sorted[from..]);
  }

  lemma OracleWholeMiddle<R(!new)>(e: Engine<R>, r: Request, named: seq<R>)
    requires r.count == 0 && Eval(e, Selection(r, r.start)) == Plain(named)
    ensures Eval(e, OracleRows(r)) == Numbered(Plain(named))
    ensures Accepted(Selection(r, r.start)) && Accepted(OracleRows(r)) && Accepted(OracleStatement(r))
  {
    ConditionsNameNoRnum(r, r.start);
    assert Accepted(Selection(r, r.start)) && Accepted(OracleRows(r));
    KeepAll(e, Plain(named), 0);
    Stages(e, OracleRows(r), Plain(named), Plain(named), Numbered(Plain(named)), Numbered(Plain(named)));
  }

  /** What a negative count comes to: databases refuse it where it stands in a TOP, LIMIT or
      FETCH; Oracle and the 2008 dialect look for row numbers in an empty range; and the two of
      Microsoft leave it out where they do not page by it, and yield all rows. */
  lemma NegativeCounts<R(!new)>(d: Dialect, e: Engine<R>, r: Request, sorted: seq<R>)
    requires Sorts(e, r, sorted) && r.table != "" && PartitionColumn(r) == "" && r.count < 0
    ensures Answer(e, TextOf(d, r)) ==
            match d
            case Oracle => Some([])
            case Mssql2008 =>
              if r.start < 0 then Some(Chosen(e.project, r.columns, sorted)) else if r.orderBy == "" then None else Some([])
            case Mssql => if r.start < 0 then None else Some(Chosen(e.project, r.columns, sorted))
            case Oracle12 => None
            case Generic => None
  {
    AnswerIs(d, e, r);
    match d
    case Oracle => OracleNoRows(e, r, sorted);
    case Mssql2008 =>
      if r.start < 0 {
        SelectionSkips(e, r, sorted, 0, Mssql2008Statement(r));
      } else if r.orderBy != "" {
        Mssql2008NoRows(e, r, sorted);
      } else {
        assert Mssql2008Statement(r).conditions[0].subject.RNUM?;
      }
    case Mssql =>
      if r.start >= 0 {
        SelectionSkips(e, r, sorted, r.start, MssqlStatement(r));
      }
    case _ =>
  }

  lemma OracleNoRows<R(!new)>(e: Engine<R>, r: Request, sorted: seq<R>)
    requires Sorts(e, r, sorted) && PartitionColumn(r) == "" && r.count < 0
    ensures Result(e, Some(OracleStatement(r))) == Some([])
  {
    OracleInner(e, r, sorted);
    var named := Chosen(e.project, r.columns, sorted);
    OracleMiddle(e, r, named);
    var front := Plain(named)[..Clamp(r.start + r.count, |named|)];
    OracleOuter(e, r, front);
    assert Clamp(r.start, |front|) == |front|;
  }

  lemma {:induction false} KeepNone<R(!new)>(e: Engine<R>, lo: int, hi: int, outs: seq<Out<R>>, passed: nat)
    requires hi <= lo && forall i :: 0 <= i < |outs| ==> outs[i].rnum.Some?
    ensures Keep(e, Range(lo, Some(hi)), outs, passed) == []
    decreases |outs|
  {
    if outs != [] {
      RangePasses(e, lo, Some(hi), outs[0], passed + 1);
      KeepNone(e, lo, hi, outs[1..], passed);
    }
  }

  lemma Mssql2008NoRows<R(!new)>(e: Engine<R>, r: Request, sorted: seq<R>)
    requires Sorts(e, r, sorted) && PartitionColumn(r) == "" && r.count < 0 && r.start >= 0 && r.orderBy != ""
    ensures Result(e, Some(Mssql2008Statement(r))) == Some([])
  {
    Mssql2008RowsNumbered(e, r, sorted);
    var inner := Eval(e, Mssql2008Rows(r));
    KeepNone(e, r.start, r.start + r.count, inner, 0);
    assert Mssql2008Statement(r).conditions == Range(r.start, Some(r.start + r.count));
    Stages(e, Mssql2008Statement(r), inner, [], [], []);
  }

  lemma Mssql2008RowsNumbered<R(!new)>(e: Engine<R>, r: Request, sorted: seq<R>)
    requires Sorts(e, r, sorted) && PartitionColumn(r) == "" && r.count != 0 && r.start >= 0 && r.orderBy != ""
    ensures Accepted(Mssql2008Rows(r)) && Accepted(Mssql2008Statement(r))
    ensures forall o :: o in Eval(e, Mssql2008Rows(r)) ==> o.rnum.Some?
  {
    ConditionsNameNoRnum(r, r.start);
    assert Accepted(Mssql2008Rows(r));
    KeepGiven(e, r, r.start, e.table(r.table), 0);
    var numbered := Numbered(Plain(sorted));
    Stages(e, Mssql2008Rows(r), Plain(e.table(r.table)), Plain(Filtered(e, r.condition, e.table(r.table))), numbered, numbered);
  }

  /** All dialects, each on its own engine, yield the columns asked for of the rows
      [start, start + count) exactly for the starts from 0 on. */
  lemma DialectsPageAlike<R(!new)>(engine: Dialect -> Engine<R>, r: Request, sorted: seq<R>)
    requires r.count > 0 && forall d :: Pages(engine(d), r, sorted)
    ensures (forall d :: Answer(engine(d), TextOf(d, r))
                         == Some(Chosen(engine(d).project, r.columns, Page(sorted, r.start, r.count)))) <==> r.start >= 0
  {
    forall d ensures Answer(engine(d), TextOf(d, r)) == Expected(d, engine(d).project, r, sorted) {
      DialectPages(d, engine(d), r, sorted);
    }
    assert Expected(Generic, engine(Generic).project, r, sorted).None? <==> r.start < 0;
  }

  function Total(n: nat, count: nat): nat {
    if n == 0 then 0 else count + Total(n - 1, count)
  }

  lemma {:induction false} TotalIs(n: nat, count: nat)
    ensures Total(n, count) == n * count
  {
    if n > 0 {
      TotalIs(n - 1, count);
    }
  }

  /** The answers of calls `i` to `n`, each for the `count` rows after the one before. */
  ghost function Joined<R>(ask: (nat, nat) -> Option<seq<R>>, i: nat, n: nat, count: nat, start: nat): Option<seq<R>>
    requires i <= n
    decreases n - i
  {
    if i == n then Some([])
    else
      var rest := Joined(ask, i + 1, n, count, start + count);
      if ask(i, start).None? || rest.None? then None else Some(ask(i, start).value + rest.value)
  }

  /** Each call gives the page it asks for. */
  ghost predicate GivesPages<R>(ask: (nat, nat) -> Option<seq<R>>, n: nat, count: nat, sorted: seq<R>) {
    forall k: nat, from: nat :: k < n ==> ask(k, from) == Some(Page(sorted, from, count))
  }

  lemma {:induction false} JoinedIs<R>(ask: (nat, nat) -> Option<seq<R>>, i: nat, n: nat, count: nat, start: nat, sorted: seq<R>)
    requires i <= n && GivesPages(ask, n, count, sorted)
    ensures Joined(ask, i, n, count, start) == Some(Page(sorted, start, Total(n - i, count)))
    decreases n - i
  {
    if i < n {
      assert ask(i, start) == Some(Page(sorted, start, count));
      JoinedIs(ask, i + 1, n, count, start + count, sorted);
      assert Total(n - i, count) == count + Total(n - i - 1, count);
      PageJoins(sorted, start, count, Total(n - i - 1, count));
    } else {
      assert Page(sorted, start, 0) == [];
    }
  }

  lemma AllJoined<R>(ask: (nat, nat) -> Option<seq<R>>, n: nat, count: nat, sorted: seq<R>)
    requires GivesPages(ask, n, count, sorted)
    ensures Total(n, count) == n * count && Joined(ask, 0, n, count, 0) == Some(Page(sorted, 0, Total(n, count)))
    ensures Total(n, count) >= |sorted| ==> Joined(ask, 0, n, count, 0) == Some(sorted)
  {
    JoinedIs(ask, 0, n, count, 0, sorted);
    TotalIs(n, count);
    WholePage(sorted, Total(n, count));
  }

  lemma WholePage<R>(rows: seq<R>, count: nat)
    ensures count >= |rows| ==> Page(rows, 0, count) == rows
  {
  }

  /** Consecutive pages of a request, each from its own dialect and engine. */
  ghost function Asking<R(!new)>(pages: seq<(Dialect, Engine<R>)>, r: Request): (nat, nat) -> Option<seq<R>> {
    (i: nat, from: nat) => if i < |pages| then Answer(pages[i].1, TextOf(pages[i].0, r.(start := from))) else None
  }

  lemma PageJoins<R>(rows: seq<R>, start: nat, count: nat, more: nat)
    ensures Page(rows, start, count) + Page(rows, start + count, more) == Page(rows, start, count + more)
  {
  }

  lemma AskingIs<R(!new)>(pages: seq<(Dialect, Engine<R>)>, r: Request, sorted: seq<R>, i: nat, from: nat)
    requires i < |pages| && Pages(pages[i].1, r, sorted)
    ensures Asking(pages, r)(i, from) == Some(Page(Chosen(pages[i].1.project, r.columns, sorted), from, r.count))
  {
    PagesFromAnywhere(pages[i].1, r, sorted, from);
    DialectPages(pages[i].0, pages[i].1, r.(start := from), sorted);
    PageChosen(pages[i].1.project, r.columns, sorted, from, r.count);
  }

  lemma AskingGivesPages<R(!new)>(pages: seq<(Dialect, Engine<R>)>, project: (string, R) -> R, r: Request, sorted: seq<R>)
    requires r.count > 0
    requires forall i :: 0 <= i < |pages| ==> Pages(pages[i].1, r, sorted) && pages[i].1.project == project
    ensures GivesPages(Asking(pages, r), |pages|, r.count, Chosen(project, r.columns, sorted))
  {
    forall i: nat, from: nat | i < |pages|
      ensures Asking(pages, r)(i, from) == Some(Page(Chosen(project, r.columns, sorted), from, r.count))
    {
      AskingIs(pages, r, sorted, i, from);
    }
  }

  /** Enough consecutive pages, each from any dialect on any engine, make up the whole table, in
      the columns asked for. */
  lemma PagesMakeTable<R(!new)>(pages: seq<(Dialect, Engine<R>)>, project: (string, R) -> R, r: Request, sorted: seq<R>)
    requires r.count > 0
    requires forall i :: 0 <= i < |pages| ==> Pages(pages[i].1, r, sorted) && pages[i].1.project == project
    ensures Total(|pages|, r.count) == |pages| * r.count
    ensures Joined(Asking(pages, r), 0, |pages|, r.count, 0)
            == Some(Page(Chosen(project, r.columns, sorted), 0, Total(|pages|, r.count)))
    ensures Total(|pages|, r.count) >= |sorted| ==>
              Joined(Asking(pages, r), 0, |pages|, r.count, 0) == Some(Chosen(project, r.columns, sorted))
  {
    AskingGivesPages(pages, project, r, sorted);
    AllJoined(Asking(pages, r), |pages|, r.count, Chosen(project, r.columns, sorted));
  }

  lemma PagesFromAnywhere<R(!new)>(e: Engine<R>, r: Request, sorted: seq<R>, from: nat)
    requires Pages(e, r, sorted)
    ensures Pages(e, r.(start := from), sorted)
  {
  }

  /** Without an ORDER BY the 2008 dialect filters on a row number it never selected, so the
      text is rejected by every engine. */
  lemma Mssql2008PagesOnlyOrdered<R(!new)>(e: Engine<R>, r: Request)
    requires r.table != "" && PartitionColumn(r) == "" && r.count > 0 && r.start >= 0
    ensures Answer(e, TextOf(Mssql2008, r)).Some? <==> r.orderBy != ""
  {
    AnswerIs(Mssql2008, e, r);
    ConditionsNameNoRnum(r, r.start);
    assert Mssql2008Statement(r).conditions[0].subject.RNUM?;
    assert Accepted(Mssql2008Rows(r));
  }

  // ---------------------------------------------------------------------------
  // Plain selects
  // ---------------------------------------------------------------------------

  /** Without a count, a start and a partition column every dialect answers alike: the columns
      asked for of the rows that match, in the order asked for. */
  lemma DialectsSelectAlike<R(!new)>(d: Dialect, e: Engine<R>, r: Request)
    requires r.table != "" && PartitionColumn(r) == "" && r.count == 0 && r.start == 0
    ensures var matching := Filtered(e, r.condition, e.table(r.table));
            var rows := if r.orderBy == "" then matching else Rows(e.sort(r.orderBy, Plain(matching)));
            Answer(e, TextOf(d, r)) == Some(Chosen(e.project, r.columns, rows))
  {
    AnswerIs(d, e, r);
    assert StatementOf(d, r) == Some(Selection(r, 0));
    ConditionsNameNoRnum(r, 0);
    KeepGiven(e, r, 0, e.table(r.table), 0);
    var kept := Plain(Filtered(e, r.condition, e.table(r.table)));
    var sorted := if r.orderBy == "" then kept else e.sort(r.orderBy, kept);
    Stages(e, Selection(r, 0), Plain(e.table(r.table)), kept, kept, sorted);
    RowsProjected(e.project, r.columns, sorted);
    RowsOfPlain(Filtered(e, r.condition, e.table(r.table)));
  }

  lemma RowsOfPlain<R>(rows: seq<R>)
    ensures Rows(Plain(rows)) == rows
  {
  }

  // ---------------------------------------------------------------------------
  // Windows on a partition column
  // ---------------------------------------------------------------------------

  ghost predicate InWindow<R(!new)>(e: Engine<R>, r: Request, row: R) {
    var value := e.column(PartitionColumn(r), row);
    r.start <= value && (r.count == 0 || value < r.start + r.count)
  }

  ghost predicate WindowShows<R(!new)>(e: Engine<R>, r: Request, row: R) {
    r.condition == "" || Early(e, r.condition, row) || (Last(e, r.condition, row) && InWindow(e, r, row))
  }

  ghost function Windowed<R(!new)>(e: Engine<R>, r: Request, rows: seq<R>): seq<R> {
    if rows == [] then []
    else (if WindowShows(e, r, rows[0]) then [rows[0]] else []) + Windowed(e, r, rows[1..])
  }

  lemma WindowPasses<R(!new)>(e: Engine<R>, r: Request, row: R, rownum: int)
    requires PartitionColumn(r) != ""
    ensures Passes(e, Conditions(r, r.start), Out(row, None), rownum) <==> WindowShows(e, r, row)
  {
    var cs, o := Conditions(r, r.start), Out(row, None);
    if cs != [] {
      assert Holds(e, cs[1], o, rownum) <==> r.start <= e.column(PartitionColumn(r), row);
      if r.count != 0 {
        assert Holds(e, cs[2], o, rownum) <==> e.column(PartitionColumn(r), row) < r.start + r.count;
      }
    }
  }

  lemma {:induction false} KeepWindow<R(!new)>(e: Engine<R>, r: Request, rows: seq<R>, passed: nat)
    requires PartitionColumn(r) != ""
    ensures Keep(e, Conditions(r, r.start), Plain(rows), passed) == Plain(Windowed(e, r, rows))
    decreases |rows|
  {
    if rows != [] {
      assert Plain(rows)[1..] == Plain(rows[1..]);
      WindowPasses(e, r, rows[0], passed + 1);
      KeepWindow(e, r, rows[1..], if WindowShows(e, r, rows[0]) then passed + 1 else passed);
    }
  }

  /** Every dialect answers a window request alike: the columns asked for of the rows the window
      shows, as often as the table holds them; only the 2008 dialect takes a negative start as 0. */
  lemma DialectsWindowAlike<R(!new)>(d: Dialect, e: Engine<R>, r: Request)
    requires r.table != "" && PartitionColumn(r) != ""
    ensures var window := r.(start := if d == Mssql2008 && r.start < 0 then 0 else r.start);
            Answer(e, TextOf(d, r)) == Some(Chosen(e.project, r.columns, Windowed(e, window, e.table(r.table))))
  {
    AnswerIs(d, e, r);
    WindowStatement(d, r);
    SelectionWindow(e, r.(start := if d == Mssql2008 then NotNegative(r.start) else r.start));
  }

  lemma WindowStatement(d: Dialect, r: Request)
    requires r.table != "" && PartitionColumn(r) != ""
    ensures var start := if d == Mssql2008 then NotNegative(r.start) else r.start;
            StatementOf(d, r) == Some(Selection(r.(start := start), start))
  {
    match d
    case Oracle =>
    case Mssql2008 => assert Mssql2008Statement(r) == Mssql2008Rows(r) == Selection(r, NotNegative(r.start));
    case Mssql => assert MssqlStatement(r) == Selection(r, r.start);
    case Oracle12 => assert Oracle12Statement(r) == Selection(r, r.start);
    case Generic => assert GenericStatement(r) == Selection(r, r.start);
  }

  lemma SelectionWindow<R(!new)>(e: Engine<R>, r: Request)
    requires PartitionColumn(r) != ""
    ensures Result(e, Some(Selection(r, r.start))) == Some(Chosen(e.project, r.columns, Windowed(e, r, e.table(r.table))))
  {
    ConditionsNameNoRnum(r, r.start);
    KeepWindow(e, r, e.table(r.table), 0);
    var rows := Windowed(e, r, e.table(r.table));
    Stages(e, Selection(r, r.start), Plain(e.table(r.table)), Plain(rows), Plain(rows), Plain(rows));
    RowsProjected(e.project, r.columns, Plain(rows));
    assert Rows(Plain(rows)) == rows;
  }

  lemma {:induction false} WindowedHas<R(!new)>(e: Engine<R>, r: Request, rows: seq<R>, row: R)
    ensures multiset(Windowed(e, r, rows))[row] == if WindowShows(e, r, row) then multiset(rows)[row] else 0
  {
    if rows != [] {
      assert rows == [rows[0]] + rows[1..];
      WindowedHas(e, r, rows[1..], row);
    }
  }

  /** How often the k-th window of the request shows a row: asked for with all its columns. */
  ghost function Shown<R(!new)>(d: Dialect, e: Engine<R>, r: Request, k: nat, row: R): nat
    requires r.table != "" && PartitionColumn(r) != "" && r.count > 0
  {
    var answer := Answer(e, TextOf(d, r.(columns := "", start := k * r.count)));
    if answer.None? then 0 else multiset(answer.value)[row]
  }

  lemma ShownIs<R(!new)>(d: Dialect, e: Engine<R>, r: Request, k: nat, row: R)
    requires r.table != "" && PartitionColumn(r) != "" && r.count > 0
    ensures Shown(d, e, r, k, row)
            == if WindowShows(e, r.(start := k * r.count), row) then multiset(e.table(r.table))[row] else 0
  {
    assert k * r.count >= 0;
    var whole := r.(columns := "", start := k * r.count);
    DialectsWindowAlike(d, e, whole);
    WindowedHas(e, whole, e.table(r.table), row);
  }

  lemma WindowOf(value: nat, count: nat, k: nat)
    requires count > 0
    ensures k * count <= value < k * count + count <==> k == value / count
  {
    if k * count <= value < k * count + count {
      ModuloOf(k, value - k * count, count);
    }
  }

  /** The windows tile: a matching row whose column is not negative is shown by exactly one
      of them, as often as the table holds it. This holds if and only if the caller gave a
      condition and the row matches none of its alternatives but the last. */
  lemma WindowsTile<R(!new)>(d: Dialect, e: Engine<R>, r: Request, row: R)
    requires r.table != "" && PartitionColumn(r) != "" && r.count > 0
    requires row in e.table(r.table) && Matches(e, r.condition, row)
    requires e.column(PartitionColumn(r), row) >= 0
    ensures (forall k: nat :: Shown(d, e, r, k, row)
                              == if k == e.column(PartitionColumn(r), row) / r.count
                                 then multiset(e.table(r.table))[row] else 0)
            <==> r.condition != "" && !Early(e, r.condition, row)
  {
    var value := e.column(PartitionColumn(r), row);
    var home := value / r.count;
    forall k: nat ensures Shown(d, e, r, k, row)
                          == if r.condition == "" || Early(e, r.condition, row) || k == home
                             then multiset(e.table(r.table))[row] else 0
    {
      ShownIs(d, e, r, k, row);
      WindowOf(value, r.count, k);
    }
    assert multiset(e.table(r.table))[row] > 0;
    assert Shown(d, e, r, home + 1, row) == 0 <==> r.condition != "" && !Early(e, r.condition, row);
  }
}
