/** What the ordered queue guarantees over whole runs, and how far its windowed
    lookup can be trusted. */
module OrderedQueueProofs {
  import opened OrderedQueues

  // ---------------------------------------------------------------------------
  // Order and stability
  // ---------------------------------------------------------------------------

  /** The elements of `q` carrying ordering value `v`, in their order. */
  function Ties<T>(q: seq<Element<T>>, v: int): (r: seq<Element<T>>)
  {
    if q == [] then [] else (if q[0].value == v then [q[0]] else []) + Ties(q[1..], v)
  }

  /** `q` is the stable sort of `history`: it is in order, and elements with equal
      ordering values appear exactly as they were added. */
  ghost predicate IsStableSort<T>(mode: Ordering, q: seq<Element<T>>, history: seq<Element<T>>) {
    && Sorted(mode, q)
    && (forall v :: Ties(q, v) == Ties(history, v))
  }

  lemma {:induction false} TiesConcat<T>(a: seq<Element<T>>, b: seq<Element<T>>, v: int)
    ensures Ties(a + b, v) == Ties(a, v) + Ties(b, v)
  {
    if a == [] {
      assert a + b == b;
    } else {
      var head := if a[0].value == v then [a[0]] else [];
      assert (a + b)[0] == a[0] && (a + b)[1..] == a[1..] + b;
      TiesConcat(a[1..], b, v);
      Regroup(head, Ties(a[1..], v), Ties(b, v));
    }
  }

  lemma Regroup<T>(a: seq<T>, b: seq<T>, c: seq<T>)
    ensures (a + b) + c == a + (b + c)
  {
  }

  lemma {:induction false} NoTies<T>(q: seq<Element<T>>, v: int)
    requires forall e :: e in q ==> e.value != v
    ensures Ties(q, v) == []
  {
    if q != [] {
      NoTies(q[1..], v);
    }
  }

  lemma NoTiesBehind<T>(mode: Ordering, q: seq<Element<T>>, item: Element<T>)
    requires Sorted(mode, q)
    ensures Ties(q[UpperBound(mode, q, item)..], item.value) == []
  {
    var u := UpperBound(mode, q, item);
    forall e | e in q[u..] ensures e.value != item.value {
      var i :| u <= i < |q| && q[i] == e;
      assert i == u || !Before(mode, q[i], q[u]);
    }
    NoTies(q[u..], item.value);
  }

  lemma {:induction false} InsertTies<T>(mode: Ordering, q: seq<Element<T>>, item: Element<T>, v: int)
    requires Sorted(mode, q)
    ensures Ties(Insert(mode, q, item), v) == Ties(q, v) + Ties([item], v)
  {
    var u := UpperBound(mode, q, item);
    var a, b := q[..u], q[u..];
    NoTiesBehind(mode, q, item);
    calc {
      Ties(Insert(mode, q, item), v);
      { TiesConcat(a + [item], b, v); TiesConcat(a, [item], v); }
      Ties(a, v) + Ties([item], v) + Ties(b, v);
      Ties(a, v) + Ties(b, v) + Ties([item], v);
      { TiesConcat(a, b, v); assert a + b == q; }
      Ties(q, v) + Ties([item], v);
    }
  }

  /** Any sequence of Adds, in either mode, leaves the stable sort of what was added. */
  lemma {:induction false} AddsAreStableSort<T>(mode: Ordering, history: seq<Element<T>>)
    ensures IsStableSort(mode, AddAll(mode, history), history)
  {
    if history != [] {
      var front, last := history[..|history| - 1], history[|history| - 1];
      AddsAreStableSort(mode, front);
      InsertKeepsSorted(mode, AddAll(mode, front), last);
      assert history == front + [last];
      forall v ensures Ties(AddAll(mode, history), v) == Ties(history, v) {
        InsertTies(mode, AddAll(mode, front), last, v);
        TiesConcat(front, [last], v);
      }
    }
  }

  /** What order means: ascending queues hand out the least value first, descending ones the
      greatest, and equal values as they were added. */
  lemma AddsOrderByValue<T>(mode: Ordering, history: seq<Element<T>>, i: nat, j: nat)
    requires i < j < |AddAll(mode, history)|
    ensures var q := AddAll(mode, history);
            && (mode.Asc? ==> q[i].value <= q[j].value) && (mode.Desc? ==> q[i].value >= q[j].value)
            && Ties(q, q[i].value) == Ties(history, q[i].value)
  {
    AddsAreStableSort(mode, history);
  }

  /** Being the stable sort of a history pins the whole queue down. */
  lemma {:induction false} StableSortIsUnique<T>(mode: Ordering, p: seq<Element<T>>, q: seq<Element<T>>)
    requires Sorted(mode, p) && Sorted(mode, q)
    requires forall v :: Ties(p, v) == Ties(q, v)
    ensures p == q
  {
    if p == [] || q == [] {
      var v := if p != [] then p[0].value else if q != [] then q[0].value else 0;
      assert Ties(p, v) == Ties(q, v);
    } else {
      var v := p[0].value;
      HeadValue(mode, p, q);
      HeadValue(mode, q, p);
      assert Ties(p, v)[0] == p[0] && Ties(q, v)[0] == q[0];
      forall w ensures Ties(p[1..], w) == Ties(q[1..], w) {
        assert Ties(p, w) == Ties(q, w);
        if w == v {
          assert Ties(p, w)[1..] == Ties(p[1..], w) && Ties(q, w)[1..] == Ties(q[1..], w);
        } else {
          assert Ties(p, w) == Ties(p[1..], w) && Ties(q, w) == Ties(q[1..], w);
        }
      }
      StableSortIsUnique(mode, p[1..], q[1..]);
    }
  }

  /** The head of `q` cannot stand behind the head of `p` when both hold the same ties. */
  lemma HeadValue<T>(mode: Ordering, p: seq<Element<T>>, q: seq<Element<T>>)
    requires p != [] && q != []
    requires Sorted(mode, q)
    requires forall v :: Ties(p, v) == Ties(q, v)
    ensures !Before(mode, p[0], q[0])
  {
    if Before(mode, p[0], q[0]) {
      forall e | e in q ensures e.value != p[0].value {
        var i :| 0 <= i < |q| && q[i] == e;
        assert i == 0 || !Before(mode, q[i], q[0]);
      }
      NoTies(q, p[0].value);
      assert false;
    }
  }

  // ---------------------------------------------------------------------------
  // Runs: order kept, nothing lost, nothing invented
  // ---------------------------------------------------------------------------

  datatype Op<T> = Add(item: Element<T>) | Pop | PopMany(max: int) | Remove(probe: Element<T>) | Cut(idx: int)

  datatype Run<T> = Run(queue: seq<Element<T>>, out: seq<Element<T>>, added: seq<Element<T>>)

  function StepRun<T>(mode: Ordering, r: Run<T>, op: Op<T>): Run<T> {
    match op
    case Add(item) => Run(Insert(mode, r.queue, item), r.out, r.added + [item])
    case Pop => Take(r, 1)
    case PopMany(max) => Take(r, max)
    case Remove(probe) =>
      var k := LookupIndex(mode, r.queue, probe);
      if k < 0 then r else Run(Without(r.queue, k), r.out + [r.queue[k]], r.added)
    case Cut(idx) => if idx < 0 then r else Take(r, |r.queue|)
  }

  function Take<T>(r: Run<T>, n: int): Run<T> {
    var m := if n <= 0 then 0 else if n < |r.queue| then n else |r.queue|;
    Run(r.queue[m..], r.out + r.queue[..m], r.added)
  }

  function RunOps<T>(mode: Ordering, ops: seq<Op<T>>): Run<T> {
    if ops == [] then Run([], [], [])
    else StepRun(mode, RunOps(mode, ops[..|ops| - 1]), ops[|ops| - 1])
  }

  /** The first `n` elements are handed out, in order. */
  ghost predicate HandsOut<T>(r: Run<T>, t: Run<T>, n: nat) {
    n <= |r.queue| && t == Run(r.queue[n..], r.out + r.queue[..n], r.added)
  }

  /** One operation of a run does what the method of that name does: an addition is one element
      more, taking hands out elements from the front, a removal what the lookup finds, and a cut
      at an index hands out everything. */
  lemma StepsAsCalls<T>(mode: Ordering, r: Run<T>, op: Op<T>)
    ensures var t := StepRun(mode, r, op);
            match op
            case Add(item) => t == Run(Insert(mode, r.queue, item), r.out, r.added + [item])
            case Pop => HandsOut(r, t, if r.queue == [] then 0 else 1)
            case PopMany(max) => HandsOut(r, t, if max <= 0 then 0 else if max < |r.queue| then max else |r.queue|)
            case Remove(probe) =>
              var k := LookupIndex(mode, r.queue, probe);
              t == Run(RemoveFrom(mode, r.queue, probe), r.out + (if k < 0 then [] else [r.queue[k]]), r.added)
            case Cut(idx) => HandsOut(r, t, if idx < 0 then 0 else |r.queue|)
  {
    assert r.queue[0..] == r.queue && r.out + r.queue[..0] == r.out && r.out + [] == r.out;
  }

  /** Whatever is done to the queue, it stays in order, and what was added is
      either still in it or has been handed out, with exact multiplicities. */
  lemma {:induction false} RunsKeepOrderAndElements<T>(mode: Ordering, ops: seq<Op<T>>)
    ensures var r := RunOps(mode, ops);
            Sorted(mode, r.queue) && multiset(r.queue) + multiset(r.out) == multiset(r.added)
  {
    if ops != [] {
      var front, op := ops[..|ops| - 1], ops[|ops| - 1];
      RunsKeepOrderAndElements(mode, front);
      StepKeepsSorted(mode, RunOps(mode, front), op);
      StepConserves(mode, RunOps(mode, front), op);
    }
  }

  lemma StepKeepsSorted<T>(mode: Ordering, r: Run<T>, op: Op<T>)
    requires Sorted(mode, r.queue)
    ensures Sorted(mode, StepRun(mode, r, op).queue)
  {
    if op.Add? {
      InsertKeepsSorted(mode, r.queue, op.item);
    }
  }

  lemma StepConserves<T>(mode: Ordering, r: Run<T>, op: Op<T>)
    requires multiset(r.queue) + multiset(r.out) == multiset(r.added)
    ensures var s := StepRun(mode, r, op); multiset(s.queue) + multiset(s.out) == multiset(s.added)
  {
    match op
    case Add(item) => InsertConserves(mode, r.queue, item);
    case Pop => TakeConserves(r, 1);
    case PopMany(max) => TakeConserves(r, max);
    case Remove(probe) =>
      var k := LookupIndex(mode, r.queue, probe);
      if k >= 0 {
        WithoutConserves(r.queue, k);
      }
    case Cut(idx) => TakeConserves(r, |r.queue|);
  }

  lemma InsertConserves<T>(mode: Ordering, q: seq<Element<T>>, item: Element<T>)
    ensures multiset(Insert(mode, q, item)) == multiset(q) + multiset{item}
  {
    var u := UpperBound(mode, q, item);
    assert q == q[..u] + q[u..];
  }

  lemma WithoutConserves<T>(q: seq<Element<T>>, k: nat)
    requires k < |q|
    ensures multiset(q) == multiset(Without(q, k)) + multiset{q[k]}
  {
    assert q == q[..k] + [q[k]] + q[k + 1..];
  }

  lemma TakeConserves<T>(r: Run<T>, n: int)
    ensures multiset(Take(r, n).queue) + multiset(Take(r, n).out) == multiset(r.queue) + multiset(r.out)
  {
    var m := if n <= 0 then 0 else if n < |r.queue| then n else |r.queue|;
    assert r.queue == r.queue[..m] + r.queue[m..];
  }

  // ---------------------------------------------------------------------------
  // How far the windowed lookup can be trusted
  // ---------------------------------------------------------------------------

  ghost predicate DistinctIds<T>(q: seq<Element<T>>) {
    forall i, j :: 0 <= i < j < |q| ==> q[i].id != q[j].id
  }

  ghost predicate DistinctValues<T>(q: seq<Element<T>>) {
    forall i, j :: 0 <= i < j < |q| ==> q[i].value != q[j].value
  }

  /** With unique ids, a stored element is found exactly when it is the last of
      the elements sharing its ordering value. */
  lemma LookupFindsExactlyLastTie<T>(mode: Ordering, q: seq<Element<T>>, k: nat, probe: Element<T>)
    requires Sorted(mode, q) && DistinctIds(q) && k < |q|
    requires q[k].id == probe.id && q[k].value == probe.value
    ensures LookupIndex(mode, q, probe) == k <==> (k + 1 == |q| || q[k + 1].value != probe.value)
    ensures LookupIndex(mode, q, probe) == -1 <==> (k + 1 < |q| && q[k + 1].value == probe.value)
  {
    var u := UpperBound(mode, q, probe);
    assert k < u;
    if k + 1 < |q| && q[k + 1].value == probe.value {
      assert k + 1 < u;
    } else if k + 1 < |q| {
      assert Before(mode, probe, q[k + 1]);
    }
  }

  /** Distinct ids, distinct ordering values and an honest probe: the lookup
      agrees with a full scan, hit or miss. */
  lemma LookupAgreesWithScan<T>(mode: Ordering, q: seq<Element<T>>, probe: Element<T>)
    requires Sorted(mode, q) && DistinctIds(q) && DistinctValues(q)
    requires forall e :: e in q && e.id == probe.id ==> e.value == probe.value
    ensures LookupIndex(mode, q, probe) == ScanIndex(q, probe.id)
  {
    var k := ScanIndex(q, probe.id);
    if k >= 0 {
      assert q[k] in q;
      LookupFindsExactlyLastTie(mode, q, k, probe);
    }
  }

  /** Two elements of the same second: the lookup cannot see the earlier one. */
  lemma LookupMissesEarlierTie()
    ensures var q := [Element("a", 7, ()), Element("b", 7, ())];
            Sorted(Asc, q) && DistinctIds(q) && ScanIndex(q, "a") == 0 && LookupIndex(Asc, q, q[0]) == -1
  {
    var q := [Element("a", 7, ()), Element("b", 7, ())];
    assert "a"[0] != "b"[0];
    LookupFindsExactlyLastTie(Asc, q, 0, q[0]);
  }
}
