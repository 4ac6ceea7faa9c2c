/** Retrying failed HTTP requests (httpclient/httpclient.go): failed requests wait in
    an ordered queue by trigger time, and a ticker issues them again. The exchange
    itself is an oracle that answers, or fails at some time. */
module RetryScheduler {
  import opened OrderedQueues
  import OrderedQueueProofs

  const RETRY_DURATION_FACTOR := 5

  /** A request with the retries already executed and those the caller wants; `rid`
      tells the requests of different callers apart. */
  datatype Request = Request(rid: nat, url: string, retries: int, shouldRetry: int)

  /** How an exchange ends: answered, failed at a time, or not even attempted. */
  datatype Exchange = Answered | Failed(at: int) | NotSent

  type Entity = Element<Request>

  function FormatRetryDuration(retries: int): (d: int)
    ensures d >= RETRY_DURATION_FACTOR
  {
    if retries < 3 then RETRY_DURATION_FACTOR else RETRY_DURATION_FACTOR * retries
  }

  /** Retries come after 5 s up to the second, after 15 s for the third, and 5 s later for each
      one more. */
  lemma RetriesSlowDown(retries: int)
    ensures FormatRetryDuration(0) == 5 && FormatRetryDuration(2) == 5 && FormatRetryDuration(3) == 15
    ensures FormatRetryDuration(retries) <= FormatRetryDuration(retries + 1)
    ensures retries < 2 ==> FormatRetryDuration(retries + 1) == FormatRetryDuration(retries)
    ensures retries > 2 ==> FormatRetryDuration(retries + 1) == FormatRetryDuration(retries) + 5
  {
  }

  predicate Retries(r: Request, x: Exchange) {
    x.Failed? && r.shouldRetry > 0 && r.retries < r.shouldRetry
  }

  function RetryEntity(r: Request, x: Exchange): (e: Entity)
    requires x.Failed?
    ensures e.value > x.at
  {
    Element(r.url, x.at + FormatRetryDuration(r.retries), r)
  }

  /** The queue after a request has been issued and the exchange has ended. */
  function AfterExchange(q: seq<Entity>, r: Request, x: Exchange): seq<Entity> {
    if Retries(r, x) then Insert(Asc, q, RetryEntity(r, x)) else q
  }

  function Reissued(e: Entity): Request {
    e.data.(retries := e.data.retries + 1)
  }

  /** A failed request with retries left is queued once more, to trigger that much later, and
      any other is not; what was queued stays. */
  lemma RetryQueuedExactly(q: seq<Entity>, r: Request, x: Exchange)
    ensures var after := AfterExchange(q, r, x);
            if x.Failed? && r.shouldRetry > 0 && r.retries < r.shouldRetry then
              multiset(after) == multiset(q) + multiset{Element(r.url, x.at + FormatRetryDuration(r.retries), r)}
            else after == q
  {
    if Retries(r, x) {
      OrderedQueueProofs.InsertConserves(Asc, q, RetryEntity(r, x));
    }
  }

  /** A retry counts as one more and is otherwise the same request. */
  lemma ReissueCountsOne(e: Entity)
    ensures Reissued(e) == Request(e.data.rid, e.data.url, e.data.retries + 1, e.data.shouldRetry)
  {
  }

  // ---------------------------------------------------------------------------
  // One tick
  // ---------------------------------------------------------------------------

  function Due(q: seq<Entity>, tim: int): seq<Entity> {
    if q == [] then [] else (if q[0].value <= tim then [q[0]] else []) + Due(q[1..], tim)
  }

  function NotDue(q: seq<Entity>, tim: int): seq<Entity> {
    if q == [] then [] else (if q[0].value > tim then [q[0]] else []) + NotDue(q[1..], tim)
  }

  /** Time does not run backwards: what fails during a tick fails at its time or later. */
  ghost predicate NotBefore(oracle: nat -> Exchange, tim: int) {
    forall n: nat :: oracle(n).Failed? ==> oracle(n).at >= tim
  }

  /** What a tick issues and the queue it leaves; `n` exchanges have taken place so far. */
  ghost function Tick(q: seq<Entity>, tim: int, n: nat, oracle: nat -> Exchange): (seq<Request>, seq<Entity>)
    requires NotBefore(oracle, tim)
    decreases |Due(q, tim)|
  {
    if q == [] then ([], [])
    else if q[0].value > tim then ([], Insert(Asc, q[1..], q[0]))
    else
      var r := Reissued(q[0]);
      DueSkipsRetry(q[1..], tim, r, oracle(n));
      var (issued, left) := Tick(AfterExchange(q[1..], r, oracle(n)), tim, n + 1, oracle);
      ([r] + issued, left)
  }

  lemma {:induction false} DueConcat(a: seq<Entity>, b: seq<Entity>, tim: int)
    ensures Due(a + b, tim) == Due(a, tim) + Due(b, tim)
  {
    if a == [] {
      assert a + b == b;
    } else {
      assert (a + b)[1..] == a[1..] + b;
      DueConcat(a[1..], b, tim);
    }
  }

  lemma {:induction false} NotDueConcat(a: seq<Entity>, b: seq<Entity>, tim: int)
    ensures NotDue(a + b, tim) == NotDue(a, tim) + NotDue(b, tim)
  {
    if a == [] {
      assert a + b == b;
    } else {
      assert (a + b)[1..] == a[1..] + b;
      NotDueConcat(a[1..], b, tim);
    }
  }

  /** A retry triggers strictly later, so it does not become due within the tick. */
  lemma {:induction false} DueSkipsRetry(q: seq<Entity>, tim: int, r: Request, x: Exchange)
    requires x.Failed? ==> x.at >= tim
    ensures Due(AfterExchange(q, r, x), tim) == Due(q, tim)
  {
    if Retries(r, x) {
      var e := RetryEntity(r, x);
      var u := UpperBound(Asc, q, e);
      assert q == q[..u] + q[u..];
      DueConcat(q[..u], q[u..], tim);
      DueConcat(q[..u] + [e], q[u..], tim);
      DueConcat(q[..u], [e], tim);
    }
  }

  function ReissuedAll(es: seq<Entity>): (r: seq<Request>)
    ensures |r| == |es| && forall i :: 0 <= i < |es| ==> r[i] == Reissued(es[i])
  {
    if es == [] then [] else [Reissued(es[0])] + ReissuedAll(es[1..])
  }

  /** The entities queued for those of `issued` that fail and have retries left. */
  function RetriesOf(issued: seq<Request>, n: nat, oracle: nat -> Exchange): seq<Entity> {
    if issued == [] then []
    else (if Retries(issued[0], oracle(n)) then [RetryEntity(issued[0], oracle(n))] else [])
         + RetriesOf(issued[1..], n + 1, oracle)
  }

  lemma {:induction false} NoneDueBehind(q: seq<Entity>, tim: int)
    requires Sorted(Asc, q) && (q == [] || q[0].value > tim)
    ensures Due(q, tim) == [] && NotDue(q, tim) == q
  {
    if |q| > 1 {
      assert !Before(Asc, q[1], q[0]);
      NoneDueBehind(q[1..], tim);
    }
  }

  lemma AfterExchangeSorted(q: seq<Entity>, r: Request, x: Exchange)
    requires Sorted(Asc, q)
    ensures Sorted(Asc, AfterExchange(q, r, x))
  {
    if Retries(r, x) {
      InsertKeepsSorted(Asc, q, RetryEntity(r, x));
    }
  }

  lemma {:induction false} AfterExchangeNotDue(q: seq<Entity>, tim: int, r: Request, x: Exchange)
    requires x.Failed? ==> x.at >= tim
    ensures multiset(NotDue(AfterExchange(q, r, x), tim))
            == multiset(NotDue(q, tim)) + if Retries(r, x) then multiset{RetryEntity(r, x)} else multiset{}
  {
    if Retries(r, x) {
      var e := RetryEntity(r, x);
      var u := UpperBound(Asc, q, e);
      assert q == q[..u] + q[u..];
      NotDueConcat(q[..u], q[u..], tim);
      NotDueConcat(q[..u] + [e], q[u..], tim);
      NotDueConcat(q[..u], [e], tim);
    }
  }

  lemma {:induction false} DueHead(q: seq<Entity>, tim: int, r: Request, x: Exchange)
    requires q != [] && q[0].value <= tim && (x.Failed? ==> x.at >= tim)
    ensures Due(q, tim) == [q[0]] + Due(AfterExchange(q[1..], r, x), tim)
    ensures NotDue(q, tim) == NotDue(q[1..], tim)
  {
    DueSkipsRetry(q[1..], tim, r, x);
  }

  /** After a turn the queue is sorted and less of it is due. */
  lemma TurnShrinks(q: seq<Entity>, tim: int, r: Request, x: Exchange)
    requires Sorted(Asc, q) && q != [] && q[0].value <= tim && (x.Failed? ==> x.at >= tim)
    ensures Sorted(Asc, AfterExchange(q[1..], r, x)) && |Due(AfterExchange(q[1..], r, x), tim)| < |Due(q, tim)|
  {
    AfterExchangeSorted(q[1..], r, x);
    DueSkipsRetry(q[1..], tim, r, x);
  }

  lemma {:induction false} TickDue(q: seq<Entity>, tim: int, n: nat, oracle: nat -> Exchange, rest: seq<Entity>)
    requires NotBefore(oracle, tim) && q != [] && q[0].value <= tim
    requires rest == AfterExchange(q[1..], Reissued(q[0]), oracle(n))
    ensures Tick(q, tim, n, oracle).0 == [Reissued(q[0])] + Tick(rest, tim, n + 1, oracle).0
    ensures Tick(q, tim, n, oracle).1 == Tick(rest, tim, n + 1, oracle).1
    ensures Due(q, tim) == [q[0]] + Due(rest, tim)
    ensures NotDue(q, tim) == NotDue(q[1..], tim)
  {
    DueHead(q, tim, Reissued(q[0]), oracle(n));
  }

  /** The last turn of a tick puts an entry that is not due back. */
  lemma {:induction false} TickStops(q: seq<Entity>, tim: int)
    requires Sorted(Asc, q) && q != [] && q[0].value > tim
    ensures Sorted(Asc, Insert(Asc, q[1..], q[0])) && Due(Insert(Asc, q[1..], q[0]), tim) == []
  {
    InsertKeepsSorted(Asc, q[1..], q[0]);
    var left := Insert(Asc, q[1..], q[0]);
    var u := UpperBound(Asc, q[1..], q[0]);
    assert u > 0 ==> left[0] == q[1] && !Before(Asc, q[1], q[0]);
    NoneDueBehind(left, tim);
  }

  lemma {:induction false} TickStopsConserves(q: seq<Entity>, tim: int)
    requires Sorted(Asc, q) && q != [] && q[0].value > tim
    ensures multiset(Insert(Asc, q[1..], q[0])) == multiset(NotDue(q, tim))
  {
    NoneDueBehind(q, tim);
    OrderedQueueProofs.InsertConserves(Asc, q[1..], q[0]);
    assert q == [q[0]] + q[1..];
  }

  /** Every due entry is issued, in order. */
  ghost predicate IssuesDue(q: seq<Entity>, tim: int, n: nat, oracle: nat -> Exchange)
    requires NotBefore(oracle, tim)
  {
    Tick(q, tim, n, oracle).0 == ReissuedAll(Due(q, tim))
  }

  lemma {:induction false} DueTurnIssues(q: seq<Entity>, tim: int, n: nat, oracle: nat -> Exchange)
    requires NotBefore(oracle, tim) && q != [] && q[0].value <= tim
    requires IssuesDue(AfterExchange(q[1..], Reissued(q[0]), oracle(n)), tim, n + 1, oracle)
    ensures IssuesDue(q, tim, n, oracle)
  {
    TickDue(q, tim, n, oracle, AfterExchange(q[1..], Reissued(q[0]), oracle(n)));
    assert Due(q, tim)[1..] == Due(AfterExchange(q[1..], Reissued(q[0]), oracle(n)), tim);
  }

  lemma {:induction false} LastTurnIssues(q: seq<Entity>, tim: int, n: nat, oracle: nat -> Exchange)
    requires Sorted(Asc, q) && NotBefore(oracle, tim) && (q == [] || q[0].value > tim)
    ensures IssuesDue(q, tim, n, oracle)
  {
    NoneDueBehind(q, tim);
  }

  lemma {:induction false} TickIssues(q: seq<Entity>, tim: int, n: nat, oracle: nat -> Exchange)
    requires Sorted(Asc, q) && NotBefore(oracle, tim)
    ensures IssuesDue(q, tim, n, oracle)
    decreases |Due(q, tim)|
  {
    if q == [] || q[0].value > tim {
      LastTurnIssues(q, tim, n, oracle);
    } else {
      TurnShrinks(q, tim, Reissued(q[0]), oracle(n));
      TickIssues(AfterExchange(q[1..], Reissued(q[0]), oracle(n)), tim, n + 1, oracle);
      DueTurnIssues(q, tim, n, oracle);
    }
  }

  /** What is left is sorted, and none of it due. */
  ghost predicate Settles(q: seq<Entity>, tim: int, n: nat, oracle: nat -> Exchange)
    requires NotBefore(oracle, tim)
  {
    Sorted(Asc, Tick(q, tim, n, oracle).1) && Due(Tick(q, tim, n, oracle).1, tim) == []
  }

  lemma {:induction false} LastTurnSettles(q: seq<Entity>, tim: int, n: nat, oracle: nat -> Exchange)
    requires Sorted(Asc, q) && NotBefore(oracle, tim) && (q == [] || q[0].value > tim)
    ensures Settles(q, tim, n, oracle)
  {
    if q != [] {
      TickStops(q, tim);
    }
  }

  lemma {:induction false} DueTurnSettles(q: seq<Entity>, tim: int, n: nat, oracle: nat -> Exchange)
    requires NotBefore(oracle, tim) && q != [] && q[0].value <= tim
    requires Settles(AfterExchange(q[1..], Reissued(q[0]), oracle(n)), tim, n + 1, oracle)
    ensures Settles(q, tim, n, oracle)
  {
    TickDue(q, tim, n, oracle, AfterExchange(q[1..], Reissued(q[0]), oracle(n)));
  }

  lemma {:induction false} TickLeaves(q: seq<Entity>, tim: int, n: nat, oracle: nat -> Exchange)
    requires Sorted(Asc, q) && NotBefore(oracle, tim)
    ensures Settles(q, tim, n, oracle)
    decreases |Due(q, tim)|
  {
    if q == [] || q[0].value > tim {
      LastTurnSettles(q, tim, n, oracle);
    } else {
      TurnShrinks(q, tim, Reissued(q[0]), oracle(n));
      TickLeaves(AfterExchange(q[1..], Reissued(q[0]), oracle(n)), tim, n + 1, oracle);
      DueTurnSettles(q, tim, n, oracle);
    }
  }

  /** What is left: the entries that were not due, and one for each issue that failed with
      retries left. */
  ghost predicate Conserves(q: seq<Entity>, tim: int, n: nat, oracle: nat -> Exchange)
    requires NotBefore(oracle, tim)
  {
    var (issued, left) := Tick(q, tim, n, oracle);
    multiset(left) == multiset(NotDue(q, tim)) + multiset(RetriesOf(issued, n, oracle))
  }

  lemma {:induction false} LastTurnConserves(q: seq<Entity>, tim: int, n: nat, oracle: nat -> Exchange)
    requires Sorted(Asc, q) && NotBefore(oracle, tim) && (q == [] || q[0].value > tim)
    ensures Conserves(q, tim, n, oracle)
  {
    if q != [] {
      TickStopsConserves(q, tim);
    }
  }

  lemma {:induction false} DueTurnConserves(q: seq<Entity>, tim: int, n: nat, oracle: nat -> Exchange)
    requires NotBefore(oracle, tim) && q != [] && q[0].value <= tim
    requires Conserves(AfterExchange(q[1..], Reissued(q[0]), oracle(n)), tim, n + 1, oracle)
    ensures Conserves(q, tim, n, oracle)
  {
    var rest := AfterExchange(q[1..], Reissued(q[0]), oracle(n));
    TickDue(q, tim, n, oracle, rest);
    var (issued, left) := Tick(rest, tim, n + 1, oracle);
    AfterExchangeNotDue(q[1..], tim, Reissued(q[0]), oracle(n));
    RetriesOfCons(Reissued(q[0]), issued, n, oracle);
  }

  lemma {:induction false} TickConserves(q: seq<Entity>, tim: int, n: nat, oracle: nat -> Exchange)
    requires Sorted(Asc, q) && NotBefore(oracle, tim)
    ensures Conserves(q, tim, n, oracle)
    decreases |Due(q, tim)|
  {
    if q == [] || q[0].value > tim {
      LastTurnConserves(q, tim, n, oracle);
    } else {
      TurnShrinks(q, tim, Reissued(q[0]), oracle(n));
      TickConserves(AfterExchange(q[1..], Reissued(q[0]), oracle(n)), tim, n + 1, oracle);
      DueTurnConserves(q, tim, n, oracle);
    }
  }

  lemma {:induction false} RetriesOfCons(r: Request, issued: seq<Request>, n: nat, oracle: nat -> Exchange)
    ensures multiset(RetriesOf([r] + issued, n, oracle))
            == multiset(RetriesOf(issued, n + 1, oracle))
               + if Retries(r, oracle(n)) then multiset{RetryEntity(r, oracle(n))} else multiset{}
  {
    assert ([r] + issued)[1..] == issued;
  }

  /** A tick issues every due entry exactly once, in queue order and with one more
      retry counted; what it leaves is sorted, not due, and consists of the entries
      that were not due and of one entry for each issue that failed with retries left. */
  lemma TickIssuesDueOnce(q: seq<Entity>, tim: int, n: nat, oracle: nat -> Exchange)
    requires Sorted(Asc, q) && NotBefore(oracle, tim)
    ensures var (issued, left) := Tick(q, tim, n, oracle);
            && issued == ReissuedAll(Due(q, tim))
            && Sorted(Asc, left) && Due(left, tim) == []
            && multiset(left) == multiset(NotDue(q, tim)) + multiset(RetriesOf(issued, n, oracle))
  {
    TickIssues(q, tim, n, oracle);
    TickLeaves(q, tim, n, oracle);
    TickConserves(q, tim, n, oracle);
  }

  /** With `done` issued and the queue `q`, the rest of the tick will have issued `all` in the
      end, and will leave `left`. */
  ghost predicate OnTrack(q: seq<Entity>, done: seq<Request>, tim: int, oracle: nat -> Exchange,
                          all: seq<Request>, left: seq<Entity>)
    requires NotBefore(oracle, tim)
  {
    done + Tick(q, tim, |done|, oracle).0 == all && Tick(q, tim, |done|, oracle).1 == left
  }

  lemma DueTurnKeepsTrack(q: seq<Entity>, done: seq<Request>, tim: int, oracle: nat -> Exchange,
                          all: seq<Request>, left: seq<Entity>)
    requires NotBefore(oracle, tim) && OnTrack(q, done, tim, oracle, all, left) && q != [] && q[0].value <= tim
    ensures OnTrack(AfterExchange(q[1..], Reissued(q[0]), oracle(|done|)), done + [Reissued(q[0])], tim, oracle, all, left)
  {
    var rest := AfterExchange(q[1..], Reissued(q[0]), oracle(|done|));
    TickDue(q, tim, |done|, oracle, rest);
    Regroup(done, Reissued(q[0]), Tick(rest, tim, |done| + 1, oracle).0);
  }

  lemma LastTurnOnTrack(q: seq<Entity>, done: seq<Request>, tim: int, oracle: nat -> Exchange,
                        all: seq<Request>, left: seq<Entity>)
    requires NotBefore(oracle, tim) && OnTrack(q, done, tim, oracle, all, left) && (q == [] || q[0].value > tim)
    ensures done == all && left == if q == [] then [] else Insert(Asc, q[1..], q[0])
  {
  }

  lemma Regroup(a: seq<Request>, r: Request, b: seq<Request>)
    ensures (a + [r]) + b == a + ([r] + b)
  {
  }

  /** A turn with an entry that is due keeps on track, with fewer entries due; any other turn
      is the last. */
  lemma TurnKeepsTrack(q: seq<Entity>, done: seq<Request>, tim: int, oracle: nat -> Exchange,
                       all: seq<Request>, left: seq<Entity>)
    requires NotBefore(oracle, tim) && OnTrack(q, done, tim, oracle, all, left)
    ensures q != [] && q[0].value <= tim ==>
              var rest := AfterExchange(q[1..], Reissued(q[0]), oracle(|done|));
              OnTrack(rest, done + [Reissued(q[0])], tim, oracle, all, left) && |Due(rest, tim)| < |Due(q, tim)|
    ensures q == [] || q[0].value > tim ==>
              done == all && left == if q == [] then [] else Insert(Asc, q[1..], q[0])
  {
    if q != [] && q[0].value <= tim {
      DueTurnKeepsTrack(q, done, tim, oracle, all, left);
      DueHead(q, tim, Reissued(q[0]), oracle(|done|));
    } else {
      LastTurnOnTrack(q, done, tim, oracle, all, left);
    }
  }

  class Scheduler {
    const queue: OrderedQueue<Request>
    var issued: seq<Request>  // every exchange so far

    ghost predicate Valid()
      reads this, queue
    {
      queue.ordering == Asc && queue.Valid()
    }

    constructor ()
      ensures Valid() && queue.queue == [] && issued == [] && fresh(queue)
    {
      queue := new OrderedQueue(Asc);
      issued := [];
    }

    method AfterQueryFailed(r: Request, at: int)
      requires Valid()
      modifies queue
      ensures Valid() && queue.queue == AfterExchange(old(queue.queue), r, Failed(at))
    {
      if r.shouldRetry > 0 {
        if r.retries >= r.shouldRetry {
          return;
        }
        queue.Add(Element(r.url, at + FormatRetryDuration(r.retries), r));
      }
    }

    /** Issues a request; `x` is how the exchange ends. */
    method HTTPQuery(r: Request, x: Exchange)
      requires Valid()
      modifies this, queue
      ensures Valid() && issued == old(issued) + [r] && queue.queue == AfterExchange(old(queue.queue), r, x)
    {
      issued := issued + [r];
      if x.Failed? {
        AfterQueryFailed(r, x.at);
      }
    }

    method CheckRetryEntity(re: Entity, tim: int, x: Exchange) returns (more: bool)
      requires Valid()
      modifies this, queue
      ensures Valid() && (more <==> re.value <= tim)
      ensures more ==> issued == old(issued) + [Reissued(re)]
                       && queue.queue == AfterExchange(old(queue.queue), Reissued(re), x)
      ensures !more ==> issued == old(issued) && queue.queue == Insert(Asc, old(queue.queue), re)
    {
      if re.value <= tim {
        HTTPQuery(re.data.(retries := re.data.retries + 1), x);
        return true;
      }
      queue.Add(re);
      more := false;
    }

    /** Pops an entity and checks it; `ok` while there may be more that are due. */
    method PopAndCheck(tim: int, oracle: nat -> Exchange) returns (ok: bool)
      requires Valid()
      modifies this, queue
      ensures Valid()
      ensures ok <==> old(queue.queue) != [] && old(queue.queue)[0].value <= tim
      ensures ok ==> issued == old(issued) + [Reissued(old(queue.queue)[0])]
                     && queue.queue == AfterExchange(old(queue.queue)[1..], Reissued(old(queue.queue)[0]), oracle(|old(issued)|))
      ensures !ok ==> issued == old(issued)
                      && queue.queue == if old(queue.queue) == [] then []
                                        else Insert(Asc, old(queue.queue)[1..], old(queue.queue)[0])
    {
      var n := |issued|;
      var item := queue.Pop();
      ok := item.Some?;
      if ok {
        ok := CheckRetryEntity(item.value, tim, oracle(n));
      }
    }

    /** One turn of the ticker. It ends because retries trigger strictly later. */
    method PendingRequestsTick(tim: int, oracle: nat -> Exchange)
      requires Valid() && NotBefore(oracle, tim)
      modifies this, queue
      ensures Valid() && forall e :: e in queue.queue ==> e.value > tim
      ensures issued == old(issued) + ReissuedAll(Due(old(queue.queue), tim))
      ensures multiset(queue.queue) == multiset(NotDue(old(queue.queue), tim))
              + multiset(RetriesOf(ReissuedAll(Due(old(queue.queue), tim)), |old(issued)|, oracle))
    {
      TickIssuesDueOnce(queue.queue, tim, |issued|, oracle);
      ghost var (all, left) := Tick(queue.queue, tim, |issued|, oracle);
      var ok := true;
      while ok
        invariant Valid()
        invariant ok ==> OnTrack(queue.queue, issued, tim, oracle, old(issued) + all, left)
        invariant !ok ==> issued == old(issued) + all && queue.queue == left
        decreases ok, |Due(queue.queue, tim)|
      {
        TurnKeepsTrack(queue.queue, issued, tim, oracle, old(issued) + all, left);
        ok := PopAndCheck(tim, oracle);
      }
      NoneDueMeansLater(left, tim);
    }
  }

  lemma {:induction false} NoneDueMeansLater(q: seq<Entity>, tim: int)
    requires Due(q, tim) == []
    ensures forall e :: e in q ==> e.value > tim
  {
    if q != [] {
      NoneDueMeansLater(q[1..], tim);
      assert q == [q[0]] + q[1..];
    }
  }
}
