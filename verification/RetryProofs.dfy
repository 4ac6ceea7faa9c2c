/** The retry budget over every run in which callers and the ticker interleave. */
module RetryProofs {
  import opened Options
  import opened OrderedQueues
  import opened RetryScheduler

  /** The pending queue, the entity the ticker has popped, the exchanges under way, and,
      for each request, how often it has been issued and how many retries it may have. */
  datatype System = System(
    queue: seq<Entity>,
    hand: Option<Entity>,
    active: map<nat, Request>,
    issued: map<nat, nat>,
    budget: map<nat, int>)

  datatype Step =
    | Submit(rid: nat, url: string, shouldRetry: int)
    | Finish(rid: nat, x: Exchange)
    | PopNext
    | Reissue(tim: int)
    | PutBack(tim: int)

  predicate Enabled(s: System, step: Step) {
    match step
    case Submit(rid, _, _) => rid !in s.issued
    case Finish(rid, _) => rid in s.active
    case PopNext => s.hand.None? && s.queue != []
    case Reissue(tim) => s.hand.Some? && s.hand.value.value <= tim && s.hand.value.data.rid in s.issued
    case PutBack(tim) => s.hand.Some? && s.hand.value.value > tim
  }

  function Next(s: System, step: Step): System
    requires Enabled(s, step)
  {
    match step
    case Submit(rid, url, shouldRetry) =>
      s.(active := s.active[rid := Request(rid, url, 0, shouldRetry)],
         issued := s.issued[rid := 1], budget := s.budget[rid := shouldRetry])
    case Finish(rid, x) => s.(active := s.active - {rid}, queue := AfterExchange(s.queue, s.active[rid], x))
    case PopNext => s.(hand := Some(s.queue[0]), queue := s.queue[1..])
    case Reissue(_) =>
      var r := Reissued(s.hand.value);
      s.(hand := None, active := s.active[r.rid := r], issued := s.issued[r.rid := s.issued[r.rid] + 1])
    case PutBack(_) => s.(hand := None, queue := Insert(Asc, s.queue, s.hand.value))
  }

  function Run(steps: seq<Step>): Option<System> {
    if steps == [] then Some(System([], None, map[], map[], map[]))
    else
      var front := Run(steps[..|steps| - 1]);
      if front.Some? && Enabled(front.value, steps[|steps| - 1])
      then Some(Next(front.value, steps[|steps| - 1])) else None
  }

  /** The steps of one turn of a tick in a row do what `CheckRetryEntity` does: an entry that is
      due is issued once more, and its exchange ends; any other is put back. */
  lemma TurnInARow(s: System, tim: int, x: Exchange)
    requires s.hand.None? && s.queue != [] && s.queue[0].data.rid in s.issued && s.queue[0].data.rid !in s.active
    ensures var e := s.queue[0];
            var rid := e.data.rid;
            && Enabled(s, PopNext)
            && var popped := Next(s, PopNext);
               if e.value <= tim then
                 && Enabled(popped, Reissue(tim)) && Enabled(Next(popped, Reissue(tim)), Finish(rid, x))
                 && Next(Next(popped, Reissue(tim)), Finish(rid, x))
                    == s.(queue := AfterExchange(s.queue[1..], Reissued(e), x), issued := s.issued[rid := s.issued[rid] + 1])
               else Enabled(popped, PutBack(tim)) && Next(popped, PutBack(tim)) == s.(queue := Insert(Asc, s.queue[1..], e))
  {
    var popped := Next(s, PopNext);
    if s.queue[0].value <= tim {
      var issued := Next(popped, Reissue(tim));
      assert issued.active - {s.queue[0].data.rid} == s.active;
    }
  }

  /** The steps of a request without a retry in a row do what `HTTPQuery` does. */
  lemma QueryInARow(s: System, rid: nat, url: string, shouldRetry: int, x: Exchange)
    requires rid !in s.issued && rid !in s.active
    ensures Enabled(s, Submit(rid, url, shouldRetry)) && Enabled(Next(s, Submit(rid, url, shouldRetry)), Finish(rid, x))
    ensures var t := Next(Next(s, Submit(rid, url, shouldRetry)), Finish(rid, x));
            && t.queue == AfterExchange(s.queue, Request(rid, url, 0, shouldRetry), x) && t.active == s.active
            && t.hand == s.hand && t.issued == s.issued[rid := 1] && t.budget == s.budget[rid := shouldRetry]
  {
    assert Next(s, Submit(rid, url, shouldRetry)).active - {rid} == s.active;
  }

  /** A request that waits for its retry has been issued once more than its retries
      say, and may still be retried. */
  ghost predicate MayRetry(s: System, r: Request) {
    && r.rid in s.issued && r.rid in s.budget && r.rid !in s.active
    && r.shouldRetry == s.budget[r.rid] && s.issued[r.rid] == r.retries + 1 && r.retries < r.shouldRetry
  }

  ghost predicate OneToken(s: System) {
    && (forall i :: 0 <= i < |s.queue| ==> MayRetry(s, s.queue[i].data))
    && (forall i, j :: 0 <= i < j < |s.queue| ==> s.queue[i].data.rid != s.queue[j].data.rid)
    && (s.hand.Some? ==> MayRetry(s, s.hand.value.data))
    && (s.hand.Some? ==> forall i :: 0 <= i < |s.queue| ==> s.queue[i].data.rid != s.hand.value.data.rid)
  }

  ghost predicate WithinBudget(s: System) {
    && s.issued.Keys == s.budget.Keys
    && (forall rid :: rid in s.issued ==> s.issued[rid] <= 1 || s.issued[rid] <= s.budget[rid] + 1)
    && (forall rid :: rid in s.active ==>
          && rid in s.issued && s.active[rid].rid == rid
          && s.active[rid].shouldRetry == s.budget[rid] && s.issued[rid] == s.active[rid].retries + 1)
  }

  lemma InsertDistinct(q: seq<Entity>, e: Entity)
    requires forall i :: 0 <= i < |q| ==> q[i].data.rid != e.data.rid
    requires forall i, j :: 0 <= i < j < |q| ==> q[i].data.rid != q[j].data.rid
    ensures var r := Insert(Asc, q, e);
            && (forall i :: 0 <= i < |r| ==> r[i] == e || r[i] in q)
            && (forall i, j :: 0 <= i < j < |r| ==> r[i].data.rid != r[j].data.rid)
  {
    var r, u := Insert(Asc, q, e), UpperBound(Asc, q, e);
    forall i | 0 <= i < |r| ensures r[i] == if i < u then q[i] else if i == u then e else q[i - 1] {
    }
  }

  lemma InsertToken(s: System, t: System, e: Entity)
    requires t.queue == Insert(Asc, s.queue, e)
    requires forall i :: 0 <= i < |s.queue| ==> MayRetry(t, s.queue[i].data) && s.queue[i].data.rid != e.data.rid
    requires forall i, j :: 0 <= i < j < |s.queue| ==> s.queue[i].data.rid != s.queue[j].data.rid
    requires MayRetry(t, e.data)
    ensures forall i :: 0 <= i < |t.queue| ==> MayRetry(t, t.queue[i].data)
    ensures forall i, j :: 0 <= i < j < |t.queue| ==> t.queue[i].data.rid != t.queue[j].data.rid
    ensures forall i :: 0 <= i < |t.queue| ==> t.queue[i] == e || t.queue[i] in s.queue
  {
    InsertDistinct(s.queue, e);
  }

  lemma StepKeepsToken(s: System, step: Step)
    requires OneToken(s) && WithinBudget(s) && Enabled(s, step)
    ensures OneToken(Next(s, step))
  {
    var t := Next(s, step);
    match step
    case Finish(rid, x) =>
      if Retries(s.active[rid], x) {
        InsertToken(s, t, RetryEntity(s.active[rid], x));
      }
    case PutBack(_) => InsertToken(s, t, s.hand.value);
    case _ =>
  }

  lemma StepKeepsBudget(s: System, step: Step)
    requires OneToken(s) && WithinBudget(s) && Enabled(s, step)
    ensures WithinBudget(Next(s, step))
  {
  }

  lemma {:induction false} RunKeeps(steps: seq<Step>)
    ensures Run(steps).Some? ==> OneToken(Run(steps).value) && WithinBudget(Run(steps).value)
  {
    if steps != [] {
      RunKeeps(steps[..|steps| - 1]);
      var front := Run(steps[..|steps| - 1]);
      if front.Some? && Enabled(front.value, steps[|steps| - 1]) {
        StepKeepsToken(front.value, steps[|steps| - 1]);
        StepKeepsBudget(front.value, steps[|steps| - 1]);
      }
    }
  }

  /** The pending retries of a request, in the queue and in the ticker's hand. */
  function Pending(s: System, rid: nat): set<int> {
    (set i | 0 <= i < |s.queue| && s.queue[i].data.rid == rid :: i)
    + if s.hand.Some? && s.hand.value.data.rid == rid then {-1} else {}
  }

  /** In every interleaving a request is issued at most `shouldRetry + 1` times (once,
      if no retries are wanted), and has at most one retry pending, none while an
      exchange of it is under way. */
  lemma IssuedWithinBudget(steps: seq<Step>, rid: nat)
    requires Run(steps).Some? && rid in Run(steps).value.issued
    ensures var s := Run(steps).value;
            && rid in s.budget
            && s.issued[rid] <= (if s.budget[rid] > 0 then s.budget[rid] else 0) + 1
            && (forall i, j :: i in Pending(s, rid) && j in Pending(s, rid) ==> i == j)
            && (rid in s.active ==> Pending(s, rid) == {})
  {
    RunKeeps(steps);
  }
}
