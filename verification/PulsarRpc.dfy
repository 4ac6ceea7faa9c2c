/** RPC over Pulsar (QueryRPC and handleRPCCallback of mq/pulsar/pulsar.go), in every
    interleaving of queries, timeouts and the goroutines that handle responses. */
module PulsarRpc {
  import opened MqEnv
  import opened Options
  import opened PulsarMQs

  datatype Outcome = Asked | Received(msg: Delivery) | TimedOut

  datatype Asking = Asking(correlationId: string, outcome: Outcome)

  /** A handler of a response: about to hand it to the asker, or about to forget the entry. */
  datatype Handler = Handing(asker: nat, msg: Delivery) | Forgetting(correlationId: string)

  datatype Rpc = Rpc(queries: map<nat, Asking>, callbacks: map<string, nat>, handlers: map<nat, Handler>)

  datatype RpcStep =
    | Ask(q: nat, correlationId: string)
    | Arrive(h: nat, msg: Delivery)
    | Hand(h: nat)
    | Forget(h: nat)
    | TimeOut(q: nat)

  predicate RpcEnabled(s: Rpc, step: RpcStep) {
    match step
    case Ask(q, c) => q !in s.queries && c != ""
    case Arrive(h, _) => h !in s.handlers
    case Hand(h) =>
      && h in s.handlers && s.handlers[h].Handing?
      && s.handlers[h].asker in s.queries && s.queries[s.handlers[h].asker].outcome.Asked?
    case Forget(h) => h in s.handlers && s.handlers[h].Forgetting?
    case TimeOut(q) => q in s.queries && s.queries[q].outcome.Asked?
  }

  function RpcNext(s: Rpc, step: RpcStep): Rpc
    requires RpcEnabled(s, step)
  {
    match step
    case Ask(q, c) =>
      s.(queries := s.queries[q := Asking(c, Asked)],
         callbacks := if c in s.callbacks then s.callbacks else s.callbacks[c := q])
    case Arrive(h, msg) =>
      if msg.correlationId !in s.callbacks then s
      else
        var q := s.callbacks[msg.correlationId];
        var listening := q in s.queries && !s.queries[q].outcome.TimedOut?;
        s.(handlers := s.handlers[h := if listening then Handing(q, msg) else Forgetting(msg.correlationId)])
    case Hand(h) =>
      var q := s.handlers[h].asker;
      s.(queries := s.queries[q := s.queries[q].(outcome := Received(s.handlers[h].msg))],
         handlers := s.handlers[h := Forgetting(s.handlers[h].msg.correlationId)])
    case Forget(h) =>
      s.(callbacks := s.callbacks - {s.handlers[h].correlationId}, handlers := s.handlers - {h})
    case TimeOut(q) => s.(queries := s.queries[q := s.queries[q].(outcome := TimedOut)])
  }

  function RpcRun(steps: seq<RpcStep>): Option<Rpc> {
    if steps == [] then Some(Rpc(map[], map[], map[]))
    else
      var front := RpcRun(steps[..|steps| - 1]);
      if front.Some? && RpcEnabled(front.value, steps[|steps| - 1])
      then Some(RpcNext(front.value, steps[|steps| - 1])) else None
  }

  ghost predicate RpcInv(s: Rpc) {
    && (forall c :: c in s.callbacks ==> s.callbacks[c] in s.queries && s.queries[s.callbacks[c]].correlationId == c)
    && (forall h :: h in s.handlers && s.handlers[h].Handing? ==>
          s.handlers[h].asker in s.queries
          && s.queries[s.handlers[h].asker].correlationId == s.handlers[h].msg.correlationId)
    && (forall q :: q in s.queries && s.queries[q].outcome.Received? ==>
          s.queries[q].outcome.msg.correlationId == s.queries[q].correlationId)
  }

  lemma RpcStepKeeps(s: Rpc, step: RpcStep)
    requires RpcInv(s) && RpcEnabled(s, step)
    ensures RpcInv(RpcNext(s, step))
  {
  }

  lemma {:induction false} RpcRunKeeps(steps: seq<RpcStep>)
    ensures RpcRun(steps).Some? ==> RpcInv(RpcRun(steps).value)
  {
    if steps != [] {
      RpcRunKeeps(steps[..|steps| - 1]);
      var front := RpcRun(steps[..|steps| - 1]);
      if front.Some? && RpcEnabled(front.value, steps[|steps| - 1]) {
        RpcStepKeeps(front.value, steps[|steps| - 1]);
      }
    }
  }

  /** In every interleaving a query returns only a message with its own correlation id. */
  lemma QueriesGetOwnReplies(steps: seq<RpcStep>, q: nat)
    requires RpcRun(steps).Some? && q in RpcRun(steps).value.queries
    ensures var a := RpcRun(steps).value.queries[q];
            a.outcome.Received? ==> a.outcome.msg.correlationId == a.correlationId
  {
    RpcRunKeeps(steps);
  }

  // ---------------------------------------------------------------------------
  // Who is answered
  // ---------------------------------------------------------------------------

  function RpcFrom(s: Rpc, steps: seq<RpcStep>): Option<Rpc>
    decreases |steps|
  {
    if steps == [] then Some(s) else if RpcEnabled(s, steps[0]) then RpcFrom(RpcNext(s, steps[0]), steps[1..]) else None
  }

  /** The callback table as an instance keeps it: who asked, and whether it still listens. */
  function Table(s: Rpc): map<string, Query> {
    map c | c in s.callbacks ::
      Query(s.callbacks[c], s.callbacks[c] in s.queries && !s.queries[s.callbacks[c]].outcome.TimedOut?)
  }

  /** Asking enters the query as `EnsureRPCMessage` does: unless the id is taken. */
  lemma AskEnters(s: Rpc, q: nat, c: string)
    requires RpcInv(s) && RpcEnabled(s, Ask(q, c))
    ensures Table(RpcNext(s, Ask(q, c))) == if c in Table(s) then Table(s) else Table(s)[c := Query(q, true)]
  {
  }

  /** A response handled without interruption: what `HandleRPCCallback` does. The query in the
      table under its id is handed it while it waits, and is forgotten; a response that nobody
      asked for changes nothing. */
  lemma ResponseInARow(s: Rpc, h: nat, msg: Delivery)
    requires h !in s.handlers
    ensures var c := msg.correlationId;
            if c !in s.callbacks then RpcFrom(s, [Arrive(h, msg)]) == Some(s)
            else
              var q, rest := s.callbacks[c], s.(callbacks := s.callbacks - {c});
              && (q in s.queries && s.queries[q].outcome.Asked? ==>
                    RpcFrom(s, [Arrive(h, msg), Hand(h), Forget(h)])
                    == Some(rest.(queries := s.queries[q := Asking(s.queries[q].correlationId, Received(msg))])))
              && (q in s.queries && s.queries[q].outcome.TimedOut? ==>
                    RpcFrom(s, [Arrive(h, msg), Forget(h)]) == Some(rest))
  {
    var c := msg.correlationId;
    FromOne(s, Arrive(h, msg));
    if c in s.callbacks && s.callbacks[c] in s.queries {
      var q := s.callbacks[c];
      var t := RpcNext(s, Arrive(h, msg));
      if s.queries[q].outcome.Asked? {
        FromThree(s, Arrive(h, msg), Hand(h), Forget(h));
        assert RpcNext(RpcNext(t, Hand(h)), Forget(h)).handlers == s.handlers;
      } else if s.queries[q].outcome.TimedOut? {
        FromTwo(s, Arrive(h, msg), Forget(h));
        assert RpcNext(t, Forget(h)).handlers == s.handlers;
      }
    }
  }

  lemma FromOne(s: Rpc, a: RpcStep)
    requires RpcEnabled(s, a)
    ensures RpcFrom(s, [a]) == Some(RpcNext(s, a))
  {
    assert [a][1..] == [];
  }

  lemma FromTwo(s: Rpc, a: RpcStep, b: RpcStep)
    requires RpcEnabled(s, a) && RpcEnabled(RpcNext(s, a), b)
    ensures RpcFrom(s, [a, b]) == Some(RpcNext(RpcNext(s, a), b))
  {
    assert [a, b][1..] == [b];
    FromOne(RpcNext(s, a), b);
  }

  lemma FromThree(s: Rpc, a: RpcStep, b: RpcStep, d: RpcStep)
    requires RpcEnabled(s, a) && RpcEnabled(RpcNext(s, a), b) && RpcEnabled(RpcNext(RpcNext(s, a), b), d)
    ensures RpcFrom(s, [a, b, d]) == Some(RpcNext(RpcNext(RpcNext(s, a), b), d))
  {
    assert [a, b, d][1..] == [b, d];
    FromTwo(RpcNext(s, a), b, d);
  }

  /** Nothing leads to this query any more. */
  ghost predicate Unheard(s: Rpc, q: nat) {
    && q in s.queries && !s.queries[q].outcome.Received?
    && (forall c :: c in s.callbacks ==> s.callbacks[c] != q)
    && forall h :: h in s.handlers && s.handlers[h].Handing? ==> s.handlers[h].asker != q
  }

  lemma {:induction false} UnheardForGood(s: Rpc, q: nat, more: seq<RpcStep>)
    requires Unheard(s, q) && RpcFrom(s, more).Some?
    ensures Unheard(RpcFrom(s, more).value, q)
    decreases |more|
  {
    if more != [] {
      UnheardForGood(RpcNext(s, more[0]), q, more[1..]);
    }
  }

  /** A query can be answered if and only if no other one waits under its id when it is asked:
      otherwise no run whatever gives it a response, and it times out. */
  lemma AnsweredExactly(steps: seq<RpcStep>, q: nat, c: string)
    requires RpcRun(steps).Some? && RpcEnabled(RpcRun(steps).value, Ask(q, c))
    ensures var asked := RpcNext(RpcRun(steps).value, Ask(q, c));
            (exists more :: RpcFrom(asked, more).Some? && ReceivedBy(RpcFrom(asked, more).value, q))
            <==> c !in RpcRun(steps).value.callbacks
  {
    RpcRunKeeps(steps);
    var s := RpcRun(steps).value;
    var asked := RpcNext(s, Ask(q, c));
    if c in s.callbacks {
      assert Unheard(asked, q);
      forall more | RpcFrom(asked, more).Some? ensures !ReceivedBy(RpcFrom(asked, more).value, q) {
        UnheardForGood(asked, q, more);
      }
    } else {
      var h := FreeHandler(asked.handlers.Keys);
      ResponseInARow(asked, h, Delivery(c, "", 0));
      var more := [Arrive(h, Delivery(c, "", 0)), Hand(h), Forget(h)];
      assert ReceivedBy(RpcFrom(asked, more).value, q);
    }
  }

  predicate ReceivedBy(s: Rpc, q: nat) {
    q in s.queries && s.queries[q].outcome.Received?
  }

  lemma {:induction false} FreeHandler(used: set<nat>) returns (h: nat)
    ensures h !in used && forall k :: k in used ==> k < h
  {
    if used == {} {
      h := 0;
    } else {
      var k :| k in used;
      var rest := FreeHandler(used - {k});
      h := if rest > k then rest else k + 1;
      assert forall j :: j in used ==> j == k || j in used - {k};
    }
  }
}
