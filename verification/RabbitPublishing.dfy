/** Calls of the RabbitMQ client that nothing overlaps: their steps in a row do what `Publish`,
    `EnsureQueue` and `HandleConsumeCallback` do (mq/rabbitmq/rabbitmq.go). */
module RabbitPublishing {
  import opened AutoReplies
  import opened MqEnv
  import opened Options
  import opened RabbitProofs
  import Calls = RabbitMQs

  function RabbitOf(c: Client): Calls.Rabbit {
    Calls.Rabbit(c.conn, c.channel, c.queue, Messages(c.pending), Waiting(c.books.desk), Messages(c.sent), Messages(c.lost))
  }

  /** The client after `acts`, if each of them is possible. */
  ghost function From(config: Config, c: Client, acts: seq<Act>): Option<Client>
    decreases |acts|
  {
    if acts == [] then Some(c)
    else if CanAct(c, config, acts[0]) then From(config, Do(c, config, acts[0]), acts[1..])
    else None
  }

  /** Some acts lead from one client to the other. */
  ghost predicate Leads(config: Config, c: Client, t: Client) {
    exists acts :: From(config, c, acts) == Some(t)
  }

  lemma {:induction false} FromConcat(config: Config, c: Client, acts: seq<Act>, t: Client, more: seq<Act>)
    requires From(config, c, acts) == Some(t)
    ensures From(config, c, acts + more) == From(config, t, more)
    decreases |acts|
  {
    if acts == [] {
      assert acts + more == more;
    } else {
      FromConcat(config, Do(c, config, acts[0]), acts[1..], t, more);
      assert (acts + more)[1..] == acts[1..] + more;
    }
  }

  lemma LeadsNowhere(config: Config, c: Client)
    ensures Leads(config, c, c)
  {
    assert From(config, c, []) == Some(c);
  }

  lemma LeadsBy(config: Config, c: Client, a: Act)
    requires CanAct(c, config, a)
    ensures Leads(config, c, Do(c, config, a))
  {
    assert [a][1..] == [];
    assert From(config, c, [a]) == Some(Do(c, config, a));
  }

  lemma LeadsOn(config: Config, c: Client, t: Client, u: Client)
    requires Leads(config, c, t) && Leads(config, t, u)
    ensures Leads(config, c, u)
  {
    var acts :| From(config, c, acts) == Some(t);
    var more :| From(config, t, more) == Some(u);
    FromConcat(config, c, acts, t, more);
  }

  /** What a worker does besides: the other one, the channel `Publish` and the handling of
      deliveries stay as they are. */
  predicate Beside(c: Client, t: Client, w: Worker) {
    && Tasks(t, if w.Loop? then Courier else Loop) == Tasks(c, if w.Loop? then Courier else Loop)
    && t.inbox == c.inbox && t.books.desk.jobs == c.books.desk.jobs && t.books.submitted == c.books.submitted
  }

  // ---------------------------------------------------------------------------
  // Publishing
  // ---------------------------------------------------------------------------

  /** The client once a worker has handed a message over and answered. */
  function AfterHand(c: Client, w: Worker, p: Post, rest: seq<Task>, accepted: bool): Client {
    var t := WithTasks(c, w, rest).(books := c.books.(desk := Answer(c.books.desk, p)));
    if accepted then t.(sent := c.sent + [p]) else t.(lost := c.lost + [p])
  }

  lemma HandedIsEmitted(c: Client, w: Worker, p: Post, rest: seq<Task>, accepts: Message -> bool)
    ensures RabbitOf(AfterHand(c, w, p, rest, accepts(p.pm))) == Calls.Emit(RabbitOf(c), p.pm, accepts)
  {
    MessagesSnoc(c.sent, p);
    MessagesSnoc(c.lost, p);
    AnswerStopsWaiting(c.books.desk, p);
  }

  /** Emit and Finish in a row hand a message over. */
  lemma HandsOver(config: Config, c: Client, w: Worker, p: Post, rest: seq<Task>, accepts: Message -> bool)
    requires Tasks(c, w) == [Task(p, Emitting)] + rest && c.channel
    ensures var t := AfterHand(c, w, p, rest, accepts(p.pm));
            && Leads(config, c, t) && Tasks(t, w) == rest && Beside(c, t, w)
            && RabbitOf(t) == Calls.Emit(RabbitOf(c), p.pm, accepts)
  {
    var u := EmitLeads(config, c, w, p, rest, accepts(p.pm));
    FinishLeads(config, u, w, p, rest);
    LeadsOn(config, c, u, AfterHand(c, w, p, rest, accepts(p.pm)));
    HandedIsEmitted(c, w, p, rest, accepts);
  }

  lemma EmitLeads(config: Config, c: Client, w: Worker, p: Post, rest: seq<Task>, accepted: bool) returns (t: Client)
    requires Tasks(c, w) == [Task(p, Emitting)] + rest && c.channel
    ensures Leads(config, c, t)
    ensures var u := WithTasks(c, w, [Task(p, Answering)] + rest);
            t == if accepted then u.(sent := c.sent + [p]) else u.(lost := c.lost + [p])
  {
    LeadsBy(config, c, Emit(w, accepted));
    t := Do(c, config, Emit(w, accepted));
    assert Tasks(c, w)[1..] == rest;
  }

  lemma FinishLeads(config: Config, c: Client, w: Worker, p: Post, rest: seq<Task>)
    requires Tasks(c, w) == [Task(p, Answering)] + rest
    ensures Leads(config, c, WithTasks(c, w, rest).(books := c.books.(desk := Answer(c.books.desk, p))))
  {
    assert Tasks(c, w)[1..] == rest;
    LeadsBy(config, c, Finish(w));
  }

  /** A worker that finds an open channel and a queue hands its message over. */
  lemma LooksAndHands(config: Config, c: Client, w: Worker, p: Post, rest: seq<Task>, accepts: Message -> bool) returns (t: Client)
    requires Tasks(c, w) == [Task(p, Looking)] + rest && c.channel && (c.queue != "" || config.broadcast)
    ensures Leads(config, c, t) && Tasks(t, w) == rest && Beside(c, t, w)
    ensures RabbitOf(t) == Calls.Emit(RabbitOf(c), p.pm, accepts)
  {
    var u := Do(c, config, Look(w));
    LeadsBy(config, c, Look(w));
    assert Tasks(c, w)[1..] == rest;
    assert Tasks(u, w) == [Task(p, Emitting)] + rest;
    HandsOver(config, u, w, p, rest, accepts);
    t := AfterHand(u, w, p, rest, accepts(p.pm));
    LeadsOn(config, c, u, t);
  }

  /** The messages of a flush are handed over in order. */
  lemma {:induction false} FlushesInARow(config: Config, c: Client, w: Worker, posts: seq<Post>, rest: seq<Task>,
                                         accepts: Message -> bool)
    returns (t: Client)
    requires Tasks(c, w) == Lookers(posts) + rest && c.channel && c.queue != ""
    ensures Leads(config, c, t) && Tasks(t, w) == rest && Beside(c, t, w)
    ensures RabbitOf(t) == Calls.EmitAll(RabbitOf(c), Messages(posts), accepts)
  {
    if posts == [] {
      assert Lookers(posts) + rest == rest;
      LeadsNowhere(config, c);
      t := c;
    } else {
      var front, last := posts[..|posts| - 1], posts[|posts| - 1];
      assert Lookers(front) + [Task(last, Looking)] + rest == Lookers(front) + ([Task(last, Looking)] + rest);
      var u := FlushesInARow(config, c, w, front, [Task(last, Looking)] + rest, accepts);
      t := FlushesLast(config, c, u, w, front, last, rest, accepts);
      assert posts == front + [last];
    }
  }

  lemma FlushesLast(config: Config, c: Client, u: Client, w: Worker, front: seq<Post>, last: Post, rest: seq<Task>,
                    accepts: Message -> bool)
    returns (t: Client)
    requires c.channel && c.queue != "" && Leads(config, c, u) && Beside(c, u, w)
    requires Tasks(u, w) == [Task(last, Looking)] + rest
    requires RabbitOf(u) == Calls.EmitAll(RabbitOf(c), Messages(front), accepts)
    ensures Leads(config, c, t) && Tasks(t, w) == rest && Beside(c, t, w)
    ensures RabbitOf(t) == Calls.EmitAll(RabbitOf(c), Messages(front + [last]), accepts)
  {
    Calls.EmitAllKeeps(RabbitOf(c), Messages(front), accepts);
    t := LooksAndHands(config, u, w, last, rest, accepts);
    LeadsOn(config, c, u, t);
    EmitAllSnoc(RabbitOf(c), front, last, accepts);
  }

  lemma EmitAllSnoc(r: Calls.Rabbit, front: seq<Post>, last: Post, accepts: Message -> bool)
    ensures Calls.EmitAll(r, Messages(front + [last]), accepts) == Calls.Emit(Calls.EmitAll(r, Messages(front), accepts), last.pm, accepts)
  {
    MessagesSnoc(front, last);
    assert (Messages(front) + [last.pm])[..|front|] == Messages(front);
  }

  /** The steps of one publish in a row, by either goroutine, do what `Publish` does: Look and
      Append; Look, Emit and Finish; or Look and Declare, with the flush in between. */
  lemma PublishInARow(config: Config, c: Client, w: Worker, p: Post, rest: seq<Task>, b: Calls.Broker) returns (t: Client)
    requires Tasks(c, w) == [Task(p, Looking)] + rest && Calls.Named(b)
    ensures Leads(config, c, t) && Tasks(t, w) == rest && Beside(c, t, w)
    ensures RabbitOf(t) == Calls.Published(RabbitOf(c), config.broadcast, p.pm, b)
  {
    assert Tasks(c, w)[1..] == rest;
    if c.channel && (c.queue != "" || config.broadcast) {
      t := LooksAndHands(config, c, w, p, rest, b.accepts);
    } else {
      var u := Do(c, config, Look(w));
      LeadsBy(config, c, Look(w));
      assert Tasks(u, w)[1..] == rest && RabbitOf(u) == RabbitOf(c);
      if !c.channel {
        LeadsBy(config, u, Append(w));
        t := Do(u, config, Append(w));
        MessagesSnoc(c.pending, p);
      } else {
        assert Tasks(u, w) == [Task(p, Declaring)] + rest;
        t := DeclaresAndHands(config, u, w, p, rest, b);
      }
      LeadsOn(config, c, u, t);
    }
  }

  lemma DeclaresAndHands(config: Config, c: Client, w: Worker, p: Post, rest: seq<Task>, b: Calls.Broker) returns (t: Client)
    requires Tasks(c, w) == [Task(p, Declaring)] + rest && Calls.Named(b)
    requires c.channel && c.queue == "" && !config.broadcast
    ensures Leads(config, c, t) && Tasks(t, w) == rest && Beside(c, t, w)
    ensures RabbitOf(t) == Calls.Published(RabbitOf(c), config.broadcast, p.pm, b)
  {
    assert Tasks(c, w)[1..] == rest;
    var u := Do(c, config, Declare(w, b.declared));
    LeadsBy(config, c, Declare(w, b.declared));
    if !c.conn || b.declared.None? {
      MessagesSnoc(c.lost, p);
      t := u;
    } else {
      assert Messages([]) == [];
      var v := FlushesInARow(config, u, w, c.pending, [Task(p, Emitting)] + rest, b.accepts);
      Calls.EmitAllKeeps(RabbitOf(u), Messages(c.pending), b.accepts);
      HandsOver(config, v, w, p, rest, b.accepts);
      t := AfterHand(v, w, p, rest, b.accepts(p.pm));
      LeadsOn(config, c, u, v);
      LeadsOn(config, c, v, t);
    }
  }

  /** The run loop takes the front message out of the channel and publishes it. */
  lemma TakeInARow(config: Config, c: Client, b: Calls.Broker) returns (t: Client)
    requires c.loop == [] && c.inbox != [] && Calls.Named(b)
    ensures Leads(config, c, t) && t.loop == [] && t.courier == c.courier && t.inbox == c.inbox[1..]
    ensures RabbitOf(t) == Calls.Published(RabbitOf(c), config.broadcast, c.inbox[0].pm, b)
  {
    var u := Do(c, config, Take);
    LeadsBy(config, c, Take);
    assert [Task(c.inbox[0], Looking)] + [] == [Task(c.inbox[0], Looking)];
    t := PublishInARow(config, u, Loop, c.inbox[0], [], b);
    LeadsOn(config, c, u, t);
  }

  /** Declaring the queue and flushing does what `EnsureQueue` does. */
  lemma EnsureQueueInARow(config: Config, c: Client, b: Calls.Broker) returns (t: Client)
    requires c.loop == [] && c.conn && c.channel && Calls.Named(b)
    ensures Leads(config, c, t) && t.loop == [] && t.courier == c.courier && t.inbox == c.inbox
    ensures RabbitOf(t) == Calls.Declared(RabbitOf(c), b)
  {
    var u := Do(c, config, QueueDeclared(b.declared));
    LeadsBy(config, c, QueueDeclared(b.declared));
    if b.declared.None? {
      t := u;
    } else {
      assert Messages([]) == [] && Lookers(c.pending) + [] == Lookers(c.pending);
      t := FlushesInARow(config, u, Loop, c.pending, [], b.accepts);
      LeadsOn(config, c, u, t);
    }
  }

  /** What happens to the connection means the same to both models. */
  lemma EventsAlike(config: Config, c: Client, b: Calls.Broker)
    requires c.loop == []
    ensures RabbitOf(Do(c, config, Dropped)) == Calls.React(RabbitOf(c), config.broadcast, Calls.Dropped)
    ensures RabbitOf(Do(c, config, Reset)) == Calls.React(RabbitOf(c), config.broadcast, Calls.Reset)
    ensures RabbitOf(Do(c, config, FoundClosed)) == Calls.React(RabbitOf(c), config.broadcast, Calls.FoundClosed)
    ensures RabbitOf(Do(c, config, Connected)) == Calls.React(RabbitOf(c), config.broadcast, Calls.Reconnected(b, false))
  {
  }

  // ---------------------------------------------------------------------------
  // Handling a delivery
  // ---------------------------------------------------------------------------

  lemma {:induction false} RepliesStayKnown(config: Config, acts: seq<Act>)
    ensures DoAll(config, acts).Some? ==> RepliesKnown(DoAll(config, acts).value.books.desk)
  {
    if acts != [] {
      RepliesStayKnown(config, acts[..|acts| - 1]);
      var front, a := DoAll(config, acts[..|acts| - 1]), acts[|acts| - 1];
      if front.Some? && CanAct(front.value, config, a) {
        NoteKeepsKnown(front.value.books, NoteOf(front.value, a));
      }
    }
  }

  function WithDesk(c: Client, k: Desk): Client {
    c.(books := c.books.(desk := k))
  }

  /** The client when the check of a delivery has been made, with nothing published since it
      was remembered. */
  lemma ChecksInARow(config: Config, c: Client, d: nat, m: Delivery, resp: Option<Message>) returns (t: Client)
    requires CourierFree(c) && CanRemember(c.books.desk, d, m) && RepliesKnown(c.books.desk)
    ensures Leads(config, c, t) && t == WithDesk(c, t.books.desk)
    ensures Waiting(t.books.desk) == Waiting(c.books.desk)[m.correlationId := m]
    ensures At(t.books.desk, d, if resp.Some? then Replying else Done)
    ensures t.books.desk.jobs[d].m == m && t.books.desk.jobs[d].answer == resp
  {
    DeskInARow(c.books.desk, d, m, resp);
    var k := Remember(c.books.desk, d, m);
    DeliverLeads(config, c, d, m);
    ReturnLeads(config, WithDesk(c, k), d, resp);
    CheckLeads(config, WithDesk(c, Return(k, d, resp)), d);
    t := WithDesk(c, Decide(Return(k, d, resp), d));
    LeadsOn(config, c, WithDesk(c, k), WithDesk(c, Return(k, d, resp)));
    LeadsOn(config, c, WithDesk(c, Return(k, d, resp)), t);
  }

  lemma DeliverLeads(config: Config, c: Client, d: nat, m: Delivery)
    requires CourierFree(c) && CanRemember(c.books.desk, d, m)
    ensures Leads(config, c, WithDesk(c, Remember(c.books.desk, d, m)))
  {
    LeadsBy(config, c, Deliver(d, m));
  }

  lemma ReturnLeads(config: Config, c: Client, d: nat, resp: Option<Message>)
    requires At(c.books.desk, d, Handling)
    ensures Leads(config, c, WithDesk(c, Return(c.books.desk, d, resp)))
  {
    LeadsBy(config, c, CallbackReturns(d, resp));
  }

  lemma CheckLeads(config: Config, c: Client, d: nat)
    requires At(c.books.desk, d, Returned)
    ensures Leads(config, c, WithDesk(c, Decide(c.books.desk, d)))
  {
    LeadsBy(config, c, Check(d));
  }

  lemma ReplyLeads(config: Config, c: Client, d: nat) returns (t: Client)
    requires At(c.books.desk, d, Replying) && c.books.desk.jobs[d].answer.Some? && c.courier == []
    ensures Leads(config, c, t) && t.loop == c.loop && t.inbox == c.inbox && RabbitOf(t) == RabbitOf(c)
    ensures t.courier == [Task(ReplyTo(c.books.desk, d), Looking)] + []
  {
    LeadsBy(config, c, Reply(d));
    t := Do(c, config, Reply(d));
    OthersWaitOn(c.books.desk, d, None);
  }

  /** The courier handles a delivery as `HandleConsumeCallback` does when nothing is published
      beside. */
  lemma HandleInARow(config: Config, c: Client, d: nat, m: Delivery, resp: Option<Message>, b: Calls.Broker) returns (t: Client)
    requires CourierFree(c) && CanRemember(c.books.desk, d, m) && RepliesKnown(c.books.desk) && Calls.Named(b)
    ensures Leads(config, c, t) && t.courier == [] && t.loop == c.loop && t.inbox == c.inbox
    ensures RabbitOf(t) == Calls.Handled(RabbitOf(c), config.broadcast, m, [], resp, b)
  {
    var u := ChecksInARow(config, c, d, m, resp);
    if resp.None? {
      t := u;
    } else {
      var v := ReplyLeads(config, u, d);
      t := PublishInARow(config, v, Courier, ReplyTo(u.books.desk, d), [], b);
      LeadsOn(config, c, u, v);
      LeadsOn(config, c, v, t);
    }
  }
}
