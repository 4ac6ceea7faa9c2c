/** Publishes and flushes of the Pulsar client that nothing overlaps: their steps in a row do
    what `Publish` and `EnsurePendings` do (mq/pulsar/pulsar.go). */
module PulsarPublishing {
  import opened AutoReplies
  import opened MqEnv
  import opened Options
  import opened PulsarMQs
  import opened PulsarProofs

  function OutboxOf(c: Client): Outbox {
    Outbox(c.connected, Messages(c.pending), Messages(c.sent), Messages(c.failed), Waiting(c.books.desk))
  }

  /** The client after `acts`, if each of them is possible. */
  function From(c: Client, acts: seq<Act>): Option<Client> {
    if acts == [] then Some(c)
    else
      var front := From(c, acts[..|acts| - 1]);
      if front.Some? && CanAct(front.value, acts[|acts| - 1]) then Some(Do(front.value, acts[|acts| - 1])) else None
  }

  lemma FromSnoc(c: Client, acts: seq<Act>, t: Client, a: Act)
    requires From(c, acts) == Some(t) && CanAct(t, a)
    ensures From(c, acts + [a]) == Some(Do(t, a))
  {
    assert (acts + [a])[..|acts|] == acts;
  }

  /** The steps of a publish under way, of the message that has entered last. */
  function PublishSteps(c: Client, accepted: bool): seq<Act>
    requires c.entering != []
  {
    var n := |c.entering| - 1;
    if !c.connected then [Look(n)] + [Append(|c.appending|)]
    else if !accepted then [Look(n)] + [Send(|c.sending|, false)]
    else [Look(n)] + [Send(|c.sending|, true)] + [Finish(|c.answering|)]
  }

  lemma DropsLast<T>(s: seq<T>, x: T)
    ensures Drop(s + [x], |s|) == s
  {
  }

  /** The client once the message that has entered last has been published. */
  function AfterPublish(c: Client, accepted: bool): Client
    requires c.entering != []
  {
    var p, rest := c.entering[|c.entering| - 1], c.entering[..|c.entering| - 1];
    if !c.connected then c.(entering := rest, pending := c.pending + [p])
    else if !accepted then c.(entering := rest, failed := c.failed + [p])
    else c.(entering := rest, sent := c.sent + [p], books := c.books.(desk := Answer(c.books.desk, p)))
  }

  lemma LooksLast(c: Client)
    requires c.entering != []
    ensures var n := |c.entering| - 1;
            var t := c.(entering := c.entering[..n]);
            From(c, [Look(n)]) == Some(if c.connected then t.(sending := c.sending + [c.entering[n]])
                                       else t.(appending := c.appending + [c.entering[n]]))
  {
    var n := |c.entering| - 1;
    assert c.entering == c.entering[..n] + [c.entering[n]] && [] + [Look(n)] == [Look(n)];
    DropsLast(c.entering[..n], c.entering[n]);
    FromSnoc(c, [], c, Look(n));
  }

  lemma AppendsLast(c: Client, acts: seq<Act>, t: Client, appending: seq<Post>, p: Post)
    requires From(c, acts) == Some(t) && t.appending == appending + [p]
    ensures From(c, acts + [Append(|appending|)]) == Some(t.(appending := appending, pending := t.pending + [p]))
  {
    DropsLast(appending, p);
    FromSnoc(c, acts, t, Append(|appending|));
  }

  lemma SendsLast(c: Client, acts: seq<Act>, t: Client, sending: seq<Post>, p: Post, accepted: bool)
    requires From(c, acts) == Some(t) && t.sending == sending + [p]
    ensures From(c, acts + [Send(|sending|, accepted)])
            == Some(if accepted then t.(sending := sending, sent := t.sent + [p], answering := t.answering + [p])
                    else t.(sending := sending, failed := t.failed + [p]))
  {
    DropsLast(sending, p);
    FromSnoc(c, acts, t, Send(|sending|, accepted));
  }

  lemma FinishesLast(c: Client, acts: seq<Act>, t: Client, answering: seq<Post>, p: Post)
    requires From(c, acts) == Some(t) && t.answering == answering + [p]
    ensures From(c, acts + [Finish(|answering|)])
            == Some(t.(answering := answering, books := t.books.(desk := Answer(t.books.desk, p))))
  {
    DropsLast(answering, p);
    FromSnoc(c, acts, t, Finish(|answering|));
  }

  lemma PublishStepsLead(c: Client, accepted: bool)
    requires c.entering != []
    ensures From(c, PublishSteps(c, accepted)) == Some(AfterPublish(c, accepted))
  {
    var n := |c.entering| - 1;
    var p, t := c.entering[n], c.(entering := c.entering[..n]);
    LooksLast(c);
    if !c.connected {
      AppendsLast(c, [Look(n)], t.(appending := c.appending + [p]), c.appending, p);
    } else {
      SendsLast(c, [Look(n)], t.(sending := c.sending + [p]), c.sending, p, accepted);
      if accepted {
        FinishesLast(c, [Look(n)] + [Send(|c.sending|, true)], t.(sent := c.sent + [p], answering := c.answering + [p]),
                     c.answering, p);
      }
    }
  }

  /** Look and Append, or Look, Send and Finish, in a row do what `Publish` does. */
  lemma PublishInARow(c: Client, accepted: bool)
    requires c.entering != []
    ensures var p := c.entering[|c.entering| - 1];
            var t := From(c, PublishSteps(c, accepted));
            && t.Some? && t.value.entering == c.entering[..|c.entering| - 1]
            && t.value.appending == c.appending && t.value.sending == c.sending && t.value.answering == c.answering
            && t.value.draining == c.draining
            && OutboxOf(t.value) == Published(OutboxOf(c), p.pm, accepted)
  {
    var p := c.entering[|c.entering| - 1];
    PublishStepsLead(c, accepted);
    MessagesSnoc(c.pending, p);
    MessagesSnoc(c.failed, p);
    MessagesSnoc(c.sent, p);
    AnswerStopsWaiting(c.books.desk, p);
  }

  /** A message submitted after the connection is lost waits in the buffer once it has been
      published. */
  lemma OfflineInARow(c: Client, p: Post, accepted: bool)
    requires CanAct(c, Submit(p))
    ensures CanAct(Do(c, Disconnect), Submit(p))
    ensures var u := Do(Do(c, Disconnect), Submit(p));
            var t := From(u, PublishSteps(u, accepted));
            t.Some? && t.value.entering == c.entering
            && OutboxOf(t.value) == OutboxOf(c).(connected := false, pending := OutboxOf(c).pending + [p.pm])
  {
    var u := Do(Do(c, Disconnect), Submit(p));
    assert u.entering[..|u.entering| - 1] == c.entering;
    PublishInARow(u, accepted);
  }

  /** A flush under way publishes the message in front. */
  lemma FlushesOne(c: Client, accepts: Message -> bool) returns (t: Client)
    requires c.entering == [] && c.draining != []
    ensures t.entering == [] && t.draining == c.draining[1..]
    ensures t.appending == c.appending && t.sending == c.sending && t.answering == c.answering
    ensures Leads(c, t) && OutboxOf(t) == Published(OutboxOf(c), c.draining[0].pm, accepts(c.draining[0].pm))
  {
    var p, u := c.draining[0], c.(draining := c.draining[1..], entering := [c.draining[0]]);
    assert Drop(c.draining, 0) == c.draining[1..] && [] + [p] == [p];
    FromSnoc(c, [], c, FlushNext(0));
    LeadsBy(c, [] + [FlushNext(0)], u);
    PublishInARow(u, accepts(p.pm));
    t := From(u, PublishSteps(u, accepts(p.pm))).value;
    LeadsBy(u, PublishSteps(u, accepts(p.pm)), t);
    LeadsOn(c, u, t);
  }

  lemma {:induction false} FlushesInARow(c: Client, accepts: Message -> bool) returns (t: Client)
    requires c.entering == []
    ensures t.entering == [] && t.draining == []
    ensures t.appending == c.appending && t.sending == c.sending && t.answering == c.answering
    ensures Leads(c, t) && OutboxOf(t) == PublishedOn(OutboxOf(c), Messages(c.draining), accepts)
    decreases |c.draining|
  {
    if c.draining == [] {
      t := c;
      LeadsBy(c, [], c);
    } else {
      var v := FlushesOne(c, accepts);
      t := FlushesInARow(v, accepts);
      LeadsOn(c, v, t);
      assert Messages(c.draining)[1..] == Messages(c.draining[1..]);
    }
  }

  /** The same as `PublishedAll`, from the front. */
  function PublishedOn(o: Outbox, pms: seq<Message>, accepts: Message -> bool): Outbox
    decreases |pms|
  {
    if pms == [] then o else PublishedOn(Published(o, pms[0], accepts(pms[0])), pms[1..], accepts)
  }

  lemma {:induction false} PublishedOnIs(o: Outbox, pms: seq<Message>, accepts: Message -> bool)
    ensures PublishedOn(o, pms, accepts) == PublishedAll(o, pms, accepts)
    decreases |pms|
  {
    if pms != [] {
      var front, last := pms[..|pms| - 1], pms[|pms| - 1];
      if front == [] {
        assert pms[1..] == [] && pms == [last];
      } else {
        PublishedOnSnoc(o, front, last, accepts);
        PublishedOnIs(o, front, accepts);
        assert pms == front + [last];
      }
    }
  }

  lemma {:induction false} PublishedOnSnoc(o: Outbox, pms: seq<Message>, pm: Message, accepts: Message -> bool)
    ensures PublishedOn(o, pms + [pm], accepts) == Published(PublishedOn(o, pms, accepts), pm, accepts(pm))
    decreases |pms|
  {
    if pms == [] {
      assert [] + [pm] == [pm] && [pm][1..] == [];
    } else {
      assert (pms + [pm])[1..] == pms[1..] + [pm];
      PublishedOnSnoc(Published(o, pms[0], accepts(pms[0])), pms[1..], pm, accepts);
    }
  }

  /** Some acts lead from one client to the other. */
  ghost predicate Leads(c: Client, t: Client) {
    exists acts :: From(c, acts) == Some(t)
  }

  lemma LeadsBy(c: Client, acts: seq<Act>, t: Client)
    requires From(c, acts) == Some(t)
    ensures Leads(c, t)
  {
  }

  lemma {:induction false} FromConcat(c: Client, acts: seq<Act>, t: Client, more: seq<Act>)
    requires From(c, acts) == Some(t)
    ensures From(c, acts + more) == From(t, more)
  {
    if more == [] {
      assert acts + more == acts;
    } else {
      FromConcat(c, acts, t, more[..|more| - 1]);
      assert (acts + more)[..|acts + more| - 1] == acts + more[..|more| - 1];
    }
  }

  lemma LeadsOn(c: Client, t: Client, u: Client)
    requires Leads(c, t) && Leads(t, u)
    ensures Leads(c, u)
  {
    var acts :| From(c, acts) == Some(t);
    var more :| From(t, more) == Some(u);
    FromConcat(c, acts, t, more);
  }

  /** Taking the buffer over and publishing it message by message does what `EnsurePendings`
      does. */
  lemma FlushInARow(c: Client, accepts: Message -> bool) returns (t: Client)
    requires c.entering == [] && c.draining == []
    ensures t.entering == [] && t.draining == []
    ensures t.appending == c.appending && t.sending == c.sending && t.answering == c.answering
    ensures Leads(c, t)
    ensures OutboxOf(t) == PublishedAll(OutboxOf(c).(pending := []), Messages(c.pending), accepts)
  {
    var u := Do(c, StartFlush);
    assert [] + c.pending == c.pending && [] + [StartFlush] == [StartFlush];
    FromSnoc(c, [], c, StartFlush);
    LeadsBy(c, [StartFlush], u);
    t := FlushesInARow(u, accepts);
    LeadsOn(c, u, t);
    assert Messages([]) == [];
    PublishedOnIs(OutboxOf(c).(pending := []), Messages(c.pending), accepts);
  }

  // ---------------------------------------------------------------------------
  // Handling a delivery
  // ---------------------------------------------------------------------------

  lemma {:induction false} RepliesStayKnown(acts: seq<Act>)
    ensures DoAll(acts).Some? ==> RepliesKnown(DoAll(acts).value.books.desk)
  {
    if acts != [] {
      RepliesStayKnown(acts[..|acts| - 1]);
      var front, a := DoAll(acts[..|acts| - 1]), acts[|acts| - 1];
      if front.Some? && CanAct(front.value, a) {
        NoteKeepsKnown(front.value.books, NoteOf(front.value, a));
      }
    }
  }

  function WithDesk(c: Client, k: Desk): Client {
    c.(books := c.books.(desk := k))
  }

  lemma StepLeads(c: Client, a: Act)
    requires CanAct(c, a)
    ensures Leads(c, Do(c, a))
  {
    assert [] + [a] == [a];
    FromSnoc(c, [], c, a);
    LeadsBy(c, [a], Do(c, a));
  }

  /** The client when the check of a delivery has been made, with nothing published since it
      was remembered. */
  lemma ChecksInARow(c: Client, d: nat, m: Delivery, resp: Option<Message>) returns (t: Client)
    requires CanRemember(c.books.desk, d, m) && RepliesKnown(c.books.desk)
    ensures Leads(c, t) && t == WithDesk(c, t.books.desk)
    ensures Waiting(t.books.desk) == Waiting(c.books.desk)[m.correlationId := m]
    ensures At(t.books.desk, d, if resp.Some? then Replying else Done)
    ensures t.books.desk.jobs[d].m == m && t.books.desk.jobs[d].answer == resp
  {
    DeskInARow(c.books.desk, d, m, resp);
    var k := Remember(c.books.desk, d, m);
    DeliverLeads(c, d, m);
    ReturnLeads(WithDesk(c, k), d, resp);
    CheckLeads(WithDesk(c, Return(k, d, resp)), d);
    t := WithDesk(c, Decide(Return(k, d, resp), d));
    LeadsOn(c, WithDesk(c, k), WithDesk(c, Return(k, d, resp)));
    LeadsOn(c, WithDesk(c, Return(k, d, resp)), t);
  }

  lemma DeliverLeads(c: Client, d: nat, m: Delivery)
    requires CanRemember(c.books.desk, d, m)
    ensures Leads(c, WithDesk(c, Remember(c.books.desk, d, m)))
  {
    StepLeads(c, Deliver(d, m));
  }

  lemma ReturnLeads(c: Client, d: nat, resp: Option<Message>)
    requires At(c.books.desk, d, Handling)
    ensures Leads(c, WithDesk(c, Return(c.books.desk, d, resp)))
  {
    StepLeads(c, CallbackReturns(d, resp));
  }

  lemma CheckLeads(c: Client, d: nat)
    requires At(c.books.desk, d, Returned)
    ensures Leads(c, WithDesk(c, Decide(c.books.desk, d)))
  {
    StepLeads(c, Check(d));
  }

  lemma ReplyLeads(c: Client, d: nat) returns (t: Client)
    requires At(c.books.desk, d, Replying) && c.books.desk.jobs[d].answer.Some?
    ensures Leads(c, t) && t.entering == c.entering + [ReplyTo(c.books.desk, d)] && OutboxOf(t) == OutboxOf(c)
    ensures t.appending == c.appending && t.sending == c.sending && t.answering == c.answering && t.draining == c.draining
  {
    StepLeads(c, Reply(d));
    t := Do(c, Reply(d));
    OthersWaitOn(c.books.desk, d, None);
  }

  /** Deliver, CallbackReturns, Check and Reply in a row, and the publish of the response, do what
      `HandleConsumeCallback` does when nothing is published beside. */
  lemma HandleInARow(c: Client, d: nat, m: Delivery, resp: Option<Message>, accepts: Message -> bool) returns (t: Client)
    requires CanRemember(c.books.desk, d, m) && RepliesKnown(c.books.desk)
    ensures Leads(c, t) && t.entering == c.entering
    ensures t.appending == c.appending && t.sending == c.sending && t.answering == c.answering && t.draining == c.draining
    ensures OutboxOf(t) == Handled(OutboxOf(c), m, [], resp, accepts)
  {
    var u := ChecksInARow(c, d, m, resp);
    if resp.None? {
      t := u;
    } else {
      var p := ReplyTo(u.books.desk, d);
      var v := ReplyLeads(u, d);
      assert v.entering[..|v.entering| - 1] == c.entering;
      PublishInARow(v, accepts(p.pm));
      t := From(v, PublishSteps(v, accepts(p.pm))).value;
      LeadsBy(v, PublishSteps(v, accepts(p.pm)), t);
      LeadsOn(c, u, v);
      LeadsOn(c, v, t);
    }
  }
}
