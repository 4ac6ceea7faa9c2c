/** Publishing, buffering across reconnects, replying and RPC of mq/pulsar/pulsar.go. */
module PulsarMQs {
  import opened MqEnv
  import opened Options

  /** The client state that publishing reads and writes, with what the broker took
      (`sent`) and what it refused (`failed`). */
  datatype Outbox = Outbox(
    connected: bool,
    pending: seq<Message>,
    sent: seq<Message>,
    failed: seq<Message>,
    replies: map<string, Delivery>)

  /** Sending a message answers the delivery that waits for its correlation id. */
  function Sent(o: Outbox, pm: Message): Outbox {
    o.(sent := o.sent + [pm],
       replies := if pm.correlationId != "" then o.replies - {pm.correlationId} else o.replies)
  }

  function Published(o: Outbox, pm: Message, accepted: bool): Outbox {
    if !o.connected then o.(pending := o.pending + [pm])
    else if !accepted then o.(failed := o.failed + [pm])
    else Sent(o, pm)
  }

  function PublishedAll(o: Outbox, pms: seq<Message>, accepts: Message -> bool): Outbox {
    if pms == [] then o
    else
      var last := pms[|pms| - 1];
      Published(PublishedAll(o, pms[..|pms| - 1], accepts), last, accepts(last))
  }

  /** A delivery whose callback returns `resp`, while others publish `meanwhile` up to the
      check: the response goes out if the delivery still waits for a reply then. */
  function Handled(o: Outbox, m: Delivery, meanwhile: seq<Message>, resp: Option<Message>, accepts: Message -> bool): Outbox {
    if !NeedsReply(m) then PublishedAll(o, meanwhile, accepts)
    else
      var t := PublishedAll(o.(replies := o.replies[m.correlationId := m]), meanwhile, accepts);
      if resp.Some? && m.correlationId in t.replies
      then Published(t, resp.value.(replyTo := m.replyTo), accepts(resp.value.(replyTo := m.replyTo))) else t
  }

  /** Connected, with a broker that takes them all, the messages are sent in order. */
  lemma {:induction false} WillingBrokerSends(o: Outbox, pms: seq<Message>, accepts: Message -> bool)
    requires o.connected && forall pm :: pm in pms ==> accepts(pm)
    ensures var t := PublishedAll(o, pms, accepts);
            t.sent == o.sent + pms && t.pending == o.pending && t.failed == o.failed && t.connected
  {
    if pms != [] {
      WillingBrokerSends(o, pms[..|pms| - 1], accepts);
    }
  }

  /** A publish puts the message into exactly one place, and takes nothing out of any. */
  lemma PublishConserves(o: Outbox, pm: Message, accepted: bool)
    ensures var t := Published(o, pm, accepted);
            && o.sent <= t.sent && o.failed <= t.failed && o.pending <= t.pending
            && t.sent[|o.sent|..] + t.failed[|o.failed|..] + t.pending[|o.pending|..] == [pm]
            && (t.sent != o.sent <==> o.connected && accepted)
            && (t.pending != o.pending <==> !o.connected)
  {
  }

  /** Over any number of publishes sent, failed and pending messages gain the submitted ones. */
  lemma {:induction false} PublishesConserve(o: Outbox, pms: seq<Message>, accepts: Message -> bool)
    ensures var t := PublishedAll(o, pms, accepts);
            multiset(t.sent) + multiset(t.failed) + multiset(t.pending)
            == multiset(o.sent) + multiset(o.failed) + multiset(o.pending) + multiset(pms)
  {
    if pms != [] {
      var front, last := pms[..|pms| - 1], pms[|pms| - 1];
      assert pms == front + [last];
      PublishesConserve(o, front, accepts);
      OnePlaceMore(PublishedAll(o, front, accepts), last, accepts(last));
    }
  }

  lemma OnePlaceMore(o: Outbox, pm: Message, accepted: bool)
    ensures var t := Published(o, pm, accepted);
            multiset(t.sent) + multiset(t.failed) + multiset(t.pending)
            == multiset(o.sent) + multiset(o.failed) + multiset(o.pending) + multiset{pm}
  {
  }

  /** Offline the messages are buffered, in order, and nothing else happens. */
  lemma {:induction false} OfflineBuffers(o: Outbox, pms: seq<Message>, accepts: Message -> bool)
    requires !o.connected
    ensures PublishedAll(o, pms, accepts) == o.(pending := o.pending + pms)
  {
    if pms == [] {
      assert o.pending + pms == o.pending;
    } else {
      var front, last := pms[..|pms| - 1], pms[|pms| - 1];
      OfflineBuffers(o, front, accepts);
      assert o.pending + front + [last] == o.pending + pms;
    }
  }

  /** What has been published offline is sent, in order, by the flush after a connect, when the
      broker takes it. */
  lemma OfflineThenFlushed(o: Outbox, pms: seq<Message>, accepts: Message -> bool)
    requires !o.connected && forall pm :: pm in o.pending + pms ==> accepts(pm)
    ensures var offline := PublishedAll(o, pms, accepts);
            var t := PublishedAll(offline.(connected := true, pending := []), offline.pending, accepts);
            t.sent == o.sent + (o.pending + pms) && t.pending == [] && t.failed == o.failed
  {
    OfflineBuffers(o, pms, accepts);
    WillingBrokerSends(o.(connected := true, pending := []), o.pending + pms, accepts);
  }

  /** A delivery that waits for a reply goes on waiting if and only if nothing with its id is
      sent: offline in any case. */
  lemma {:induction false} StillWaitsExactly(o: Outbox, pms: seq<Message>, accepts: Message -> bool, id: string)
    requires id != ""
    ensures var t := PublishedAll(o, pms, accepts);
            && t.connected == o.connected
            && (id in t.replies <==> id in o.replies && (o.connected ==> forall pm :: pm in pms ==> pm.correlationId == id ==> !accepts(pm)))
            && (id in t.replies ==> t.replies[id] == o.replies[id])
  {
    if pms != [] {
      var front, last := pms[..|pms| - 1], pms[|pms| - 1];
      StillWaitsExactly(o, front, accepts, id);
      assert forall pm :: pm in pms <==> pm in front || pm == last;
    }
  }

  /** Handling a delivery is remembering it and publishing what others publish up to the check,
      and behind that the response, to the address of the delivery, if there is one and nothing
      with the id has been sent by then. A delivery without an id or an address is not
      remembered, and not replied to. */
  lemma HandledExactly(o: Outbox, m: Delivery, meanwhile: seq<Message>, resp: Option<Message>, accepts: Message -> bool)
    ensures var t := Handled(o, m, meanwhile, resp, accepts);
            if m.correlationId == "" || m.replyTo == "" then t == PublishedAll(o, meanwhile, accepts)
            else
              var waiting := o.(replies := o.replies[m.correlationId := m]);
              var replies := resp.Some?
                             && (o.connected ==> forall pm :: pm in meanwhile && pm.correlationId == m.correlationId ==> !accepts(pm));
              t == PublishedAll(waiting,
                                meanwhile + if replies then [Message(resp.value.id, resp.value.correlationId, m.replyTo)] else [],
                                accepts)
  {
    if m.correlationId != "" && m.replyTo != "" {
      var waiting := o.(replies := o.replies[m.correlationId := m]);
      StillWaitsExactly(waiting, meanwhile, accepts, m.correlationId);
      if resp.Some? {
        var reply := Message(resp.value.id, resp.value.correlationId, m.replyTo);
        assert (meanwhile + [reply])[..|meanwhile|] == meanwhile;
      }
      assert meanwhile + [] == meanwhile;
    }
  }

  /** What one delivery sends while the client is connected and the broker takes everything: what
      others publish up to the check, and then the response, to the address of the delivery, if
      there is one and none of them carried the id. */
  lemma HandledSends(o: Outbox, m: Delivery, meanwhile: seq<Message>, resp: Option<Message>, accepts: Message -> bool)
    requires o.connected && m.correlationId != "" && m.replyTo != "" && forall pm :: accepts(pm)
    ensures var t := Handled(o, m, meanwhile, resp, accepts);
            && t.failed == o.failed && t.pending == o.pending
            && t.sent == o.sent + meanwhile
                         + if resp.Some? && (forall pm :: pm in meanwhile ==> pm.correlationId != m.correlationId)
                           then [Message(resp.value.id, resp.value.correlationId, m.replyTo)] else []
  {
    var waiting := o.(replies := o.replies[m.correlationId := m]);
    WillingBrokerSends(waiting, meanwhile, accepts);
    StillWaitsExactly(waiting, meanwhile, accepts, m.correlationId);
  }

  class PulsarMQ {
    var connected: bool
    var pendingPublishes: seq<Message>
    var pendingReplies: map<string, Delivery>
    ghost var sent: seq<Message>
    ghost var failed: seq<Message>

    ghost function State(): Outbox
      reads this
    {
      Outbox(connected, pendingPublishes, sent, failed, pendingReplies)
    }

    constructor ()
      ensures State() == Outbox(false, [], [], [], map[])
    {
      connected, pendingPublishes, pendingReplies := false, [], map[];
      sent, failed := [], [];
    }

    /** `accepted` stands for the broker: whether a producer could be had. */
    method Publish(pm: Message, accepted: bool) returns (ok: bool)
      modifies this
      ensures State() == Published(old(State()), pm, accepted)
      ensures ok <==> !old(connected) || accepted
    {
      if !connected {
        pendingPublishes := pendingPublishes + [pm];
        return true;
      }
      if !accepted {
        failed := failed + [pm];
        return false;
      }
      sent := sent + [pm];
      if "" != pm.correlationId {
        AnswerReplyNeededMessage(pm.correlationId);
      }
      ok := true;
    }

    /** Takes the buffer over and publishes it; uninterrupted and with a willing
        broker this sends the whole buffer in order. */
    method EnsurePendings(accepts: Message -> bool)
      modifies this
      ensures State() == PublishedAll(old(State()).(pending := []), old(pendingPublishes), accepts)
      ensures old(connected) && (forall pm :: pm in old(pendingPublishes) ==> accepts(pm)) ==>
                pendingPublishes == [] && sent == old(sent) + old(pendingPublishes) && failed == old(failed)
    {
      var publishes := pendingPublishes;
      pendingPublishes := [];
      var i := 0;
      while i < |publishes|
        invariant 0 <= i <= |publishes|
        invariant State() == PublishedAll(old(State()).(pending := []), publishes[..i], accepts)
      {
        assert publishes[..i + 1][..i] == publishes[..i];
        var _ := Publish(publishes[i], accepts(publishes[i]));
        i := i + 1;
      }
      assert publishes[..i] == publishes;
      if old(connected) && forall pm :: pm in publishes ==> accepts(pm) {
        WillingBrokerSends(old(State()).(pending := []), publishes, accepts);
      }
    }

    method SetReplyNeededMessage(m: Delivery)
      modifies `pendingReplies
      ensures pendingReplies == if m.correlationId != "" && m.replyTo != "" then old(pendingReplies)[m.correlationId := m] else old(pendingReplies)
    {
      if "" != m.correlationId && "" != m.replyTo {
        pendingReplies := pendingReplies[m.correlationId := m];
      }
    }

    method AnswerReplyNeededMessage(correlationId: string)
      modifies `pendingReplies
      ensures pendingReplies == if correlationId != "" then old(pendingReplies) - {correlationId} else old(pendingReplies)
    {
      if "" != correlationId && correlationId in pendingReplies {
        pendingReplies := pendingReplies - {correlationId};
      }
    }

    method IsReplyNeededMessageAnswered(correlationId: string) returns (answered: bool)
      ensures answered <==> correlationId == "" || correlationId !in pendingReplies
    {
      if "" == correlationId {
        return true;
      }
      answered := correlationId !in pendingReplies;
    }

    /** Runs the callback on a delivery. `meanwhile` are the messages, of whoever, that other
        goroutines publish between remembering the delivery and the check: what the callback
        itself hands to the channel `Publish` is among them only if the run loop gets to publish
        it by then. `resp` is the response, published unless one of them with the id was sent. */
    method HandleConsumeCallback(m: Delivery, meanwhile: seq<Message>, resp: Option<Message>, accepts: Message -> bool)
      returns (replied: bool)
      modifies this
      ensures State() == Handled(old(State()), m, meanwhile, resp, accepts)
      ensures replied <==>
                && m.correlationId != "" && m.replyTo != "" && resp.Some?
                && (old(connected) ==> forall pm :: pm in meanwhile ==> pm.correlationId == m.correlationId ==> !accepts(pm))
    {
      replied := false;
      if "" != m.correlationId && "" != m.replyTo {
        SetReplyNeededMessage(m);
        StillWaitsExactly(State(), meanwhile, accepts, m.correlationId);
        PublishMeanwhile(meanwhile, accepts);
        if resp.Some? {
          var answered := IsReplyNeededMessageAnswered(m.correlationId);
          if !answered {
            var reply := resp.value.(replyTo := m.replyTo);
            var _ := Publish(reply, accepts(reply));
            replied := true;
          }
        }
      } else {
        PublishMeanwhile(meanwhile, accepts);
      }
    }

    /** What the run loop publishes beside. */
    method PublishMeanwhile(meanwhile: seq<Message>, accepts: Message -> bool)
      modifies this
      ensures State() == PublishedAll(old(State()), meanwhile, accepts)
    {
      for i := 0 to |meanwhile|
        invariant State() == PublishedAll(old(State()), meanwhile[..i], accepts)
      {
        assert meanwhile[..i + 1][..i] == meanwhile[..i];
        var _ := Publish(meanwhile[i], accepts(meanwhile[i]));
      }
      assert meanwhile[..|meanwhile|] == meanwhile;
    }
  }

  // ---------------------------------------------------------------------------
  // RPC callbacks
  // ---------------------------------------------------------------------------

  /** What an RPC instance remembers of a query: who asked, and whether it still listens. */
  datatype Query = Query(asker: nat, enabled: bool)

  class RpcInstance {
    var topicName: string
    var rpcCallbacks: map<string, Query>

    constructor (topic: string)
      ensures topicName == topic && rpcCallbacks == map[]
    {
      topicName, rpcCallbacks := topic, map[];
    }

    /** Gives a query its correlation id and reply topic, and enters it into the
        callback table unless that id is taken; `uuid` is the generated id. */
    method EnsureRPCMessage(pm: Message, query: Query, uuid: string) returns (out: Message)
      requires uuid != ""
      modifies `rpcCallbacks
      ensures out.id == pm.id && out.replyTo == topicName
      ensures out.correlationId == if pm.correlationId == "" then uuid else pm.correlationId
      ensures rpcCallbacks == if out.correlationId in old(rpcCallbacks) then old(rpcCallbacks)
                              else old(rpcCallbacks)[out.correlationId := query]
    {
      out := pm.(replyTo := topicName);
      if "" == pm.correlationId {
        out := out.(correlationId := uuid);
      }
      if out.correlationId !in rpcCallbacks {
        rpcCallbacks := rpcCallbacks[out.correlationId := query];
      }
    }

    /** Finds the query of a response (who is handed the message while it listens)
        and forgets it. */
    method HandleRPCCallback(msg: Delivery) returns (receiver: Option<nat>)
      modifies `rpcCallbacks
      ensures rpcCallbacks == old(rpcCallbacks) - {msg.correlationId}
      ensures receiver == if msg.correlationId in old(rpcCallbacks) && old(rpcCallbacks)[msg.correlationId].enabled
                          then Some(old(rpcCallbacks)[msg.correlationId].asker) else None
    {
      receiver := None;
      if msg.correlationId in rpcCallbacks {
        if rpcCallbacks[msg.correlationId].enabled {
          receiver := Some(rpcCallbacks[msg.correlationId].asker);
        }
        rpcCallbacks := rpcCallbacks - {msg.correlationId};
      }
    }
  }
}
