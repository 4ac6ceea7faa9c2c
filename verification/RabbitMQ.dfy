/** Publishing and buffering of mq/rabbitmq/rabbitmq.go, one call at a time, and the runs of
    the run loop alone: it publishes, loses its connection and reconnects; declaring the queue
    flushes the buffer, and publishing declares the queue when that has not happened yet. The
    goroutine that handles deliveries beside it is in `RabbitProofs`. */
module RabbitMQs {
  import opened MqEnv
  import opened Options

  /** `conn` and `channel`: whether they are there; `queue`: the declared queue name,
      empty when there is none; `lost`: messages the broker or a missing queue refused. */
  datatype Rabbit = Rabbit(
    conn: bool,
    channel: bool,
    queue: string,
    pending: seq<Message>,
    replies: map<string, Delivery>,
    sent: seq<Message>,
    lost: seq<Message>)

  /** What the broker does during one call: the queue name it declares, if it agrees to,
      and which messages it takes. */
  datatype Broker = Broker(declared: Option<string>, accepts: Message -> bool)

  ghost predicate Named(b: Broker) {
    b.declared.Some? ==> b.declared.value != ""
  }

  // ---------------------------------------------------------------------------
  // Specification
  // ---------------------------------------------------------------------------

  /** Handing a message to the channel answers its delivery, taken or not. */
  function Emit(r: Rabbit, pm: Message, accepts: Message -> bool): Rabbit {
    var replies := if pm.correlationId != "" then r.replies - {pm.correlationId} else r.replies;
    if accepts(pm) then r.(sent := r.sent + [pm], replies := replies)
    else r.(lost := r.lost + [pm], replies := replies)
  }

  function EmitAll(r: Rabbit, pms: seq<Message>, accepts: Message -> bool): Rabbit {
    if pms == [] then r else Emit(EmitAll(r, pms[..|pms| - 1], accepts), pms[|pms| - 1], accepts)
  }

  function Closed(r: Rabbit): Rabbit {
    r.(conn := false, channel := false)
  }

  /** Declares the queue and flushes the buffer; a refusal closes the connection. */
  function Declared(r: Rabbit, b: Broker): Rabbit {
    if !r.conn then r
    else if b.declared.None? then Closed(r)
    else EmitAll(r.(queue := b.declared.value, pending := []), r.pending, b.accepts)
  }

  function Published(r: Rabbit, broadcast: bool, pm: Message, b: Broker): Rabbit {
    if !r.channel then r.(pending := r.pending + [pm])
    else if r.queue == "" && !broadcast then
      if !r.conn || b.declared.None? then var d := Declared(r, b); d.(lost := d.lost + [pm])
      else Emit(Declared(r, b), pm, b.accepts)
    else Emit(r, pm, b.accepts)
  }

  function PublishedAll(r: Rabbit, broadcast: bool, pms: seq<Message>, b: Broker): Rabbit {
    if pms == [] then r
    else Published(PublishedAll(r, broadcast, pms[..|pms| - 1], b), broadcast, pms[|pms| - 1], b)
  }

  /** A delivery whose callback returns `resp`, while the run loop publishes `meanwhile` up to
      the check: the response goes out if the delivery still waits for a reply then. */
  function Handled(r: Rabbit, broadcast: bool, m: Delivery, meanwhile: seq<Message>, resp: Option<Message>, b: Broker): Rabbit {
    if !NeedsReply(m) then PublishedAll(r, broadcast, meanwhile, b)
    else
      var t := PublishedAll(r.(replies := r.replies[m.correlationId := m]), broadcast, meanwhile, b);
      if resp.Some? && m.correlationId in t.replies
      then Published(t, broadcast, resp.value.(replyTo := m.replyTo), b) else t
  }

  lemma {:induction false} EmitAllKeeps(r: Rabbit, pms: seq<Message>, accepts: Message -> bool)
    ensures var t := EmitAll(r, pms, accepts);
            t.conn == r.conn && t.channel == r.channel && t.queue == r.queue && t.pending == r.pending
  {
    if pms != [] {
      EmitAllKeeps(r, pms[..|pms| - 1], accepts);
    }
  }

  lemma {:induction false} EmitAllConserves(r: Rabbit, pms: seq<Message>, accepts: Message -> bool)
    ensures var t := EmitAll(r, pms, accepts);
            multiset(t.sent) + multiset(t.lost) == multiset(r.sent) + multiset(r.lost) + multiset(pms)
  {
    if pms != [] {
      var front, last := pms[..|pms| - 1], pms[|pms| - 1];
      EmitAllConserves(r, front, accepts);
      assert pms == front + [last];
      EmitConserves(EmitAll(r, front, accepts), last, accepts);
    }
  }

  lemma EmitConserves(r: Rabbit, pm: Message, accepts: Message -> bool)
    ensures var t := Emit(r, pm, accepts);
            multiset(t.sent) + multiset(t.lost) == multiset(r.sent) + multiset(r.lost) + multiset{pm}
  {
  }

  /** If nothing is lost, everything was sent, in order. */
  lemma {:induction false} EmitAllInOrder(r: Rabbit, pms: seq<Message>, accepts: Message -> bool)
    ensures var t := EmitAll(r, pms, accepts); t.lost == [] ==> t.sent == r.sent + pms && r.lost == []
  {
    if pms != [] {
      EmitAllInOrder(r, pms[..|pms| - 1], accepts);
      assert pms == pms[..|pms| - 1] + [pms[|pms| - 1]];
    }
  }

  // ---------------------------------------------------------------------------
  // The client
  // ---------------------------------------------------------------------------

  class RabbitMQ {
    const broadcast: bool
    var conn: bool
    var channel: bool
    var queueName: string
    var pendingPublishes: seq<Message>
    var pendingReplies: map<string, Delivery>
    ghost var sent: seq<Message>
    ghost var lost: seq<Message>

    ghost function State(): Rabbit
      reads this
    {
      Rabbit(conn, channel, queueName, pendingPublishes, pendingReplies, sent, lost)
    }

    constructor (isBroadcast: bool)
      ensures broadcast == isBroadcast && State() == Rabbit(false, false, "", [], map[], [], [])
    {
      broadcast, conn, channel, queueName := isBroadcast, false, false, "";
      pendingPublishes, pendingReplies := [], map[];
      sent, lost := [], [];
    }

    method Publish(pm: Message, b: Broker) returns (ok: bool)
      requires Named(b)
      modifies this
      ensures State() == Published(old(State()), broadcast, pm, b)
      decreases if queueName == "" then 2 else 0, 0
    {
      if !channel {
        pendingPublishes := pendingPublishes + [pm];
        return true;
      }
      if queueName == "" && !broadcast {
        var declared := EnsureQueue(b);
        if !declared {
          lost := lost + [pm];
          return false;
        }
      }
      ok := b.accepts(pm);
      if ok {
        sent := sent + [pm];
      } else {
        lost := lost + [pm];
      }
      if "" != pm.correlationId {
        AnswerReplyNeededMessage(pm.correlationId);
      }
    }

    method EnsureQueue(b: Broker) returns (ok: bool)
      requires Named(b) && channel
      modifies this
      ensures State() == Declared(old(State()), b) && (ok <==> old(conn) && b.declared.Some?)
      decreases 1
    {
      if !conn {
        return false;
      }
      if b.declared.None? {
        Close();
        return false;
      }
      queueName := b.declared.value;
      EnsurePendings(b);
      ok := true;
    }

    method EnsurePendings(b: Broker)
      requires Named(b) && channel && queueName != ""
      modifies this
      ensures State() == EmitAll(old(State()).(pending := []), old(pendingPublishes), b.accepts)
      decreases 0, 1
    {
      if |pendingPublishes| > 0 {
        var publishes := pendingPublishes;
        pendingPublishes := [];
        var i := 0;
        while i < |publishes|
          invariant 0 <= i <= |publishes|
          invariant channel && queueName == old(queueName)
          invariant State() == EmitAll(old(State()).(pending := []), publishes[..i], b.accepts)
        {
          assert publishes[..i + 1][..i] == publishes[..i];
          var _ := Publish(publishes[i], b);
          i := i + 1;
        }
        assert publishes[..i] == publishes;
      }
    }

    method Close()
      modifies this
      ensures State() == Closed(old(State()))
    {
      conn, channel := false, false;
    }

    method SetReplyNeededMessage(m: Delivery)
      modifies `pendingReplies
      ensures pendingReplies == if m.correlationId != "" && m.replyTo != "" then old(pendingReplies)[m.correlationId := m] else old(pendingReplies)
    {
      if "" != m.correlationId && "" != m.replyTo {
        pendingReplies := pendingReplies[m.correlationId := m];
      }
    }

    method IsReplyNeededMessageAnswered(correlationId: string) returns (answered: bool)
      ensures answered <==> correlationId == "" || correlationId !in pendingReplies
    {
      if "" == correlationId {
        return true;
      }
      answered := correlationId !in pendingReplies;
    }

    /** `meanwhile` are the messages, of whoever, that the run loop publishes between remembering
        the delivery and the check. What the callback itself puts into the channel `Publish` is
        among them only if it has left the channel by then. */
    method HandleConsumeCallback(m: Delivery, meanwhile: seq<Message>, resp: Option<Message>, b: Broker)
      requires Named(b)
      modifies this
      ensures State() == Handled(old(State()), broadcast, m, meanwhile, resp, b)
    {
      if "" != m.correlationId && "" != m.replyTo {
        SetReplyNeededMessage(m);
        PublishMeanwhile(meanwhile, b);
        if resp.Some? {
          var answered := IsReplyNeededMessageAnswered(m.correlationId);
          if !answered {
            var _ := Publish(resp.value.(replyTo := m.replyTo), b);
          }
        }
      } else {
        PublishMeanwhile(meanwhile, b);
      }
    }

    /** What the run loop publishes beside. */
    method PublishMeanwhile(meanwhile: seq<Message>, b: Broker)
      requires Named(b)
      modifies this
      ensures State() == PublishedAll(old(State()), broadcast, meanwhile, b)
    {
      for i := 0 to |meanwhile|
        invariant State() == PublishedAll(old(State()), broadcast, meanwhile[..i], b)
      {
        assert meanwhile[..i + 1][..i] == meanwhile[..i];
        var _ := Publish(meanwhile[i], b);
      }
      assert meanwhile[..|meanwhile|] == meanwhile;
    }

    method AnswerReplyNeededMessage(correlationId: string)
      modifies `pendingReplies
      ensures pendingReplies == if correlationId != "" then old(pendingReplies) - {correlationId} else old(pendingReplies)
    {
      if "" != correlationId && correlationId in pendingReplies {
        pendingReplies := pendingReplies - {correlationId};
      }
    }
  }

  // ---------------------------------------------------------------------------
  // The automatic reply
  // ---------------------------------------------------------------------------

  /** Deliveries arrive on an open channel with a declared queue. */
  predicate Open(r: Rabbit, broadcast: bool) {
    r.channel && (r.queue != "" || broadcast)
  }

  function Accepted(pms: seq<Message>, accepts: Message -> bool): seq<Message> {
    if pms == [] then []
    else Accepted(pms[..|pms| - 1], accepts) + if accepts(pms[|pms| - 1]) then [pms[|pms| - 1]] else []
  }

  /** On an open channel a delivery waits on exactly until something with its id is published,
      taken by the broker or not, and exactly what the broker takes is sent. */
  lemma {:induction false} WaitsUntilPublished(r: Rabbit, broadcast: bool, pms: seq<Message>, b: Broker, id: string)
    requires Open(r, broadcast) && id != ""
    ensures var t := PublishedAll(r, broadcast, pms, b);
            && Open(t, broadcast) && t.sent == r.sent + Accepted(pms, b.accepts)
            && (id in t.replies <==> id in r.replies && forall pm :: pm in pms ==> pm.correlationId != id)
  {
    if pms != [] {
      var front, last := pms[..|pms| - 1], pms[|pms| - 1];
      WaitsUntilPublished(r, broadcast, front, b, id);
      assert pms == front + [last];
    }
  }

  ghost predicate Has(pms: seq<Message>, id: string) {
    exists pm :: pm in pms && pm.correlationId == id
  }

  ghost predicate HasAccepted(pms: seq<Message>, accepts: Message -> bool, id: string) {
    exists pm :: pm in pms && accepts(pm) && pm.correlationId == id
  }

  lemma {:induction false} AcceptedHas(pms: seq<Message>, accepts: Message -> bool, id: string)
    ensures Has(Accepted(pms, accepts), id) <==> HasAccepted(pms, accepts, id)
  {
    if pms != [] {
      var front, last := pms[..|pms| - 1], pms[|pms| - 1];
      AcceptedHas(front, accepts, id);
      assert pms == front + [last];
      if accepts(last) {
        assert Accepted(pms, accepts)[|Accepted(front, accepts)|] == last;
      }
      assert forall pm :: pm in Accepted(pms, accepts) <==> pm in Accepted(front, accepts) || (pm == last && accepts(last));
    }
  }

  /** What one delivery sends, with `late` published after it was handled: the automatic reply
      is published if and only if there is a response and nothing published up to the check
      carries the id. */
  lemma HandledSends(r: Rabbit, broadcast: bool, m: Delivery, meanwhile: seq<Message>, resp: Option<Message>,
                     late: seq<Message>, b: Broker)
    requires Open(r, broadcast) && NeedsReply(m)
    ensures PublishedAll(Handled(r, broadcast, m, meanwhile, resp, b), broadcast, late, b).sent
            == r.sent + Accepted(meanwhile, b.accepts)
               + (if resp.Some? && !Has(meanwhile, m.correlationId) && b.accepts(resp.value.(replyTo := m.replyTo))
                  then [resp.value.(replyTo := m.replyTo)] else [])
               + Accepted(late, b.accepts)
  {
    WaitsUntilPublished(r.(replies := r.replies[m.correlationId := m]), broadcast, meanwhile, b, m.correlationId);
    var t := Handled(r, broadcast, m, meanwhile, resp, b);
    assert Open(t, broadcast);
    WaitsUntilPublished(t, broadcast, late, b, m.correlationId);
  }

  lemma {:induction false} BuffersWithoutChannel(r: Rabbit, broadcast: bool, pms: seq<Message>, b: Broker)
    requires !r.channel
    ensures PublishedAll(r, broadcast, pms, b) == r.(pending := r.pending + pms)
  {
    if pms == [] {
      assert r.pending + pms == r.pending;
    } else {
      var front, last := pms[..|pms| - 1], pms[|pms| - 1];
      BuffersWithoutChannel(r, broadcast, front, b);
      assert r.pending + front + [last] == r.pending + pms;
    }
  }

  /** Without a channel, what is published while a delivery is handled waits in the buffer, and
      so does the response behind it, to the address of the delivery. Whether there is a channel
      or not, a delivery without an id or an address is not replied to. */
  lemma HandledBuffers(r: Rabbit, broadcast: bool, m: Delivery, meanwhile: seq<Message>, resp: Option<Message>, b: Broker)
    ensures var t := Handled(r, broadcast, m, meanwhile, resp, b);
            if m.correlationId == "" || m.replyTo == "" then t == PublishedAll(r, broadcast, meanwhile, b)
            else
              !r.channel ==>
                t == r.(replies := r.replies[m.correlationId := m],
                        pending := r.pending + meanwhile
                                   + if resp.Some? then [Message(resp.value.id, resp.value.correlationId, m.replyTo)] else [])
  {
    if m.correlationId != "" && m.replyTo != "" && !r.channel {
      BuffersWithoutChannel(r.(replies := r.replies[m.correlationId := m]), broadcast, meanwhile, b);
      assert r.pending + meanwhile + [] == r.pending + meanwhile;
    }
  }

  /** The delivery is answered: something with its id has been sent since it arrived. */
  ghost predicate Answered(before: Rabbit, after: Rabbit, id: string)
    requires |before.sent| <= |after.sent|
  {
    Has(after.sent[|before.sent|..], id)
  }

  /** A delivery is answered if and only if the broker took some message with its id that was
      published besides, or there was a response, nothing with the id was published up to the
      check, and the broker took the response, under that id. */
  lemma DeliveryAnsweredExactly(r: Rabbit, broadcast: bool, m: Delivery, meanwhile: seq<Message>, resp: Option<Message>,
                                late: seq<Message>, b: Broker)
    requires Open(r, broadcast) && NeedsReply(m)
    ensures var t := PublishedAll(Handled(r, broadcast, m, meanwhile, resp, b), broadcast, late, b);
            && |r.sent| <= |t.sent|
            && (Answered(r, t, m.correlationId) <==>
                  || HasAccepted(meanwhile, b.accepts, m.correlationId)
                  || HasAccepted(late, b.accepts, m.correlationId)
                  || (resp.Some? && !Has(meanwhile, m.correlationId) && b.accepts(resp.value.(replyTo := m.replyTo))
                      && resp.value.correlationId == m.correlationId))
  {
    HandledSends(r, broadcast, m, meanwhile, resp, late, b);
    var t := PublishedAll(Handled(r, broadcast, m, meanwhile, resp, b), broadcast, late, b);
    var first, last := Accepted(meanwhile, b.accepts), Accepted(late, b.accepts);
    var replied := resp.Some? && !Has(meanwhile, m.correlationId) && b.accepts(resp.value.(replyTo := m.replyTo));
    var middle := if replied then [resp.value.(replyTo := m.replyTo)] else [];
    assert t.sent[|r.sent|..] == first + middle + last;
    AcceptedHas(meanwhile, b.accepts, m.correlationId);
    AcceptedHas(late, b.accepts, m.correlationId);
    HasParts(first, middle, last, m.correlationId);
    assert Has(middle, m.correlationId) <==> replied && middle[0].correlationId == m.correlationId;
  }

  lemma HasParts(a: seq<Message>, b: seq<Message>, c: seq<Message>, id: string)
    ensures Has(a + b + c, id) <==> Has(a, id) || Has(b, id) || Has(c, id)
  {
    assert forall pm :: pm in a + b + c <==> pm in a || pm in b || pm in c;
  }

  /** A message with the id that is published before the check and refused suppresses the
      automatic reply, so if the broker takes no other message with the id nothing answers. */
  lemma RefusedReplySilences(r: Rabbit, broadcast: bool, m: Delivery, meanwhile: seq<Message>, resp: Option<Message>,
                             late: seq<Message>, b: Broker)
    requires Open(r, broadcast) && NeedsReply(m) && Has(meanwhile, m.correlationId)
    requires !HasAccepted(meanwhile, b.accepts, m.correlationId) && !HasAccepted(late, b.accepts, m.correlationId)
    ensures var t := PublishedAll(Handled(r, broadcast, m, meanwhile, resp, b), broadcast, late, b);
            |r.sent| <= |t.sent| && !Answered(r, t, m.correlationId)
  {
    DeliveryAnsweredExactly(r, broadcast, m, meanwhile, resp, late, b);
  }

  // ---------------------------------------------------------------------------
  // Runs of the run loop
  // ---------------------------------------------------------------------------

  datatype Event =
    | Send(pm: Message, b: Broker)
    | Dropped                       // the connection or channel reports that it was closed
    | Reset                         // the loop closes a connection that looks dead
    | FoundClosed                   // the ticker finds the connection closed
    | Reconnected(b: Broker, declare: bool)
    | Consumed(b: Broker)           // a consumer is added, which declares the queue if there is none

  /** Only a broadcast client may reconnect without declaring a queue. */
  ghost predicate Allowed(broadcast: bool, e: Event) {
    match e
    case Send(_, b) => Named(b)
    case Reconnected(b, declare) => Named(b) && (!broadcast ==> declare)
    case Consumed(b) => Named(b)
    case _ => true
  }

  function React(r: Rabbit, broadcast: bool, e: Event): Rabbit {
    match e
    case Send(pm, b) => Published(r, broadcast, pm, b)
    case Dropped => Closed(r).(queue := "")
    case Reset => Closed(r)
    case FoundClosed => r.(conn := false, queue := "")
    case Reconnected(b, declare) =>
      var up := r.(conn := true, channel := true);
      if declare then Declared(up, b) else up
    case Consumed(b) => if r.channel && r.queue == "" then Declared(r, b) else r
  }

  const FRESH := Rabbit(false, false, "", [], map[], [], [])

  function ReactAll(broadcast: bool, events: seq<Event>): Rabbit {
    if events == [] then FRESH else React(ReactAll(broadcast, events[..|events| - 1]), broadcast, events[|events| - 1])
  }

  function Submitted(events: seq<Event>): seq<Message> {
    if events == [] then []
    else Submitted(events[..|events| - 1]) + if events[|events| - 1].Send? then [events[|events| - 1].pm] else []
  }

  function All(r: Rabbit): multiset<Message> {
    multiset(r.sent) + multiset(r.lost) + multiset(r.pending)
  }

  lemma DeclaredConserves(r: Rabbit, b: Broker)
    ensures All(Declared(r, b)) == All(r)
  {
    if r.conn && b.declared.Some? {
      EmitAllConserves(r.(queue := b.declared.value, pending := []), r.pending, b.accepts);
      EmitAllKeeps(r.(queue := b.declared.value, pending := []), r.pending, b.accepts);
    }
  }

  lemma OneMoreConserves(r: Rabbit, pm: Message, accepts: Message -> bool)
    ensures All(Emit(r, pm, accepts)) == All(r) + multiset{pm}
    ensures All(r.(lost := r.lost + [pm])) == All(r) + multiset{pm}
    ensures All(r.(pending := r.pending + [pm])) == All(r) + multiset{pm}
  {
    EmitConserves(r, pm, accepts);
  }

  lemma PublishedConserves(r: Rabbit, broadcast: bool, pm: Message, b: Broker)
    ensures All(Published(r, broadcast, pm, b)) == All(r) + multiset{pm}
  {
    if r.channel && r.queue == "" && !broadcast {
      DeclaredConserves(r, b);
      OneMoreConserves(Declared(r, b), pm, b.accepts);
    } else {
      OneMoreConserves(r, pm, b.accepts);
    }
  }

  /** Every message submitted over any run is sent, buffered or refused, exactly once. */
  lemma {:induction false} MessagesConserved(broadcast: bool, events: seq<Event>)
    ensures var r := ReactAll(broadcast, events);
            multiset(Submitted(events)) == multiset(r.sent) + multiset(r.lost) + multiset(r.pending)
  {
    if events != [] {
      var front, e := events[..|events| - 1], events[|events| - 1];
      MessagesConserved(broadcast, front);
      var r := ReactAll(broadcast, front);
      match e
      case Send(pm, b) => PublishedConserves(r, broadcast, pm, b);
      case Reconnected(b, declare) => DeclaredConserves(r.(conn := true, channel := true), b);
      case Consumed(b) => DeclaredConserves(r, b);
      case _ =>
    }
  }

  // ---------------------------------------------------------------------------
  // Order
  // ---------------------------------------------------------------------------

  /** A message meets an open channel while others wait in the buffer, and does not flush it. */
  predicate Overtakes(r: Rabbit, broadcast: bool, e: Event) {
    e.Send? && r.pending != [] && Open(r, broadcast)
  }

  ghost predicate InOrder(r: Rabbit, submitted: seq<Message>) {
    r.lost == [] ==> r.sent + r.pending == submitted
  }

  lemma DeclaredInOrder(r: Rabbit, b: Broker, submitted: seq<Message>)
    requires InOrder(r, submitted)
    ensures InOrder(Declared(r, b), submitted)
    ensures Declared(r, b).lost == [] && r.conn && b.declared.Some? ==> Declared(r, b).pending == []
  {
    if r.conn && b.declared.Some? {
      EmitAllKeeps(r.(queue := b.declared.value, pending := []), r.pending, b.accepts);
      EmitAllInOrder(r.(queue := b.declared.value, pending := []), r.pending, b.accepts);
    }
  }

  lemma PublishedInOrder(r: Rabbit, broadcast: bool, pm: Message, b: Broker, submitted: seq<Message>)
    requires InOrder(r, submitted) && (r.pending != [] ==> !Open(r, broadcast))
    ensures InOrder(Published(r, broadcast, pm, b), submitted + [pm])
  {
    DeclaredInOrder(r, b, submitted);
    if !r.channel {
      assert r.sent + (r.pending + [pm]) == r.sent + r.pending + [pm];
    }
  }

  lemma ReactInOrder(r: Rabbit, broadcast: bool, e: Event, submitted: seq<Message>)
    requires InOrder(r, submitted) && !Overtakes(r, broadcast, e)
    ensures InOrder(React(r, broadcast, e), submitted + if e.Send? then [e.pm] else [])
  {
    match e
    case Send(pm, b) => PublishedInOrder(r, broadcast, pm, b, submitted);
    case Reconnected(b, _) => DeclaredInOrder(r.(conn := true, channel := true), b, submitted);
    case Consumed(b) => DeclaredInOrder(r, b, submitted);
    case _ =>
  }

  lemma {:induction false} OrderKept(broadcast: bool, events: seq<Event>)
    requires forall k :: 0 <= k < |events| ==> !Overtakes(ReactAll(broadcast, events[..k]), broadcast, events[k])
    ensures InOrder(ReactAll(broadcast, events), Submitted(events))
  {
    if events != [] {
      var front := events[..|events| - 1];
      forall k | 0 <= k < |front| ensures !Overtakes(ReactAll(broadcast, front[..k]), broadcast, front[k]) {
        assert front[..k] == events[..k] && front[k] == events[k];
      }
      OrderKept(broadcast, front);
      ReactInOrder(ReactAll(broadcast, front), broadcast, events[|events| - 1], Submitted(front));
    }
  }

  /** What is sent, and what is lost, stays so. */
  lemma {:induction false} EmitAllGrows(r: Rabbit, pms: seq<Message>, accepts: Message -> bool)
    ensures r.sent <= EmitAll(r, pms, accepts).sent && r.lost <= EmitAll(r, pms, accepts).lost
  {
    if pms != [] {
      EmitAllGrows(r, pms[..|pms| - 1], accepts);
    }
  }

  lemma DeclaredGrows(r: Rabbit, b: Broker)
    ensures r.sent <= Declared(r, b).sent && r.lost <= Declared(r, b).lost
  {
    if r.conn && b.declared.Some? {
      EmitAllGrows(r.(queue := b.declared.value, pending := []), r.pending, b.accepts);
    }
  }

  lemma ReactGrows(r: Rabbit, broadcast: bool, e: Event)
    ensures r.sent <= React(r, broadcast, e).sent && r.lost <= React(r, broadcast, e).lost
  {
    match e
    case Send(pm, b) => DeclaredGrows(r, b);
    case Reconnected(b, _) => DeclaredGrows(r.(conn := true, channel := true), b);
    case Consumed(b) => DeclaredGrows(r, b);
    case _ =>
  }

  lemma {:induction false} RunGrows(broadcast: bool, events: seq<Event>, k: nat)
    requires k <= |events|
    ensures ReactAll(broadcast, events[..k]).sent <= ReactAll(broadcast, events).sent
    ensures ReactAll(broadcast, events[..k]).lost <= ReactAll(broadcast, events).lost
    ensures Submitted(events[..k]) <= Submitted(events)
  {
    if k == |events| {
      assert events[..k] == events;
    } else {
      var front := events[..|events| - 1];
      RunGrows(broadcast, front, k);
      assert front[..k] == events[..k];
      ReactGrows(ReactAll(broadcast, front), broadcast, events[|events| - 1]);
    }
  }

  ghost predicate Distinct(pms: seq<Message>) {
    forall i, j :: 0 <= i < j < |pms| ==> pms[i] != pms[j]
  }

  /** With nothing lost, an overtaking message stands in front of what it overtook for good. */
  lemma OvertakingBreaksOrder(broadcast: bool, events: seq<Event>, k: nat)
    requires k < |events| && Overtakes(ReactAll(broadcast, events[..k]), broadcast, events[k])
    requires ReactAll(broadcast, events).lost == [] && Distinct(Submitted(events))
    ensures ReactAll(broadcast, events).sent + ReactAll(broadcast, events).pending != Submitted(events)
  {
    var r, t, pm := ReactAll(broadcast, events[..k]), ReactAll(broadcast, events[..k + 1]), events[k].pm;
    assert events[..k + 1][..k] == events[..k];
    RunGrows(broadcast, events, k);
    RunGrows(broadcast, events, k + 1);
    assert t.sent == r.sent + [pm];
    assert Submitted(events[..k + 1]) == Submitted(events[..k]) + [pm];
    MessagesConserved(broadcast, events[..k]);
    var n, final := |r.sent|, ReactAll(broadcast, events);
    assert |multiset(Submitted(events[..k]))| == n + |r.pending|;
    assert (final.sent + final.pending)[n] == final.sent[n] == t.sent[n] == pm;
    assert Submitted(events)[n + |r.pending|] == pm;
  }

  /** The order is kept exactly when nothing overtakes: for a broadcast client and any other,
      with nothing lost and distinct messages, what was sent followed by what is buffered is
      what was submitted if and only if no message ever met an open channel with a buffer that
      it did not flush. */
  lemma OrderKeptExactly(broadcast: bool, events: seq<Event>)
    requires ReactAll(broadcast, events).lost == [] && Distinct(Submitted(events))
    ensures ReactAll(broadcast, events).sent + ReactAll(broadcast, events).pending == Submitted(events) <==>
              forall k :: 0 <= k < |events| ==> !Overtakes(ReactAll(broadcast, events[..k]), broadcast, events[k])
  {
    if k :| 0 <= k < |events| && Overtakes(ReactAll(broadcast, events[..k]), broadcast, events[k]) {
      OvertakingBreaksOrder(broadcast, events, k);
    } else {
      OrderKept(broadcast, events);
    }
  }

  /** A client that declares its queue whenever it reconnects, as all but broadcast clients
      without consumers do, buffers nothing while its channel is open. */
  ghost predicate Flushed(r: Rabbit) {
    r.lost == [] && r.channel ==> r.pending == []
  }

  ghost predicate Declares(e: Event) {
    e.Reconnected? ==> e.declare
  }

  lemma ReactFlushes(r: Rabbit, broadcast: bool, e: Event)
    requires Flushed(r) && Allowed(broadcast, e) && Declares(e)
    ensures Flushed(React(r, broadcast, e))
  {
    ReactGrows(r, broadcast, e);
    match e
    case Send(pm, b) => DeclaredInOrder(r, b, r.sent + r.pending);
    case Reconnected(b, _) =>
      var up := r.(conn := true, channel := true);
      DeclaredInOrder(up, b, r.sent + r.pending);
    case Consumed(b) => DeclaredInOrder(r, b, r.sent + r.pending);
    case _ =>
  }

  lemma {:induction false} RunFlushes(broadcast: bool, events: seq<Event>)
    requires forall i :: 0 <= i < |events| ==> Allowed(broadcast, events[i]) && Declares(events[i])
    ensures Flushed(ReactAll(broadcast, events))
  {
    if events != [] {
      RunFlushes(broadcast, events[..|events| - 1]);
      ReactFlushes(ReactAll(broadcast, events[..|events| - 1]), broadcast, events[|events| - 1]);
    }
  }

  /** A client that declares its queue whenever it reconnects keeps the order, broadcast or
      not, as long as nothing is refused. */
  lemma SentInSubmissionOrder(broadcast: bool, events: seq<Event>)
    requires forall i :: 0 <= i < |events| ==> Allowed(broadcast, events[i]) && Declares(events[i])
    requires ReactAll(broadcast, events).lost == []
    ensures ReactAll(broadcast, events).sent + ReactAll(broadcast, events).pending == Submitted(events)
  {
    forall k | 0 <= k < |events| ensures !Overtakes(ReactAll(broadcast, events[..k]), broadcast, events[k]) {
      NothingToOvertake(broadcast, events, k);
    }
    OrderKept(broadcast, events);
  }

  lemma NothingToOvertake(broadcast: bool, events: seq<Event>, k: nat)
    requires forall i :: 0 <= i < |events| ==> Allowed(broadcast, events[i]) && Declares(events[i])
    requires ReactAll(broadcast, events).lost == [] && k < |events|
    ensures !Overtakes(ReactAll(broadcast, events[..k]), broadcast, events[k])
  {
    RunGrows(broadcast, events, k);
    RunFlushes(broadcast, events[..k]);
  }

  // ---------------------------------------------------------------------------
  // What is lost
  // ---------------------------------------------------------------------------

  lemma {:induction false} EmitAllLoses(r: Rabbit, pms: seq<Message>, accepts: Message -> bool)
    ensures EmitAll(r, pms, accepts).lost == r.lost <==> forall i :: 0 <= i < |pms| ==> accepts(pms[i])
    ensures r.lost <= EmitAll(r, pms, accepts).lost
  {
    if pms != [] {
      EmitAllLoses(r, pms[..|pms| - 1], accepts);
      EmitAllGrows(r, pms[..|pms| - 1], accepts);
    }
  }

  function Taken(pms: seq<Message>, accepts: Message -> bool, taken: bool): seq<Message> {
    if pms == [] then []
    else Taken(pms[..|pms| - 1], accepts, taken) + if accepts(pms[|pms| - 1]) == taken then [pms[|pms| - 1]] else []
  }

  lemma {:induction false} EmitAllExactly(r: Rabbit, pms: seq<Message>, accepts: Message -> bool, id: string)
    ensures var t := EmitAll(r, pms, accepts);
            && t.sent == r.sent + Taken(pms, accepts, true) && t.lost == r.lost + Taken(pms, accepts, false)
            && (id in t.replies <==> id in r.replies && (id == "" || forall pm :: pm in pms ==> pm.correlationId != id))
            && t.conn == r.conn && t.channel == r.channel && t.queue == r.queue && t.pending == r.pending
  {
    if pms != [] {
      var front, last := pms[..|pms| - 1], pms[|pms| - 1];
      EmitAllExactly(r, front, accepts, id);
      assert forall pm :: pm in pms <==> pm in front || pm == last;
    }
  }

  /** What a publish does: without a channel it buffers; with one, and a queue or a broadcast
      exchange, it hands the message over; else it declares the queue first and flushes, or loses
      the message when that fails. Whatever has been handed over answers, taken or not. */
  lemma PublishExactly(r: Rabbit, broadcast: bool, pm: Message, b: Broker, id: string)
    ensures var t := Published(r, broadcast, pm, b);
            if !r.channel then t == r.(pending := r.pending + [pm])
            else if r.queue == "" && !broadcast && !r.conn then t == r.(lost := r.lost + [pm])
            else if r.queue == "" && !broadcast && b.declared.None? then
              t == r.(conn := false, channel := false, lost := r.lost + [pm])
            else
              var first := if r.queue == "" && !broadcast then r.pending else [];
              && t.sent == r.sent + Taken(first + [pm], b.accepts, true)
              && t.lost == r.lost + Taken(first + [pm], b.accepts, false)
              && t.pending == r.pending[|first|..] && t.conn == r.conn && t.channel
              && t.queue == (if r.queue == "" && !broadcast then b.declared.value else r.queue)
              && (id in t.replies <==> id in r.replies && (id == "" || forall p :: p in first + [pm] ==> p.correlationId != id))
  {
    var first := if r.queue == "" && !broadcast then r.pending else [];
    assert (first + [pm])[..|first|] == first;
    if r.channel && r.queue == "" && !broadcast && r.conn && b.declared.Some? {
      EmitAllExactly(r.(queue := b.declared.value, pending := []), r.pending, b.accepts, id);
    }
  }

  /** What becomes of a message that is published when the connection is gone. It waits in the
      buffer, whether the loss was reported or the loop closed the connection itself. Only a
      client whose ticker has found the connection closed still has its channel: it hands the
      message over if it is a broadcast client, and loses it otherwise. */
  lemma ClosedThenPublished(r: Rabbit, broadcast: bool, pm: Message, b: Broker)
    ensures Published(React(r, broadcast, Dropped), broadcast, pm, b)
            == r.(conn := false, channel := false, queue := "", pending := r.pending + [pm])
    ensures Published(React(r, broadcast, Reset), broadcast, pm, b)
            == r.(conn := false, channel := false, pending := r.pending + [pm])
    ensures var t := Published(React(r, broadcast, FoundClosed), broadcast, pm, b);
            && t.conn == false && t.queue == "" && t.channel == r.channel
            && t.pending == r.pending + (if r.channel then [] else [pm])
            && t.sent == r.sent + (if r.channel && broadcast && b.accepts(pm) then [pm] else [])
            && t.lost == r.lost + if r.channel && !(broadcast && b.accepts(pm)) then [pm] else []
  {
  }

  /** A broadcast client that reconnects without consumers flushes when one is added if and only
      if its queue name had been cleared, as it is when a loss is reported, but not when the loop
      closes the connection itself. */
  lemma ConsumerFlushes(r: Rabbit, b: Broker)
    requires b.declared.Some?
    ensures var t := React(React(r, true, Reconnected(b, false)), true, Consumed(b));
            if r.queue == "" then
              && t.pending == [] && t.queue == b.declared.value
              && t.sent == r.sent + Taken(r.pending, b.accepts, true) && t.lost == r.lost + Taken(r.pending, b.accepts, false)
            else t == r.(conn := true, channel := true)
  {
    EmitAllExactly(r.(conn := true, channel := true, queue := b.declared.value, pending := []), r.pending, b.accepts, "");
  }

  /** A publish declares the queue first. */
  predicate DeclaresFirst(r: Rabbit, broadcast: bool) {
    r.channel && r.queue == "" && !broadcast
  }

  /** Nothing is lost by a publish, neither the message nor what it flushes, if and only if the
      channel is closed, or the broker takes the message and, where the queue has to be
      declared first, the queue can be and the broker takes the whole buffer. */
  lemma PublishLosesNothingExactly(r: Rabbit, broadcast: bool, pm: Message, b: Broker)
    ensures Published(r, broadcast, pm, b).lost == r.lost <==>
              || !r.channel
              || (b.accepts(pm) && (DeclaresFirst(r, broadcast) ==>
                    r.conn && b.declared.Some? && forall i :: 0 <= i < |r.pending| ==> b.accepts(r.pending[i])))
  {
    if DeclaresFirst(r, broadcast) {
      DeclaredGrows(r, b);
      if r.conn && b.declared.Some? {
        EmitAllLoses(r.(queue := b.declared.value, pending := []), r.pending, b.accepts);
      }
    }
  }

  /** A broadcast client that reconnects without consumers does not flush: a later
      message overtakes the buffered one. */
  lemma BroadcastOvertakes(a: Message, z: Message, b: Broker)
    requires b.accepts(a) && b.accepts(z)
    ensures var r := ReactAll(true, [Send(a, b), Reconnected(b, false), Send(z, b)]);
            r.sent == [z] && r.pending == [a]
  {
    var e1 := [Send(a, b)];
    var e2 := e1 + [Reconnected(b, false)];
    var e3 := e2 + [Send(z, b)];
    assert e1[..0] == [] && e2[..1] == e1 && e3[..2] == e2;
    assert ReactAll(true, e1).pending == [a];
    assert ReactAll(true, e2).channel && ReactAll(true, e2).pending == [a] && ReactAll(true, e2).sent == [];
    assert e3 == [Send(a, b), Reconnected(b, false), Send(z, b)];
  }
}
