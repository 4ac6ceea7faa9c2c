/** Safety of the Pulsar client over every interleaving of its goroutines: the run loop,
    which receives from the channel `Publish` and publishes, the goroutine that reconnects and
    flushes, and one goroutine for each delivery, which runs the callback and replies. */
module PulsarProofs {
  import opened AutoReplies
  import opened MqEnv
  import opened Options
  import opened Sequences

  // ---------------------------------------------------------------------------
  // The machine
  // ---------------------------------------------------------------------------

  /** A publish looks at the client, and then either appends to the buffer (`appending`) or
      sends (`sending`) and after that answers (`answering`). `draining`: messages that
      flushes have taken over. */
  datatype Client = Client(
    connected: bool,
    pending: seq<Post>,
    sent: seq<Post>,
    failed: seq<Post>,
    entering: seq<Post>,
    appending: seq<Post>,
    sending: seq<Post>,
    answering: seq<Post>,
    draining: seq<Post>,
    books: Books)

  /** `Submit` is the rendezvous of a caller or a callback with the run loop; what follows
      in the run loop is not awaited by it. The run loop finishes one message before it takes
      the next, and it closes the connection between messages unless it is closed from outside;
      the machine does not hold it to that, so it has all interleavings of the code and more. */
  datatype Act =
    | Submit(p: Post)
    | Look(i: nat)
    | Append(i: nat)
    | Send(i: nat, accepted: bool)
    | Finish(i: nat)
    | Connect
    | Disconnect
    | StartFlush
    | FlushNext(i: nat)
    | Deliver(d: nat, m: Delivery)
    | CallbackReturns(d: nat, answer: Option<Message>)
    | Check(d: nat)
    | Reply(d: nat)

  /** What an act means for the books. */
  function NoteOf(c: Client, a: Act): Note {
    match a
    case Submit(p) => Submits(p)
    case Finish(i) => if i < |c.answering| then Answers(c.answering[i]) else Nothing
    case Deliver(d, m) => Remembers(d, m)
    case CallbackReturns(d, answer) => Returns(d, answer)
    case Check(d) => Decides(d)
    case Reply(d) => Replies(d)
    case _ => Nothing
  }

  predicate CanAct(c: Client, a: Act) {
    && CanNote(c.books, NoteOf(c, a))
    && match a
       case Look(i) => i < |c.entering|
       case Append(i) => i < |c.appending|
       case Send(i, _) => i < |c.sending|
       case Finish(i) => i < |c.answering|
       case FlushNext(i) => i < |c.draining|
       case _ => true
  }

  function Drop<T>(s: seq<T>, i: nat): seq<T>
    requires i < |s|
  {
    s[..i] + s[i + 1..]
  }

  function Entered(c: Client, p: Post): Client {
    c.(entering := c.entering + [p])
  }

  /** Where the messages go. */
  function Moved(c: Client, a: Act): Client
    requires CanAct(c, a)
  {
    match a
    case Submit(p) => Entered(c, p)
    case Look(i) =>
      if c.connected then c.(entering := Drop(c.entering, i), sending := c.sending + [c.entering[i]])
      else c.(entering := Drop(c.entering, i), appending := c.appending + [c.entering[i]])
    case Append(i) => c.(appending := Drop(c.appending, i), pending := c.pending + [c.appending[i]])
    case Send(i, accepted) =>
      var p, rest := c.sending[i], Drop(c.sending, i);
      if accepted then c.(sending := rest, sent := c.sent + [p], answering := c.answering + [p])
      else c.(sending := rest, failed := c.failed + [p])
    case Finish(i) => c.(answering := Drop(c.answering, i))
    case Connect => c.(connected := true)
    case Disconnect => c.(connected := false)
    case StartFlush => c.(draining := c.draining + c.pending, pending := [])
    case FlushNext(i) => c.(draining := Drop(c.draining, i), entering := c.entering + [c.draining[i]])
    case Reply(d) => Entered(c, ReplyTo(c.books.desk, d))
    case _ => c
  }

  function Do(c: Client, a: Act): Client
    requires CanAct(c, a)
  {
    Moved(c, a).(books := Noted(c.books, NoteOf(c, a)))
  }

  const IDLE := Client(false, [], [], [], [], [], [], [], [], EMPTY_BOOKS)

  /** The state after `acts`, if each of them was possible. */
  function DoAll(acts: seq<Act>): Option<Client> {
    if acts == [] then Some(IDLE)
    else
      var front := DoAll(acts[..|acts| - 1]);
      if front.Some? && CanAct(front.value, acts[|acts| - 1]) then Some(Do(front.value, acts[|acts| - 1])) else None
  }

  lemma DoAllSnoc(acts: seq<Act>, a: Act)
    requires DoAll(acts).Some? && CanAct(DoAll(acts).value, a)
    ensures DoAll(acts + [a]) == Some(Do(DoAll(acts).value, a))
  {
    assert (acts + [a])[..|acts|] == acts;
  }

  // ---------------------------------------------------------------------------
  // Reconnect conservation
  // ---------------------------------------------------------------------------

  function InTransit(c: Client): multiset<Post> {
    multiset(c.entering) + multiset(c.appending) + multiset(c.sending) + multiset(c.draining)
  }

  function Places(c: Client): multiset<Post> {
    multiset(c.sent) + multiset(c.failed) + multiset(c.pending) + InTransit(c)
  }

  lemma BooksElsewhere(c: Client, b: Books)
    ensures Places(c.(books := b)) == Places(c)
  {
  }

  ghost predicate Conserved(c: Client) {
    multiset(c.books.submitted) == Places(c)
  }

  lemma DropOne<T>(s: seq<T>, i: nat)
    requires i < |s|
    ensures multiset(s) == multiset(Drop(s, i)) + multiset{s[i]}
  {
    assert s == s[..i] + [s[i]] + s[i + 1..];
  }

  lemma LookConserves(c: Client, i: nat)
    requires CanAct(c, Look(i))
    ensures Places(Moved(c, Look(i))) == Places(c)
  {
    DropOne(c.entering, i);
  }

  lemma AppendConserves(c: Client, i: nat)
    requires CanAct(c, Append(i))
    ensures Places(Moved(c, Append(i))) == Places(c)
  {
    DropOne(c.appending, i);
  }

  lemma SendConserves(c: Client, i: nat, accepted: bool)
    requires CanAct(c, Send(i, accepted))
    ensures Places(Moved(c, Send(i, accepted))) == Places(c)
  {
    DropOne(c.sending, i);
  }

  lemma FlushNextConserves(c: Client, i: nat)
    requires CanAct(c, FlushNext(i))
    ensures Places(Moved(c, FlushNext(i))) == Places(c)
  {
    DropOne(c.draining, i);
  }

  lemma EnteredConserves(c: Client, p: Post)
    ensures Places(Entered(c, p)) == Places(c) + multiset{p}
  {
    assert multiset(c.entering + [p]) == multiset(c.entering) + multiset{p};
  }

  lemma StartFlushConserves(c: Client)
    ensures Places(Moved(c, StartFlush)) == Places(c)
  {
    assert multiset(c.draining + c.pending) == multiset(c.draining) + multiset(c.pending);
  }

  /** An act that submits nothing moves messages only from place to place. */
  lemma MovesConserve(c: Client, a: Act)
    requires CanAct(c, a) && !a.Submit? && !a.Reply?
    ensures Places(Moved(c, a)) == Places(c)
  {
    match a
    case Look(i) => LookConserves(c, i);
    case Append(i) => AppendConserves(c, i);
    case Send(i, accepted) => SendConserves(c, i, accepted);
    case FlushNext(i) => FlushNextConserves(c, i);
    case StartFlush => StartFlushConserves(c);
    case _ =>
  }

  lemma StaysConserved(c: Client, a: Act)
    requires Conserved(c) && CanAct(c, a) && !a.Submit? && !a.Reply?
    requires Places(Moved(c, a)) == Places(c)
    ensures Conserved(Do(c, a))
  {
    NotedAdds(c.books, NoteOf(c, a));
    OnlySubmitsAdd(c.books, NoteOf(c, a));
    BooksElsewhere(Moved(c, a), Noted(c.books, NoteOf(c, a)));
  }

  lemma DoSubmitConserves(c: Client, p: Post)
    requires Conserved(c) && CanAct(c, Submit(p))
    ensures Conserved(Do(c, Submit(p)))
  {
    EnteredConserves(c, p);
    NotedAdds(c.books, Submits(p));
    BooksElsewhere(Entered(c, p), Noted(c.books, Submits(p)));
  }

  lemma DoReplyConserves(c: Client, d: nat)
    requires Conserved(c) && CanAct(c, Reply(d))
    ensures Conserved(Do(c, Reply(d)))
  {
    EnteredConserves(c, ReplyTo(c.books.desk, d));
    NotedAdds(c.books, Replies(d));
    BooksElsewhere(Entered(c, ReplyTo(c.books.desk, d)), Noted(c.books, Replies(d)));
  }

  lemma DoConserves(c: Client, a: Act)
    requires Conserved(c) && CanAct(c, a)
    ensures Conserved(Do(c, a))
  {
    if a.Submit? {
      DoSubmitConserves(c, a.p);
    } else if a.Reply? {
      DoReplyConserves(c, a.d);
    } else {
      MovesConserve(c, a);
      StaysConserved(c, a);
    }
  }

  /** Over any series of disconnects, reconnects and flushes, in any interleaving, every
      message submitted, automatic replies included, is in exactly one place: sent, refused by
      the broker, buffered, or in the hands of a running publish or flush. */
  lemma {:induction false} MessagesConserved(acts: seq<Act>)
    ensures DoAll(acts).Some? ==> Conserved(DoAll(acts).value)
  {
    if acts != [] {
      MessagesConserved(acts[..|acts| - 1]);
      var front := DoAll(acts[..|acts| - 1]);
      if front.Some? && CanAct(front.value, acts[|acts| - 1]) {
        DoConserves(front.value, acts[|acts| - 1]);
      }
    }
  }

  ghost predicate Quiet(c: Client) {
    c.entering == [] && c.appending == [] && c.sending == [] && c.draining == []
  }

  /** With a broker that refuses nothing, once all goroutines rest, what was sent and
      what is buffered are together a permutation of what was submitted. */
  lemma NothingLostAtRest(acts: seq<Act>)
    requires DoAll(acts).Some? && Quiet(DoAll(acts).value)
    requires forall i :: 0 <= i < |acts| && acts[i].Send? ==> acts[i].accepted
    ensures var c := DoAll(acts).value; multiset(c.books.submitted) == multiset(c.sent) + multiset(c.pending)
  {
    MessagesConserved(acts);
    NoRefusals(acts);
  }

  lemma {:induction false} NoRefusals(acts: seq<Act>)
    requires DoAll(acts).Some?
    requires forall i :: 0 <= i < |acts| && acts[i].Send? ==> acts[i].accepted
    ensures DoAll(acts).value.failed == []
  {
    if acts != [] {
      NoRefusals(acts[..|acts| - 1]);
    }
  }

  /** No message is sent twice: as many times as it was submitted, at most. */
  lemma SentAtMostAsSubmitted(acts: seq<Act>, p: Post)
    requires DoAll(acts).Some?
    ensures multiset(DoAll(acts).value.sent)[p] <= multiset(DoAll(acts).value.books.submitted)[p]
  {
    MessagesConserved(acts);
  }

  // ---------------------------------------------------------------------------
  // What stays in the buffer
  // ---------------------------------------------------------------------------

  /** At some act a publisher of `p` looked at the client and found it missing. */
  ghost predicate SawNoClient(acts: seq<Act>, p: Post) {
    && acts != []
    && var front, a := DoAll(acts[..|acts| - 1]), acts[|acts| - 1];
       || SawNoClient(acts[..|acts| - 1], p)
       || (front.Some? && a.Look? && CanAct(front.value, a) && !front.value.connected && front.value.entering[a.i] == p)
  }

  lemma {:induction false} AppendersSawNoClient(acts: seq<Act>, p: Post)
    requires DoAll(acts).Some? && p in DoAll(acts).value.appending
    ensures SawNoClient(acts, p)
  {
    var front, a := DoAll(acts[..|acts| - 1]).value, acts[|acts| - 1];
    if p in front.appending {
      AppendersSawNoClient(acts[..|acts| - 1], p);
    } else {
      AppendingGrows(front, a, p);
    }
  }

  lemma AppendingGrows(c: Client, a: Act, p: Post)
    requires CanAct(c, a) && p in Do(c, a).appending && p !in c.appending
    ensures a.Look? && !c.connected && c.entering[a.i] == p
  {
  }

  /** Since the last flush began, a publisher has appended that had found the client missing. */
  ghost predicate LateAppend(acts: seq<Act>) {
    && acts != []
    && var front, a := DoAll(acts[..|acts| - 1]), acts[|acts| - 1];
       && !a.StartFlush?
       && (|| LateAppend(acts[..|acts| - 1])
           || (front.Some? && a.Append? && CanAct(front.value, a)
               && SawNoClient(acts[..|acts| - 1], front.value.appending[a.i])))
  }

  lemma BufferStep(c: Client, a: Act)
    requires CanAct(c, a)
    ensures Do(c, a).pending == [] <==> a.StartFlush? || (c.pending == [] && !a.Append?)
  {
  }

  /** In every state of every run, at rest or not, connected or not: the buffer is empty if
      and only if, since the last flush began, no publisher has appended that had found the
      client missing. */
  lemma {:induction false} BufferEmptyExactly(acts: seq<Act>)
    requires DoAll(acts).Some?
    ensures DoAll(acts).value.pending == [] <==> !LateAppend(acts)
  {
    if acts != [] {
      var front, a := DoAll(acts[..|acts| - 1]).value, acts[|acts| - 1];
      BufferEmptyExactly(acts[..|acts| - 1]);
      BufferStep(front, a);
      if a.Append? {
        AppendersSawNoClient(acts[..|acts| - 1], front.appending[a.i]);
      }
    }
  }

  /** Such a run: the message waits in the buffer of a connected client at rest. */
  lemma BufferedWhileConnected(p: Post)
    requires p.origin == Outside
    ensures var c := DoAll([Submit(p), Look(0), Connect, StartFlush, Append(0)]);
            c.Some? && Quiet(c.value) && c.value.connected && c.value.pending == [p]
  {
    var a1 := [Submit(p)];
    var a2, a3 := a1 + [Look(0)], a1 + [Look(0)] + [Connect];
    var a4 := a3 + [StartFlush];
    DoAllSnoc([], Submit(p));
    assert [] + [Submit(p)] == a1;
    assert DoAll(a1).value.entering == [p];
    DoAllSnoc(a1, Look(0));
    assert DoAll(a2).value.appending == [p];
    DoAllSnoc(a2, Connect);
    DoAllSnoc(a3, StartFlush);
    assert DoAll(a4).value.appending == [p];
    DoAllSnoc(a4, Append(0));
    assert a4 + [Append(0)] == [Submit(p), Look(0), Connect, StartFlush, Append(0)];
  }

  // ---------------------------------------------------------------------------
  // The automatic reply
  // ---------------------------------------------------------------------------

  lemma {:induction false} BooksKept(acts: seq<Act>)
    ensures DoAll(acts).Some? ==> BooksInv(DoAll(acts).value.books)
  {
    if acts != [] {
      BooksKept(acts[..|acts| - 1]);
      var front, a := DoAll(acts[..|acts| - 1]), acts[|acts| - 1];
      if front.Some? && CanAct(front.value, a) {
        NoteKeeps(front.value.books, NoteOf(front.value, a));
      }
    }
  }

  /** In every interleaving, with distinct request ids, the automatic reply to a delivery
      exists at most once: among what was sent, and in whatever other place. */
  lemma AutomaticReplyAtMostOnce(acts: seq<Act>, d: nat)
    requires DoAll(acts).Some?
    ensures var c := DoAll(acts).value;
            AtMostOne(c.sent + c.failed + c.pending + c.entering + c.appending + c.sending + c.draining, IsReplyTo(d))
  {
    var c := DoAll(acts).value;
    MessagesConserved(acts);
    BooksKept(acts);
    assert RepliesSubmitted(c.books, d);
    var all := c.sent + c.failed + c.pending + c.entering + c.appending + c.sending + c.draining;
    assert multiset(all) == Places(c);
    AtMostOneOfPart(all, c.books.submitted, IsReplyTo(d));
  }

  /** Exactly when it is published, in every interleaving: a delivery that is done got its
      automatic reply if and only if the callback returned a response and every publish that
      answered the id, of whatever message, did so after the check. A message of the callback
      itself keeps the automatic reply from going out only if it got that far before. */
  lemma AutomaticReplyExactly(acts: seq<Act>, d: nat)
    requires DoAll(acts).Some? && At(DoAll(acts).value.books.desk, d, Done)
    ensures var b := DoAll(acts).value.books;
            var job := b.desk.jobs[d];
            job.decided.Some? && (ReplyAmong(b.submitted, d) <==> job.answer.Some? && AnsweredOnlyAfter(b.desk, job))
  {
    BooksKept(acts);
    ReplyExactly(DoAll(acts).value.books, d);
  }

  /** In every interleaving, the first message that answers a delivery with a response is
      joined by the automatic reply if and only if it answers after the check: between the
      check and the reply, or later. */
  lemma ReplyDoubledExactly(acts: seq<Act>, d: nat, i: nat)
    requires DoAll(acts).Some? && At(DoAll(acts).value.books.desk, d, Done)
    requires var k := DoAll(acts).value.books.desk; k.jobs[d].answer.Some? && FirstAnswer(k, k.jobs[d], i)
    ensures var b := DoAll(acts).value.books;
            b.desk.jobs[d].decided.Some? && (ReplyAmong(b.submitted, d) <==> b.desk.jobs[d].decided.value <= i)
  {
    BooksKept(acts);
    DoubledExactly(DoAll(acts).value.books, d, i);
  }

  /** The callback publishes `own` and returns `resp`, and the check is made while the run loop
      has `own` in hand. */
  function UpToCheck(m: Delivery, own: Message, resp: Message): seq<Act> {
    [Connect] + [Deliver(0, m)] + [Submit(Post(own, Callback(0)))] + [CallbackReturns(0, Some(resp))] + [Check(0)]
  }

  /** The client after that. */
  function BothToCome(m: Delivery, own: Message, resp: Message): Client {
    var p := Post(own, Callback(0));
    Client(true, [], [], [], [p], [], [], [], [],
           Books([p], Desk(map[m.correlationId := 0], [], map[0 := Job(m, Replying, Some(resp), 0, Some(0), true)])))
  }

  lemma ReachesDelivery(m: Delivery)
    requires NeedsReply(m)
    ensures DoAll([Connect] + [Deliver(0, m)])
            == Some(IDLE.(connected := true, books := Books([], Remember(EMPTY_DESK, 0, m))))
  {
    Connects();
    DoAllSnoc([Connect], Deliver(0, m));
  }

  lemma Connects()
    ensures DoAll([Connect]) == Some(IDLE.(connected := true))
  {
    DoAllSnoc([], Connect);
    assert [] + [Connect] == [Connect];
  }

  lemma ReachesCallback(m: Delivery, p: Post)
    requires NeedsReply(m) && p.origin == Callback(0)
    ensures DoAll([Connect] + [Deliver(0, m)] + [Submit(p)])
            == Some(IDLE.(connected := true, entering := [p], books := Books([p], Remember(EMPTY_DESK, 0, m))))
  {
    ReachesDelivery(m);
    DoAllSnoc([Connect] + [Deliver(0, m)], Submit(p));
    assert [] + [p] == [p];
  }

  lemma ReturnsAndChecks(acts: seq<Act>, c: Client, resp: Message)
    requires DoAll(acts) == Some(c) && At(c.books.desk, 0, Handling) && At(Return(c.books.desk, 0, Some(resp)), 0, Returned)
    ensures DoAll(acts + [CallbackReturns(0, Some(resp))] + [Check(0)])
            == Some(c.(books := c.books.(desk := Decide(Return(c.books.desk, 0, Some(resp)), 0))))
  {
    DoAllSnoc(acts, CallbackReturns(0, Some(resp)));
    DoAllSnoc(acts + [CallbackReturns(0, Some(resp))], Check(0));
  }

  lemma ReachesBothToCome(m: Delivery, own: Message, resp: Message)
    requires NeedsReply(m)
    ensures DoAll(UpToCheck(m, own, resp)) == Some(BothToCome(m, own, resp))
  {
    var p := Post(own, Callback(0));
    ReachesCallback(m, p);
    DeskToReplying(m, resp);
    ReturnsAndChecks([Connect] + [Deliver(0, m)] + [Submit(p)],
                     IDLE.(connected := true, entering := [p], books := Books([p], Remember(EMPTY_DESK, 0, m))), resp);
  }

  /** One message is looked at and sent, when nothing else is on its way. */
  lemma SendsOne(acts: seq<Act>, c: Client, p: Post)
    requires DoAll(acts) == Some(c) && c.connected && c.entering == [p] && c.sending == []
    ensures DoAll(acts + [Look(0)] + [Send(0, true)])
            == Some(c.(entering := [], sent := c.sent + [p], answering := c.answering + [p]))
  {
    DoAllSnoc(acts, Look(0));
    assert Drop(c.entering, 0) == [] && [] + [p] == [p];
    DoAllSnoc(acts + [Look(0)], Send(0, true));
    assert Drop([p], 0) == [];
  }

  lemma AppendsOne(acts: seq<Act>, c: Client, p: Post)
    requires DoAll(acts) == Some(c) && !c.connected && c.entering == [p] && c.appending == []
    ensures DoAll(acts + [Look(0)] + [Append(0)]) == Some(c.(entering := [], pending := c.pending + [p]))
  {
    DoAllSnoc(acts, Look(0));
    assert Drop(c.entering, 0) == [] && [] + [p] == [p];
    DoAllSnoc(acts + [Look(0)], Append(0));
    assert Drop([p], 0) == [];
  }

  /** The automatic reply, when nothing else is on its way. */
  lemma RepliesLast(acts: seq<Act>, c: Client)
    requires DoAll(acts) == Some(c) && c.entering == [] && c.sending == [] && c.appending == []
    requires At(c.books.desk, 0, Replying) && c.books.desk.jobs[0].answer.Some?
    ensures c.connected ==> var t := DoAll(acts + [Reply(0)] + [Look(0)] + [Send(0, true)]);
                            t.Some? && t.value.connected && t.value.sent == c.sent + [ReplyTo(c.books.desk, 0)]
    ensures !c.connected ==> var t := DoAll(acts + [Reply(0)] + [Look(0)] + [Append(0)]);
                             t.Some? && t.value.pending == c.pending + [ReplyTo(c.books.desk, 0)]
  {
    var q := ReplyTo(c.books.desk, 0);
    DoAllSnoc(acts, Reply(0));
    assert [] + [q] == [q];
    if c.connected {
      SendsOne(acts + [Reply(0)], Do(c, Reply(0)), q);
    } else {
      AppendsOne(acts + [Reply(0)], Do(c, Reply(0)), q);
    }
  }

  /** The run in which the callback and the client both reply, connected throughout: what the
      callback has published is sent after the check. */
  lemma CallbackAndClientReply(m: Delivery, own: Message, resp: Message)
    requires NeedsReply(m)
    ensures var c := DoAll(UpToCheck(m, own, resp) + [Look(0)] + [Send(0, true)] + [Reply(0)] + [Look(0)] + [Send(0, true)]);
            c.Some? && c.value.connected
            && c.value.sent == [Post(own, Callback(0)), Post(resp.(replyTo := m.replyTo), Automatic(0))]
  {
    var before, c, p := UpToCheck(m, own, resp), BothToCome(m, own, resp), Post(own, Callback(0));
    ReachesBothToCome(m, own, resp);
    SendsOne(before, c, p);
    assert [] + [p] == [p];
    RepliesLast(before + [Look(0)] + [Send(0, true)], c.(entering := [], sent := [p], answering := [p]));
  }

  /** A callback whose client has gone offline meanwhile: what it publishes is buffered, and
      answers nothing. */
  function OfflineUpToCheck(m: Delivery, own: Message, resp: Message): seq<Act> {
    [Connect] + [Deliver(0, m)] + [Disconnect] + [Submit(Post(own, Callback(0)))] + [Look(0)] + [Append(0)]
    + [CallbackReturns(0, Some(resp))] + [Check(0)]
  }

  lemma ReachesOffline(m: Delivery, p: Post)
    requires NeedsReply(m) && p.origin == Callback(0)
    ensures DoAll([Connect] + [Deliver(0, m)] + [Disconnect] + [Submit(p)] + [Look(0)] + [Append(0)])
            == Some(IDLE.(pending := [p], books := Books([p], Remember(EMPTY_DESK, 0, m))))
  {
    var acts, books := [Connect] + [Deliver(0, m)], Books([], Remember(EMPTY_DESK, 0, m));
    ReachesDelivery(m);
    DoAllSnoc(acts, Disconnect);
    DoAllSnoc(acts + [Disconnect], Submit(p));
    assert [] + [p] == [p];
    AppendsOne(acts + [Disconnect] + [Submit(p)],
               IDLE.(entering := [p], books := Books([p], Remember(EMPTY_DESK, 0, m))), p);
  }

  /** The run in which both reply and the client is offline: both replies are buffered. */
  lemma BothRepliesBuffered(m: Delivery, own: Message, resp: Message)
    requires NeedsReply(m)
    ensures var c := DoAll(OfflineUpToCheck(m, own, resp) + [Reply(0)] + [Look(0)] + [Append(0)]);
            c.Some? && c.value.pending == [Post(own, Callback(0)), Post(resp.(replyTo := m.replyTo), Automatic(0))]
  {
    var p := Post(own, Callback(0));
    var c := IDLE.(pending := [p], books := Books([p], Remember(EMPTY_DESK, 0, m)));
    ReachesOffline(m, p);
    DeskToReplying(m, resp);
    ReturnsAndChecks([Connect] + [Deliver(0, m)] + [Disconnect] + [Submit(p)] + [Look(0)] + [Append(0)], c, resp);
    RepliesLast(OfflineUpToCheck(m, own, resp),
                c.(books := c.books.(desk := Decide(Return(c.books.desk, 0, Some(resp)), 0))));
  }
}
