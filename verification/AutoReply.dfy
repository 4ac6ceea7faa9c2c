/** The bookkeeping of automatic replies, shared by mq/pulsar/pulsar.go and
    mq/rabbitmq/rabbitmq.go: a delivery that wants a reply is remembered until some publish
    answers its correlation id; when its callback has returned, a look at what is remembered
    decides whether the response is published for it. The publishes run beside that, in other
    goroutines. */
module AutoReplies {
  import opened MqEnv
  import opened Options
  import opened Sequences

  /** Who wrote a message: a caller, the callback of delivery `d`, or the client itself,
      replying to delivery `d`. */
  datatype Origin = Outside | Callback(d: nat) | Automatic(d: nat)

  datatype Post = Post(pm: Message, origin: Origin)

  /** The callback runs, it has returned, its response is about to be published, it is done. */
  datatype Stage = Handling | Returned | Replying | Done

  /** `since` and `decided`: how many answers there had been when the delivery was remembered,
      and when it was decided on; `chosen`: the decision. */
  datatype Job = Job(m: Delivery, stage: Stage, answer: Option<Message>, since: nat, decided: Option<nat>, chosen: bool)

  /** `replies`: the deliveries remembered; `answers`: the posts that answered, in order. */
  datatype Desk = Desk(replies: map<string, nat>, answers: seq<Post>, jobs: map<nat, Job>)

  const EMPTY_DESK := Desk(map[], [], map[])

  /** Request ids are distinct. */
  predicate CanRemember(k: Desk, d: nat, m: Delivery) {
    d !in k.jobs && NeedsReply(m) && forall e :: e in k.jobs ==> k.jobs[e].m.correlationId != m.correlationId
  }

  function Remember(k: Desk, d: nat, m: Delivery): Desk {
    k.(replies := k.replies[m.correlationId := d], jobs := k.jobs[d := Job(m, Handling, None, |k.answers|, None, false)])
  }

  /** The second half of a publish, after the message has been handed over. */
  function Answer(k: Desk, p: Post): Desk {
    if p.pm.correlationId == "" then k
    else k.(replies := k.replies - {p.pm.correlationId}, answers := k.answers + [p])
  }

  predicate At(k: Desk, d: nat, stage: Stage) {
    d in k.jobs && k.jobs[d].stage == stage
  }

  function Return(k: Desk, d: nat, answer: Option<Message>): Desk
    requires At(k, d, Handling)
  {
    k.(jobs := k.jobs[d := k.jobs[d].(stage := Returned, answer := answer)])
  }

  function Decide(k: Desk, d: nat): Desk
    requires At(k, d, Returned)
  {
    var job := k.jobs[d];
    var chosen := job.answer.Some? && job.m.correlationId in k.replies;
    k.(jobs := k.jobs[d := job.(stage := if chosen then Replying else Done, decided := Some(|k.answers|), chosen := chosen)])
  }

  function Replied(k: Desk, d: nat): Desk
    requires At(k, d, Replying)
  {
    k.(jobs := k.jobs[d := k.jobs[d].(stage := Done)])
  }

  /** The response goes to the address of the delivery, under the id it came with. */
  function ReplyTo(k: Desk, d: nat): Post
    requires d in k.jobs && k.jobs[d].answer.Some?
  {
    Post(k.jobs[d].answer.value.(replyTo := k.jobs[d].m.replyTo), Automatic(d))
  }

  /** The messages without who wrote them. */
  function Messages(posts: seq<Post>): (pms: seq<Message>)
    ensures |pms| == |posts| && forall i :: 0 <= i < |posts| ==> pms[i] == posts[i].pm
  {
    seq(|posts|, i requires 0 <= i < |posts| => posts[i].pm)
  }

  lemma MessagesSnoc(posts: seq<Post>, p: Post)
    ensures Messages(posts + [p]) == Messages(posts) + [p.pm]
  {
  }

  /** The deliveries that wait for a reply. */
  function Waiting(k: Desk): map<string, Delivery> {
    map id | id in k.replies && k.replies[id] in k.jobs :: k.jobs[k.replies[id]].m
  }

  lemma AnswerStopsWaiting(k: Desk, p: Post)
    ensures Waiting(Answer(k, p)) == if p.pm.correlationId != "" then Waiting(k) - {p.pm.correlationId} else Waiting(k)
  {
  }

  /** Whatever is remembered is being handled, or has been. */
  ghost predicate RepliesKnown(k: Desk) {
    forall id :: id in k.replies ==> k.replies[id] in k.jobs
  }

  lemma RememberedWaits(k: Desk, d: nat, m: Delivery)
    requires RepliesKnown(k) && CanRemember(k, d, m)
    ensures RepliesKnown(Remember(k, d, m)) && Waiting(Remember(k, d, m)) == Waiting(k)[m.correlationId := m]
  {
  }

  /** Returning from the callback, deciding and replying leave who waits. */
  lemma OthersWaitOn(k: Desk, d: nat, answer: Option<Message>)
    ensures At(k, d, Handling) ==> Waiting(Return(k, d, answer)) == Waiting(k)
    ensures At(k, d, Returned) ==> Waiting(Decide(k, d)) == Waiting(k)
    ensures At(k, d, Replying) ==> Waiting(Replied(k, d)) == Waiting(k)
  {
  }

  /** A delivery remembered, returned from and decided on in a row: its response is chosen. */
  lemma DeskInARow(k: Desk, d: nat, m: Delivery, resp: Option<Message>)
    requires RepliesKnown(k) && CanRemember(k, d, m)
    ensures At(Remember(k, d, m), d, Handling) && At(Return(Remember(k, d, m), d, resp), d, Returned)
    ensures var t := Decide(Return(Remember(k, d, m), d, resp), d);
            && Waiting(t) == Waiting(k)[m.correlationId := m]
            && At(t, d, if resp.Some? then Replying else Done) && t.jobs[d].m == m && t.jobs[d].answer == resp
  {
    RememberedWaits(k, d, m);
    OthersWaitOn(Remember(k, d, m), d, resp);
    OthersWaitOn(Return(Remember(k, d, m), d, resp), d, resp);
  }

  // ---------------------------------------------------------------------------
  // The invariant
  // ---------------------------------------------------------------------------

  /** Nothing answered this id from the i-th answer on, up to the j-th. */
  ghost predicate Unanswered(k: Desk, id: string, i: nat, j: nat) {
    forall n :: i <= n < j && n < |k.answers| ==> k.answers[n].pm.correlationId != id
  }

  ghost predicate JobInv(k: Desk, job: Job) {
    && job.m.correlationId != "" && job.since <= |k.answers|
    && (job.m.correlationId in k.replies <==> Unanswered(k, job.m.correlationId, job.since, |k.answers|))
    && (job.stage in {Replying, Done} <==> job.decided.Some?)
    && (job.stage == Handling ==> job.answer.None?)
    && (job.decided.None? ==> !job.chosen)
    && (job.decided.Some? ==>
          && job.since <= job.decided.value <= |k.answers|
          && (job.chosen <==> job.answer.Some? && Unanswered(k, job.m.correlationId, job.since, job.decided.value)))
    && (job.stage == Replying ==> job.chosen)
  }

  ghost predicate DeskInv(k: Desk) {
    && (forall d :: d in k.jobs ==> JobInv(k, k.jobs[d]))
    && forall d, e :: d in k.jobs && e in k.jobs && d != e ==> k.jobs[d].m.correlationId != k.jobs[e].m.correlationId
  }

  lemma RememberKeeps(k: Desk, d: nat, m: Delivery)
    requires DeskInv(k) && CanRemember(k, d, m)
    ensures DeskInv(Remember(k, d, m))
  {
    var t := Remember(k, d, m);
    forall e | e in t.jobs ensures JobInv(t, t.jobs[e]) {
      if e != d {
        assert JobInv(k, k.jobs[e]);
      }
    }
  }

  lemma AnswerKeeps(k: Desk, p: Post)
    requires DeskInv(k)
    ensures DeskInv(Answer(k, p))
  {
    var t, id := Answer(k, p), p.pm.correlationId;
    if id != "" {
      assert t.answers[|k.answers|] == p && forall n :: 0 <= n < |k.answers| ==> t.answers[n] == k.answers[n];
      forall d | d in t.jobs ensures JobInv(t, t.jobs[d]) {
        assert JobInv(k, k.jobs[d]);
      }
    }
  }

  lemma ReturnKeeps(k: Desk, d: nat, answer: Option<Message>)
    requires DeskInv(k) && At(k, d, Handling)
    ensures DeskInv(Return(k, d, answer))
  {
    var t := Return(k, d, answer);
    forall e | e in t.jobs ensures JobInv(t, t.jobs[e]) {
      assert JobInv(k, k.jobs[e]);
    }
  }

  lemma DecideKeeps(k: Desk, d: nat)
    requires DeskInv(k) && At(k, d, Returned)
    ensures DeskInv(Decide(k, d))
  {
    var t := Decide(k, d);
    forall e | e in t.jobs ensures JobInv(t, t.jobs[e]) {
      assert JobInv(k, k.jobs[e]);
    }
  }

  lemma RepliedKeeps(k: Desk, d: nat)
    requires DeskInv(k) && At(k, d, Replying)
    ensures DeskInv(Replied(k, d))
  {
    var t := Replied(k, d);
    forall e | e in t.jobs ensures JobInv(t, t.jobs[e]) {
      assert JobInv(k, k.jobs[e]);
    }
  }

  /** Every publish that answered the delivery did so after the decision. */
  ghost predicate AnsweredOnlyAfter(k: Desk, job: Job)
    requires job.decided.Some?
  {
    forall i :: 0 <= i < |k.answers| ==>
      (job.since <= i && k.answers[i].pm.correlationId == job.m.correlationId ==> job.decided.value <= i)
  }

  /** Once decided: the automatic reply is chosen if and only if the callback returned a
      response and every publish that answered the id did so after the decision. */
  lemma ChosenExactly(k: Desk, d: nat)
    requires DeskInv(k) && d in k.jobs && k.jobs[d].decided.Some?
    ensures k.jobs[d].chosen <==> k.jobs[d].answer.Some? && AnsweredOnlyAfter(k, k.jobs[d])
  {
    assert JobInv(k, k.jobs[d]);
  }

  // ---------------------------------------------------------------------------
  // What was submitted
  // ---------------------------------------------------------------------------

  /** The desk, and everything ever handed to the client for publishing. */
  datatype Books = Books(submitted: seq<Post>, desk: Desk)

  const EMPTY_BOOKS := Books([], EMPTY_DESK)

  /** What one act of a client means for its books. */
  datatype Note =
    | Nothing
    | Submits(p: Post)
    | Answers(p: Post)
    | Remembers(d: nat, m: Delivery)
    | Returns(d: nat, answer: Option<Message>)
    | Decides(d: nat)
    | Replies(d: nat)

  predicate CanNote(b: Books, n: Note) {
    match n
    case Submits(p) => !p.origin.Automatic? && (p.origin.Callback? ==> p.origin.d in b.desk.jobs)
    case Remembers(d, m) => CanRemember(b.desk, d, m)
    case Returns(d, _) => At(b.desk, d, Handling)
    case Decides(d) => At(b.desk, d, Returned)
    case Replies(d) => At(b.desk, d, Replying) && b.desk.jobs[d].answer.Some?
    case _ => true
  }

  function Noted(b: Books, n: Note): Books
    requires CanNote(b, n)
  {
    match n
    case Nothing => b
    case Submits(p) => b.(submitted := b.submitted + [p])
    case Answers(p) => b.(desk := Answer(b.desk, p))
    case Remembers(d, m) => b.(desk := Remember(b.desk, d, m))
    case Returns(d, answer) => b.(desk := Return(b.desk, d, answer))
    case Decides(d) => b.(desk := Decide(b.desk, d))
    case Replies(d) => Books(b.submitted + [ReplyTo(b.desk, d)], Replied(b.desk, d))
  }

  /** What a note adds to the messages submitted. */
  function Added(b: Books, n: Note): multiset<Post>
    requires CanNote(b, n)
  {
    match n
    case Submits(p) => multiset{p}
    case Replies(d) => multiset{ReplyTo(b.desk, d)}
    case _ => multiset{}
  }

  lemma NoteKeepsKnown(b: Books, n: Note)
    requires CanNote(b, n) && RepliesKnown(b.desk)
    ensures RepliesKnown(Noted(b, n).desk)
  {
  }

  lemma NotedAdds(b: Books, n: Note)
    requires CanNote(b, n)
    ensures multiset(Noted(b, n).submitted) == multiset(b.submitted) + Added(b, n)
  {
  }

  lemma OnlySubmitsAdd(b: Books, n: Note)
    requires CanNote(b, n) && !n.Submits? && !n.Replies?
    ensures Added(b, n) == multiset{}
  {
  }

  lemma DeskKept(b: Books, n: Note)
    requires CanNote(b, n) && DeskInv(b.desk)
    ensures DeskInv(Noted(b, n).desk)
  {
    match n
    case Answers(p) => AnswerKeeps(b.desk, p);
    case Remembers(d, m) => RememberKeeps(b.desk, d, m);
    case Returns(d, answer) => ReturnKeeps(b.desk, d, answer);
    case Decides(d) => DecideKeeps(b.desk, d);
    case Replies(d) => RepliedKeeps(b.desk, d);
    case _ =>
  }

  /** The automatic reply to delivery `d`, among other messages. */
  function IsReplyTo(d: nat): Post -> bool {
    (p: Post) => p.origin == Automatic(d)
  }

  ghost predicate ReplyAmong(posts: seq<Post>, d: nat) {
    exists p :: p in posts && IsReplyTo(d)(p)
  }

  /** Done, with an automatic reply chosen. */
  ghost predicate RepliedFor(k: Desk, d: nat) {
    At(k, d, Done) && k.jobs[d].chosen
  }

  /** One automatic reply was submitted for each delivery that is done and was chosen for
      one, and none for any other. */
  ghost predicate RepliesSubmitted(b: Books, d: nat) {
    AtMostOne(b.submitted, IsReplyTo(d)) && (ReplyAmong(b.submitted, d) <==> RepliedFor(b.desk, d))
  }

  ghost predicate BooksInv(b: Books) {
    DeskInv(b.desk) && forall d: nat :: RepliesSubmitted(b, d)
  }

  lemma OtherNotesReplyNothing(b: Books, n: Note, d: nat)
    requires CanNote(b, n) && DeskInv(b.desk) && !n.Replies?
    ensures RepliedFor(Noted(b, n).desk, d) <==> RepliedFor(b.desk, d)
  {
    match n
    case Remembers(e, m) => assert e !in b.desk.jobs;
    case Returns(e, _) => assert JobInv(b.desk, b.desk.jobs[e]);
    case Decides(e) => assert JobInv(b.desk, b.desk.jobs[e]);
    case _ =>
  }

  lemma OneMoreSubmitted(submitted: seq<Post>, p: Post, d: nat)
    requires AtMostOne(submitted, IsReplyTo(d))
    requires IsReplyTo(d)(p) ==> !ReplyAmong(submitted, d)
    ensures AtMostOne(submitted + [p], IsReplyTo(d))
    ensures ReplyAmong(submitted + [p], d) <==> IsReplyTo(d)(p) || ReplyAmong(submitted, d)
  {
    var t := submitted + [p];
    assert forall i :: 0 <= i < |submitted| ==> t[i] == submitted[i] && submitted[i] in submitted;
    assert p in t && forall q :: q in submitted ==> q in t;
  }

  lemma RepliedNow(k: Desk, e: nat, d: nat)
    requires At(k, e, Replying) && JobInv(k, k.jobs[e])
    ensures !RepliedFor(k, e)
    ensures RepliedFor(Replied(k, e), d) <==> d == e || RepliedFor(k, d)
  {
  }

  lemma NoteSubmits(b: Books, n: Note, d: nat)
    requires CanNote(b, n) && DeskInv(b.desk) && RepliesSubmitted(b, d)
    ensures RepliesSubmitted(Noted(b, n), d)
  {
    match n
    case Replies(e) =>
      assert JobInv(b.desk, b.desk.jobs[e]);
      RepliedNow(b.desk, e, d);
      OneMoreSubmitted(b.submitted, ReplyTo(b.desk, e), d);
    case Submits(p) => OneMoreSubmitted(b.submitted, p, d);
    case _ => OtherNotesReplyNothing(b, n, d);
  }

  lemma NoteKeeps(b: Books, n: Note)
    requires CanNote(b, n) && BooksInv(b)
    ensures BooksInv(Noted(b, n))
  {
    DeskKept(b, n);
    forall d: nat ensures RepliesSubmitted(Noted(b, n), d) {
      assert RepliesSubmitted(b, d);
      NoteSubmits(b, n, d);
    }
  }

  /** A delivery that is done got its automatic reply if and only if the callback returned a
      response and every publish that answered the id did so after the check. */
  lemma ReplyExactly(b: Books, d: nat)
    requires BooksInv(b) && At(b.desk, d, Done)
    ensures var job := b.desk.jobs[d];
            job.decided.Some? && (ReplyAmong(b.submitted, d) <==> job.answer.Some? && AnsweredOnlyAfter(b.desk, job))
  {
    assert RepliesSubmitted(b, d) && JobInv(b.desk, b.desk.jobs[d]);
    ChosenExactly(b.desk, d);
  }

  /** A first delivery whose response is chosen. */
  lemma DeskToReplying(m: Delivery, resp: Message)
    requires NeedsReply(m)
    ensures var k := Remember(EMPTY_DESK, 0, m);
            && At(k, 0, Handling) && At(Return(k, 0, Some(resp)), 0, Returned)
            && Decide(Return(k, 0, Some(resp)), 0)
               == Desk(map[m.correlationId := 0], [], map[0 := Job(m, Replying, Some(resp), 0, Some(0), true)])
  {
  }

  /** The i-th answer is the first to the delivery. */
  ghost predicate FirstAnswer(k: Desk, job: Job, i: nat) {
    && job.since <= i < |k.answers| && k.answers[i].pm.correlationId == job.m.correlationId
    && Unanswered(k, job.m.correlationId, job.since, i)
  }

  /** One message, say of the callback itself, that is the first to answer a delivery with a
      response: the automatic reply comes besides it if and only if it answers after the check. */
  lemma DoubledExactly(b: Books, d: nat, i: nat)
    requires BooksInv(b) && At(b.desk, d, Done) && b.desk.jobs[d].answer.Some?
    requires FirstAnswer(b.desk, b.desk.jobs[d], i)
    ensures b.desk.jobs[d].decided.Some?
    ensures ReplyAmong(b.submitted, d) <==> b.desk.jobs[d].decided.value <= i
  {
    ReplyExactly(b, d);
    var k := b.desk;
    assert AnsweredOnlyAfter(k, k.jobs[d]) <==> k.jobs[d].decided.value <= i;
  }
}
