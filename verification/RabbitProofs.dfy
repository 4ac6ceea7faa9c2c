/** Safety of the RabbitMQ client over every interleaving of its goroutines
    (mq/rabbitmq/rabbitmq.go): the run loop, which takes messages from the buffered channel
    `Publish`, loses and restores the connection; and the courier, which handles the deliveries
    one after the other and publishes the automatic replies itself. */
module RabbitProofs {
  import opened AutoReplies
  import opened MqEnv
  import opened Options
  import opened Sequences

  // ---------------------------------------------------------------------------
  // The machine
  // ---------------------------------------------------------------------------

  /** The capacity of the channel `Publish`: 512 unless it has been set. */
  type ChannelSize = n: nat | 1 <= n <= 65536 witness 512

  /** What the client was made with. */
  datatype Config = Config(broadcast: bool, channelSize: ChannelSize)

  /** How far a publish has come: it looks at the channel of the broker, and then appends to
      the buffer; or it declares the queue when there is none, hands the message over, and
      answers. */
  datatype Phase = Looking | Appending | Declaring | Emitting | Answering

  datatype Task = Task(post: Post, phase: Phase)

  /** Both goroutines publish; the front of a list of tasks is the one under way, and declaring
      the queue puts the messages of the buffer in front. */
  datatype Worker = Loop | Courier

  datatype Client = Client(
    conn: bool,
    channel: bool,
    queue: string,
    inbox: seq<Post>,
    pending: seq<Post>,
    sent: seq<Post>,
    lost: seq<Post>,
    loop: seq<Task>,
    courier: seq<Task>,
    books: Books)

  datatype Act =
    | Submit(p: Post)
    | Take
    | Look(w: Worker)
    | Append(w: Worker)
    | Declare(w: Worker, name: Option<string>)
    | Emit(w: Worker, accepted: bool)
    | Finish(w: Worker)
    | Connected
    | QueueDeclared(name: Option<string>)
    | Dropped
    | Reset
    | FoundClosed
    | Deliver(d: nat, m: Delivery)
    | CallbackReturns(d: nat, answer: Option<Message>)
    | Check(d: nat)
    | Reply(d: nat)

  function Tasks(c: Client, w: Worker): seq<Task> {
    if w.Loop? then c.loop else c.courier
  }

  function WithTasks(c: Client, w: Worker, ts: seq<Task>): Client {
    if w.Loop? then c.(loop := ts) else c.(courier := ts)
  }

  predicate In(c: Client, w: Worker, phase: Phase) {
    Tasks(c, w) != [] && Tasks(c, w)[0].phase == phase
  }

  /** No delivery is being handled. */
  ghost predicate CourierFree(c: Client) {
    c.courier == [] && forall d :: d in c.books.desk.jobs ==> c.books.desk.jobs[d].stage == Done
  }

  function NoteOf(c: Client, a: Act): Note {
    match a
    case Submit(p) => Submits(p)
    case Finish(w) => if In(c, w, Answering) then Answers(Tasks(c, w)[0].post) else Nothing
    case Deliver(d, m) => Remembers(d, m)
    case CallbackReturns(d, answer) => Returns(d, answer)
    case Check(d) => Decides(d)
    case Reply(d) => Replies(d)
    case _ => Nothing
  }

  /** The connection is only touched by the run loop between its publishes, and by whoever
      fails to declare the queue; a broker channel that is gone takes nothing. */
  ghost predicate CanAct(c: Client, config: Config, a: Act) {
    && CanNote(c.books, NoteOf(c, a))
    && match a
       case Submit(_) => |c.inbox| < config.channelSize
       case Take => c.loop == [] && c.inbox != []
       case Look(w) => In(c, w, Looking)
       case Append(w) => In(c, w, Appending)
       case Declare(w, name) => In(c, w, Declaring) && name != Some("")
       case Emit(w, accepted) => In(c, w, Emitting) && (accepted ==> c.channel)
       case Finish(w) => In(c, w, Answering)
       case Connected => c.loop == []
       case QueueDeclared(name) => c.loop == [] && c.conn && c.channel && name != Some("")
       case Dropped => c.loop == []
       case Reset => c.loop == []
       case FoundClosed => c.loop == []
       case Deliver(_, _) => CourierFree(c)
       case Reply(_) => c.courier == []
       case _ => true
  }

  function Lookers(posts: seq<Post>): seq<Task> {
    if posts == [] then [] else Lookers(posts[..|posts| - 1]) + [Task(posts[|posts| - 1], Looking)]
  }

  function Looked(c: Client, config: Config): Phase {
    if !c.channel then Appending else if c.queue == "" && !config.broadcast then Declaring else Emitting
  }

  /** Where the messages go. */
  function Moved(c: Client, config: Config, a: Act): Client
    requires a.Take? ==> c.inbox != []
    requires a.Look? || a.Append? || a.Declare? || a.Emit? || a.Finish? ==> Tasks(c, a.w) != []
    requires a.Reply? ==> CanNote(c.books, Replies(a.d))
  {
    match a
    case Submit(p) => c.(inbox := c.inbox + [p])
    case Take => c.(inbox := c.inbox[1..], loop := [Task(c.inbox[0], Looking)])
    case Look(w) => WithTasks(c, w, [Task(Tasks(c, w)[0].post, Looked(c, config))] + Tasks(c, w)[1..])
    case Append(w) => WithTasks(c, w, Tasks(c, w)[1..]).(pending := c.pending + [Tasks(c, w)[0].post])
    case Declare(w, name) =>
      var post, rest := Tasks(c, w)[0].post, Tasks(c, w)[1..];
      if !c.conn then WithTasks(c, w, rest).(lost := c.lost + [post])
      else if name.None? then WithTasks(c, w, rest).(conn := false, channel := false, lost := c.lost + [post])
      else WithTasks(c, w, Lookers(c.pending) + ([Task(post, Emitting)] + rest)).(queue := name.value, pending := [])
    case Emit(w, accepted) =>
      var post := Tasks(c, w)[0].post;
      var t := WithTasks(c, w, [Task(post, Answering)] + Tasks(c, w)[1..]);
      if accepted then t.(sent := c.sent + [post]) else t.(lost := c.lost + [post])
    case Finish(w) => WithTasks(c, w, Tasks(c, w)[1..])
    case Connected => c.(conn := true, channel := true)
    case QueueDeclared(name) =>
      if name.None? then c.(conn := false, channel := false)
      else c.(queue := name.value, pending := [], loop := Lookers(c.pending))
    case Dropped => c.(conn := false, channel := false, queue := "")
    case Reset => c.(conn := false, channel := false)
    case FoundClosed => c.(conn := false, queue := "")
    case Reply(d) => c.(courier := [Task(ReplyTo(c.books.desk, d), Looking)])
    case _ => c
  }

  ghost function Do(c: Client, config: Config, a: Act): Client
    requires CanAct(c, config, a)
  {
    Moved(c, config, a).(books := Noted(c.books, NoteOf(c, a)))
  }

  const FRESH := Client(false, false, "", [], [], [], [], [], [], EMPTY_BOOKS)

  ghost function DoAll(config: Config, acts: seq<Act>): Option<Client> {
    if acts == [] then Some(FRESH)
    else
      var front := DoAll(config, acts[..|acts| - 1]);
      if front.Some? && CanAct(front.value, config, acts[|acts| - 1])
      then Some(Do(front.value, config, acts[|acts| - 1])) else None
  }

  // ---------------------------------------------------------------------------
  // Conservation
  // ---------------------------------------------------------------------------

  /** The messages in the hands of a worker: those of its tasks that have not been handed over. */
  function Carried(ts: seq<Task>): multiset<Post> {
    if ts == [] then multiset{}
    else (if ts[0].phase.Answering? then multiset{} else multiset{ts[0].post}) + Carried(ts[1..])
  }

  lemma {:induction false} CarriedConcat(a: seq<Task>, b: seq<Task>)
    ensures Carried(a + b) == Carried(a) + Carried(b)
  {
    if a == [] {
      assert a + b == b;
    } else {
      assert (a + b)[1..] == a[1..] + b;
      CarriedConcat(a[1..], b);
    }
  }

  lemma {:induction false} LookersCarry(posts: seq<Post>)
    ensures Carried(Lookers(posts)) == multiset(posts)
  {
    if posts != [] {
      var front, last := posts[..|posts| - 1], posts[|posts| - 1];
      LookersCarry(front);
      CarriedConcat(Lookers(front), [Task(last, Looking)]);
      assert Carried([Task(last, Looking)]) == multiset{last};
      assert posts == front + [last];
    }
  }

  /** Replacing the task under way. */
  lemma CarriedHead(t: Task, rest: seq<Task>)
    ensures Carried([t] + rest) == (if t.phase.Answering? then multiset{} else multiset{t.post}) + Carried(rest)
  {
    assert ([t] + rest)[1..] == rest;
  }

  function Shelved(c: Client): multiset<Post> {
    multiset(c.inbox) + multiset(c.pending) + multiset(c.sent) + multiset(c.lost)
  }

  function Places(c: Client): multiset<Post> {
    Shelved(c) + Carried(c.loop) + Carried(c.courier)
  }

  /** A worker with new tasks: what they carry less makes up for what is shelved more. */
  lemma Exchanged(c: Client, w: Worker, t: Client, ts: seq<Task>, more: multiset<Post>)
    requires t.loop == WithTasks(c, w, ts).loop && t.courier == WithTasks(c, w, ts).courier
    requires Shelved(t) == Shelved(c) + more && Carried(Tasks(c, w)) == Carried(ts) + more
    ensures Places(t) == Places(c)
  {
  }

  lemma HeadSplits(ts: seq<Task>)
    requires ts != []
    ensures Carried(ts) == (if ts[0].phase.Answering? then multiset{} else multiset{ts[0].post}) + Carried(ts[1..])
  {
  }

  lemma LookConserves(c: Client, config: Config, w: Worker)
    requires CanAct(c, config, Look(w))
    ensures Places(Moved(c, config, Look(w))) == Places(c)
  {
    var ts := Tasks(c, w);
    HeadSplits(ts);
    CarriedHead(Task(ts[0].post, Looked(c, config)), ts[1..]);
    Exchanged(c, w, Moved(c, config, Look(w)), [Task(ts[0].post, Looked(c, config))] + ts[1..], multiset{});
  }

  lemma AppendConserves(c: Client, config: Config, w: Worker)
    requires CanAct(c, config, Append(w))
    ensures Places(Moved(c, config, Append(w))) == Places(c)
  {
    var ts, t := Tasks(c, w), Moved(c, config, Append(w));
    HeadSplits(ts);
    OneMoreShelved(WithTasks(c, w, ts[1..]), ts[0].post);
    Exchanged(c, w, t, ts[1..], multiset{ts[0].post});
  }

  lemma OneMoreShelved(c: Client, post: Post)
    ensures Shelved(c.(sent := c.sent + [post])) == Shelved(c) + multiset{post}
    ensures Shelved(c.(lost := c.lost + [post])) == Shelved(c) + multiset{post}
    ensures Shelved(c.(pending := c.pending + [post])) == Shelved(c) + multiset{post}
  {
  }

  lemma EmitConserves(c: Client, config: Config, w: Worker, accepted: bool)
    requires CanAct(c, config, Emit(w, accepted))
    ensures Places(Moved(c, config, Emit(w, accepted))) == Places(c)
  {
    var ts, t := Tasks(c, w), Moved(c, config, Emit(w, accepted));
    HeadSplits(ts);
    CarriedHead(Task(ts[0].post, Answering), ts[1..]);
    OneMoreShelved(WithTasks(c, w, [Task(ts[0].post, Answering)] + ts[1..]), ts[0].post);
    Exchanged(c, w, t, [Task(ts[0].post, Answering)] + ts[1..], multiset{ts[0].post});
  }

  lemma FinishConserves(c: Client, config: Config, w: Worker)
    requires CanAct(c, config, Finish(w))
    ensures Places(Moved(c, config, Finish(w))) == Places(c)
  {
    HeadSplits(Tasks(c, w));
    Exchanged(c, w, Moved(c, config, Finish(w)), Tasks(c, w)[1..], multiset{});
  }

  lemma DeclareRefusedConserves(c: Client, config: Config, w: Worker, name: Option<string>)
    requires CanAct(c, config, Declare(w, name)) && (!c.conn || name.None?)
    ensures Places(Moved(c, config, Declare(w, name))) == Places(c)
  {
    var ts, t := Tasks(c, w), Moved(c, config, Declare(w, name));
    HeadSplits(ts);
    OneMoreShelved(WithTasks(c, w, ts[1..]), ts[0].post);
    Exchanged(c, w, t, ts[1..], multiset{ts[0].post});
  }

  /** What the declaring worker carries when the buffer is put in front of its message. */
  lemma FlushCarries(pending: seq<Post>, post: Post, rest: seq<Task>)
    ensures Carried(Lookers(pending) + ([Task(post, Emitting)] + rest)) == multiset(pending) + multiset{post} + Carried(rest)
  {
    CarriedHead(Task(post, Emitting), rest);
    CarriedConcat(Lookers(pending), [Task(post, Emitting)] + rest);
    LookersCarry(pending);
  }

  lemma FlushedShelves(c: Client, t: Client)
    requires t.inbox == c.inbox && t.sent == c.sent && t.lost == c.lost && t.pending == []
    ensures Shelved(c) == Shelved(t) + multiset(c.pending)
  {
  }

  lemma DeclareConserves(c: Client, config: Config, w: Worker, name: Option<string>)
    requires CanAct(c, config, Declare(w, name)) && c.conn && name.Some?
    ensures Places(Moved(c, config, Declare(w, name))) == Places(c)
  {
    var ts, t := Tasks(c, w), Moved(c, config, Declare(w, name));
    HeadSplits(ts);
    FlushCarries(c.pending, ts[0].post, ts[1..]);
    FlushedShelves(c, t);
    assert Tasks(t, w) == Lookers(c.pending) + ([Task(ts[0].post, Emitting)] + ts[1..]);
    Exchanged(t, w, c, ts, multiset(c.pending));
  }

  lemma QueueDeclaredConserves(c: Client, config: Config, name: Option<string>)
    requires CanAct(c, config, QueueDeclared(name))
    ensures Places(Moved(c, config, QueueDeclared(name))) == Places(c)
  {
    LookersCarry(c.pending);
  }

  lemma BooksElsewhere(c: Client, b: Books)
    ensures Places(c.(books := b)) == Places(c)
  {
  }

  ghost predicate Conserved(c: Client) {
    multiset(c.books.submitted) == Places(c)
  }

  /** The front of the channel goes to the run loop. */
  lemma TakenFrom(inbox: seq<Post>)
    requires inbox != []
    ensures multiset(inbox) == multiset(inbox[1..]) + Carried([Task(inbox[0], Looking)])
  {
    assert inbox == [inbox[0]] + inbox[1..];
    CarriedHead(Task(inbox[0], Looking), []);
    assert [Task(inbox[0], Looking)] + [] == [Task(inbox[0], Looking)];
  }

  lemma TakeConserves(c: Client, config: Config)
    requires CanAct(c, config, Take)
    ensures Places(Moved(c, config, Take)) == Places(c)
  {
    TakenFrom(c.inbox);
  }

  lemma SubmitConserves(c: Client, config: Config, p: Post)
    ensures Places(Moved(c, config, Submit(p))) == Places(c) + multiset{p}
  {
    assert multiset(c.inbox + [p]) == multiset(c.inbox) + multiset{p};
  }

  lemma ReplyConserves(c: Client, config: Config, d: nat)
    requires CanAct(c, config, Reply(d))
    ensures Places(Moved(c, config, Reply(d))) == Places(c) + multiset{ReplyTo(c.books.desk, d)}
  {
    var task := Task(ReplyTo(c.books.desk, d), Looking);
    CarriedHead(task, []);
    assert [task] + [] == [task];
  }

  /** Losing and restoring the connection, and the acts of the courier between its publishes,
      leave every message where it is. */
  lemma NothingMoves(c: Client, config: Config, a: Act)
    requires a.Connected? || a.Dropped? || a.Reset? || a.FoundClosed? || a.Deliver? || a.CallbackReturns? || a.Check?
    ensures var t := Moved(c, config, a);
            && t.inbox == c.inbox && t.pending == c.pending && t.sent == c.sent && t.lost == c.lost
            && t.loop == c.loop && t.courier == c.courier
  {
  }

  /** The acts of a publish under way move its message, and the buffer when it is flushed. */
  lemma WorkConserves(c: Client, config: Config, a: Act)
    requires CanAct(c, config, a) && (a.Look? || a.Append? || a.Emit? || a.Finish? || a.Declare?)
    ensures Places(Moved(c, config, a)) == Places(c)
  {
    match a
    case Look(w) => LookConserves(c, config, w);
    case Append(w) => AppendConserves(c, config, w);
    case Emit(w, accepted) => EmitConserves(c, config, w, accepted);
    case Finish(w) => FinishConserves(c, config, w);
    case Declare(w, name) =>
      if c.conn && name.Some? {
        DeclareConserves(c, config, w, name);
      } else {
        DeclareRefusedConserves(c, config, w, name);
      }
  }

  lemma QuietConserves(c: Client, config: Config, a: Act)
    requires CanAct(c, config, a) && !(a.Look? || a.Append? || a.Emit? || a.Finish? || a.Declare? || a.Submit? || a.Reply?)
    ensures Places(Moved(c, config, a)) == Places(c)
  {
    match a
    case Take => TakeConserves(c, config);
    case QueueDeclared(name) => QueueDeclaredConserves(c, config, name);
    case _ => NothingMoves(c, config, a);
  }

  /** An act that moves messages only from place to place. */
  lemma StaysConserved(c: Client, config: Config, a: Act)
    requires Conserved(c) && CanAct(c, config, a) && !a.Submit? && !a.Reply?
    requires Places(Moved(c, config, a)) == Places(c)
    ensures Conserved(Do(c, config, a))
  {
    NotedAdds(c.books, NoteOf(c, a));
    OnlySubmitsAdd(c.books, NoteOf(c, a));
    BooksElsewhere(Moved(c, config, a), Noted(c.books, NoteOf(c, a)));
  }

  lemma DoSubmitConserves(c: Client, config: Config, p: Post)
    requires Conserved(c) && CanAct(c, config, Submit(p))
    ensures Conserved(Do(c, config, Submit(p)))
  {
    SubmitConserves(c, config, p);
    NotedAdds(c.books, Submits(p));
    BooksElsewhere(Moved(c, config, Submit(p)), Noted(c.books, Submits(p)));
  }

  lemma DoReplyConserves(c: Client, config: Config, d: nat)
    requires Conserved(c) && CanAct(c, config, Reply(d))
    ensures Conserved(Do(c, config, Reply(d)))
  {
    ReplyConserves(c, config, d);
    NotedAdds(c.books, Replies(d));
    BooksElsewhere(Moved(c, config, Reply(d)), Noted(c.books, Replies(d)));
  }

  lemma DoConserves(c: Client, config: Config, a: Act)
    requires Conserved(c) && CanAct(c, config, a)
    ensures Conserved(Do(c, config, a))
  {
    if a.Submit? {
      DoSubmitConserves(c, config, a.p);
    } else if a.Reply? {
      DoReplyConserves(c, config, a.d);
    } else {
      if a.Look? || a.Append? || a.Emit? || a.Finish? || a.Declare? {
        WorkConserves(c, config, a);
      } else {
        QuietConserves(c, config, a);
      }
      StaysConserved(c, config, a);
    }
  }

  /** In every interleaving of the run loop and the courier, over any series of disconnects,
      reconnects and flushes, every message submitted, automatic replies included, is in exactly
      one place: in the channel `Publish`, sent, refused, buffered, or in the hands of one of
      the two. */
  lemma {:induction false} MessagesConserved(config: Config, acts: seq<Act>)
    ensures DoAll(config, acts).Some? ==> Conserved(DoAll(config, acts).value)
  {
    if acts != [] {
      MessagesConserved(config, acts[..|acts| - 1]);
      var front, a := DoAll(config, acts[..|acts| - 1]), acts[|acts| - 1];
      if front.Some? && CanAct(front.value, config, a) {
        DoConserves(front.value, config, a);
      }
    }
  }

  // ---------------------------------------------------------------------------
  // The automatic reply
  // ---------------------------------------------------------------------------

  lemma {:induction false} BooksKept(config: Config, acts: seq<Act>)
    ensures DoAll(config, acts).Some? ==> BooksInv(DoAll(config, acts).value.books)
  {
    if acts != [] {
      BooksKept(config, acts[..|acts| - 1]);
      var front, a := DoAll(config, acts[..|acts| - 1]), acts[|acts| - 1];
      if front.Some? && CanAct(front.value, config, a) {
        NoteKeeps(front.value.books, NoteOf(front.value, a));
      }
    }
  }

  /** In every interleaving, with distinct request ids, the automatic reply to a delivery is
      handed to the broker or buffered at most once. */
  lemma AutomaticReplyAtMostOnce(config: Config, acts: seq<Act>, d: nat)
    requires DoAll(config, acts).Some?
    ensures var c := DoAll(config, acts).value; AtMostOne(c.sent + c.lost + c.pending, IsReplyTo(d))
  {
    var c := DoAll(config, acts).value;
    MessagesConserved(config, acts);
    BooksKept(config, acts);
    assert RepliesSubmitted(c.books, d);
    assert multiset(c.sent + c.lost + c.pending) <= Places(c);
    AtMostOneOfPart(c.sent + c.lost + c.pending, c.books.submitted, IsReplyTo(d));
  }

  /** Exactly when it is published, in every interleaving: a delivery that is done got its
      automatic reply if and only if the callback returned a response and every publish that
      answered the id did so after the check. What the callback has put into the channel counts
      from the moment the run loop has published it, taken by the broker or not. */
  lemma AutomaticReplyExactly(config: Config, acts: seq<Act>, d: nat)
    requires DoAll(config, acts).Some? && At(DoAll(config, acts).value.books.desk, d, Done)
    ensures var b := DoAll(config, acts).value.books;
            var job := b.desk.jobs[d];
            job.decided.Some? && (ReplyAmong(b.submitted, d) <==> job.answer.Some? && AnsweredOnlyAfter(b.desk, job))
  {
    BooksKept(config, acts);
    ReplyExactly(DoAll(config, acts).value.books, d);
  }

  /** The first message that answers a delivery with a response is joined by the automatic
      reply if and only if it answers after the check. */
  lemma ReplyDoubledExactly(config: Config, acts: seq<Act>, d: nat, i: nat)
    requires DoAll(config, acts).Some? && At(DoAll(config, acts).value.books.desk, d, Done)
    requires var k := DoAll(config, acts).value.books.desk; k.jobs[d].answer.Some? && FirstAnswer(k, k.jobs[d], i)
    ensures var b := DoAll(config, acts).value.books;
            b.desk.jobs[d].decided.Some? && (ReplyAmong(b.submitted, d) <==> b.desk.jobs[d].decided.value <= i)
  {
    BooksKept(config, acts);
    DoubledExactly(DoAll(config, acts).value.books, d, i);
  }

  // ---------------------------------------------------------------------------
  // No response is forgotten
  // ---------------------------------------------------------------------------

  /** The message has been handed to the broker, taken or not. */
  predicate Handed(c: Client, p: Post) {
    p in c.sent || p in c.lost
  }

  /** Nothing answers, or is about to, that has not been handed over. */
  ghost predicate AnswersHanded(c: Client) {
    && (forall p :: p in c.books.desk.answers ==> Handed(c, p))
    && forall w: Worker, t :: t in Tasks(c, w) && t.phase.Answering? ==> Handed(c, t.post)
  }

  lemma LookersLook(posts: seq<Post>)
    ensures forall t :: t in Lookers(posts) ==> t.phase == Looking
  {
  }

  lemma StillHanded(c: Client, config: Config, a: Act, p: Post)
    requires CanAct(c, config, a) && Handed(c, p)
    ensures Handed(Moved(c, config, a), p)
  {
  }

  /** A task that is about to answer has been before, but for the one just handed over. */
  lemma AnsweringBefore(c: Client, config: Config, a: Act, w: Worker, t: Task)
    requires CanAct(c, config, a) && !a.Emit? && t in Tasks(Moved(c, config, a), w) && t.phase.Answering?
    ensures t in Tasks(c, w)
  {
    LookersLook(c.pending);
  }

  lemma TasksHanded(c: Client, config: Config, a: Act, w: Worker, t: Task)
    requires AnswersHanded(c) && CanAct(c, config, a) && t in Tasks(Moved(c, config, a), w) && t.phase.Answering?
    ensures Handed(Moved(c, config, a), t.post)
  {
    if a.Emit? {
      EmitHands(c, config, a.w, a.accepted, w, t);
    } else {
      AnsweringBefore(c, config, a, w, t);
      StillHanded(c, config, a, t.post);
    }
  }

  lemma EmitHands(c: Client, config: Config, v: Worker, accepted: bool, w: Worker, t: Task)
    requires AnswersHanded(c) && CanAct(c, config, Emit(v, accepted)) && t.phase.Answering?
    requires t in Tasks(Moved(c, config, Emit(v, accepted)), w)
    ensures Handed(Moved(c, config, Emit(v, accepted)), t.post)
  {
    if t in Tasks(c, w) {
      StillHanded(c, config, Emit(v, accepted), t.post);
    } else {
      assert t == Task(Tasks(c, v)[0].post, Answering);
    }
  }

  lemma ActHands(c: Client, config: Config, a: Act)
    requires AnswersHanded(c) && CanAct(c, config, a)
    ensures AnswersHanded(Do(c, config, a))
  {
    var t := Do(c, config, a);
    forall w: Worker, task | task in Tasks(t, w) && task.phase.Answering? ensures Handed(t, task.post) {
      TasksHanded(c, config, a, w, task);
    }
    forall p | p in t.books.desk.answers ensures Handed(t, p) {
      AnswersGrow(c, config, a, p);
    }
  }

  lemma AnswersGrow(c: Client, config: Config, a: Act, p: Post)
    requires AnswersHanded(c) && CanAct(c, config, a) && p in Noted(c.books, NoteOf(c, a)).desk.answers
    ensures Handed(Moved(c, config, a), p)
  {
    if p !in c.books.desk.answers {
      assert a.Finish? && p == Tasks(c, a.w)[0].post && Tasks(c, a.w)[0] in Tasks(c, a.w);
    }
  }

  lemma {:induction false} AnswersAreHanded(config: Config, acts: seq<Act>)
    ensures DoAll(config, acts).Some? ==> AnswersHanded(DoAll(config, acts).value)
  {
    if acts != [] {
      AnswersAreHanded(config, acts[..|acts| - 1]);
      var front, a := DoAll(config, acts[..|acts| - 1]), acts[|acts| - 1];
      if front.Some? && CanAct(front.value, config, a) {
        ActHands(front.value, config, a);
      }
    }
  }

  /** The message carries the id of the delivery, or is the automatic reply to it. */
  predicate RepliesTo(c: Client, d: nat, p: Post)
    requires d in c.books.desk.jobs
  {
    p.pm.correlationId == c.books.desk.jobs[d].m.correlationId || IsReplyTo(d)(p)
  }

  ghost predicate Quiet(c: Client) {
    c.inbox == [] && c.pending == [] && c.loop == [] && c.courier == []
  }

  /** In every interleaving, whatever happens to the channel, the queue and the connection
      meanwhile, once nothing is under way or buffered any more: for a delivery that is done and
      had a response some reply was published, and one was sent if and only if the broker has
      not refused them all. */
  lemma UnansweredOnlyIfRefused(config: Config, acts: seq<Act>, d: nat)
    requires DoAll(config, acts).Some? && Quiet(DoAll(config, acts).value)
    requires At(DoAll(config, acts).value.books.desk, d, Done) && DoAll(config, acts).value.books.desk.jobs[d].answer.Some?
    ensures var c := DoAll(config, acts).value;
            && (exists p :: p in c.books.submitted && RepliesTo(c, d, p))
            && ((exists p :: p in c.sent && RepliesTo(c, d, p)) <==>
                exists p :: p in c.books.submitted && RepliesTo(c, d, p) && multiset(c.lost)[p] < multiset(c.books.submitted)[p])
  {
    var c := DoAll(config, acts).value;
    MessagesConserved(config, acts);
    assert multiset(c.books.submitted) == multiset(c.sent) + multiset(c.lost);
    SomeReplyPublished(config, acts, d);
    SentMeansNotAllRefused(c.books.submitted, c.sent, c.lost);
  }

  lemma SentMeansNotAllRefused(submitted: seq<Post>, sent: seq<Post>, lost: seq<Post>)
    requires multiset(submitted) == multiset(sent) + multiset(lost)
    ensures forall p :: p in sent <==> p in submitted && multiset(lost)[p] < multiset(submitted)[p]
  {
    forall p ensures p in sent <==> p in submitted && multiset(lost)[p] < multiset(submitted)[p] {
      assert multiset(submitted)[p] == multiset(sent)[p] + multiset(lost)[p];
    }
  }

  lemma SomeReplyPublished(config: Config, acts: seq<Act>, d: nat)
    requires DoAll(config, acts).Some?
    requires At(DoAll(config, acts).value.books.desk, d, Done) && DoAll(config, acts).value.books.desk.jobs[d].answer.Some?
    ensures var c := DoAll(config, acts).value; exists p :: p in c.books.submitted && RepliesTo(c, d, p)
  {
    var c := DoAll(config, acts).value;
    BooksKept(config, acts);
    ReplyExactly(c.books, d);
    if ReplyAmong(c.books.submitted, d) {
      var p :| p in c.books.submitted && IsReplyTo(d)(p);
      assert RepliesTo(c, d, p);
    } else {
      var k := c.books.desk;
      var i :| 0 <= i < |k.answers| && k.answers[i].pm.correlationId == k.jobs[d].m.correlationId;
      AnswersAreHanded(config, acts);
      MessagesConserved(config, acts);
      HandedWasSubmitted(c, k.answers[i]);
    }
  }

  lemma HandedWasSubmitted(c: Client, p: Post)
    requires Conserved(c) && Handed(c, p)
    ensures p in c.books.submitted
  {
    assert p in multiset(c.sent) || p in multiset(c.lost);
    assert p in multiset(c.books.submitted);
  }

  lemma DoAllSnoc(config: Config, acts: seq<Act>, a: Act)
    requires DoAll(config, acts).Some? && CanAct(DoAll(config, acts).value, config, a)
    ensures DoAll(config, acts + [a]) == Some(Do(DoAll(config, acts).value, config, a))
  {
    assert (acts + [a])[..|acts|] == acts;
  }

  /** The callback puts `own` into the channel and returns `resp`; the check is made before
      the run loop takes `own` out. */
  function UpToCheck(m: Delivery, own: Message, resp: Message): seq<Act> {
    [Connected] + [QueueDeclared(Some("q"))] + [Deliver(0, m)] + [Submit(Post(own, Callback(0)))]
    + [CallbackReturns(0, Some(resp))] + [Check(0)]
  }

  /** The client after that. */
  function BothToCome(m: Delivery, own: Message, resp: Message): Client {
    var p := Post(own, Callback(0));
    Client(true, true, "q", [p], [], [], [], [], [],
           Books([p], Desk(map[m.correlationId := 0], [], map[0 := Job(m, Replying, Some(resp), 0, Some(0), true)])))
  }

  lemma ReachesOpen(config: Config)
    ensures DoAll(config, [Connected] + [QueueDeclared(Some("q"))])
            == Some(FRESH.(conn := true, channel := true, queue := "q"))
  {
    DoAllSnoc(config, [], Connected);
    assert [] + [Connected] == [Connected];
    DoAllSnoc(config, [Connected], QueueDeclared(Some("q")));
  }

  lemma ReachesCallback(config: Config, m: Delivery, p: Post)
    requires NeedsReply(m) && p.origin == Callback(0)
    ensures DoAll(config, [Connected] + [QueueDeclared(Some("q"))] + [Deliver(0, m)] + [Submit(p)])
            == Some(FRESH.(conn := true, channel := true, queue := "q", inbox := [p],
                           books := Books([p], Remember(EMPTY_DESK, 0, m))))
  {
    var acts := [Connected] + [QueueDeclared(Some("q"))];
    ReachesOpen(config);
    DoAllSnoc(config, acts, Deliver(0, m));
    var room: ChannelSize := config.channelSize;
    DoAllSnoc(config, acts + [Deliver(0, m)], Submit(p));
    assert [] + [p] == [p];
  }

  lemma ReturnsAndChecks(config: Config, acts: seq<Act>, c: Client, resp: Message)
    requires DoAll(config, acts) == Some(c)
    requires At(c.books.desk, 0, Handling) && At(Return(c.books.desk, 0, Some(resp)), 0, Returned)
    ensures DoAll(config, acts + [CallbackReturns(0, Some(resp))] + [Check(0)])
            == Some(c.(books := c.books.(desk := Decide(Return(c.books.desk, 0, Some(resp)), 0))))
  {
    DoAllSnoc(config, acts, CallbackReturns(0, Some(resp)));
    DoAllSnoc(config, acts + [CallbackReturns(0, Some(resp))], Check(0));
  }

  lemma ReachesBothToCome(config: Config, m: Delivery, own: Message, resp: Message)
    requires NeedsReply(m)
    ensures DoAll(config, UpToCheck(m, own, resp)) == Some(BothToCome(m, own, resp))
  {
    var p := Post(own, Callback(0));
    ReachesCallback(config, m, p);
    DeskToReplying(m, resp);
    ReturnsAndChecks(config, [Connected] + [QueueDeclared(Some("q"))] + [Deliver(0, m)] + [Submit(p)],
                     FRESH.(conn := true, channel := true, queue := "q", inbox := [p],
                            books := Books([p], Remember(EMPTY_DESK, 0, m))), resp);
  }

  /** A worker with one message to publish on an open channel, and a broker that takes it. */
  lemma SendsOne(config: Config, acts: seq<Act>, c: Client, w: Worker, p: Post)
    requires DoAll(config, acts) == Some(c) && c.channel && c.queue != "" && Tasks(c, w) == [Task(p, Looking)]
    ensures DoAll(config, acts + [Look(w)] + [Emit(w, true)])
            == Some(WithTasks(c, w, [Task(p, Answering)]).(sent := c.sent + [p]))
  {
    DoAllSnoc(config, acts, Look(w));
    assert [Task(p, Emitting)] + [Task(p, Looking)][1..] == [Task(p, Emitting)];
    DoAllSnoc(config, acts + [Look(w)], Emit(w, true));
    assert [Task(p, Answering)] + [Task(p, Emitting)][1..] == [Task(p, Answering)];
  }

  lemma TakesOne(config: Config, acts: seq<Act>, c: Client, p: Post)
    requires DoAll(config, acts) == Some(c) && c.loop == [] && c.inbox == [p]
    ensures DoAll(config, acts + [Take]) == Some(c.(inbox := [], loop := [Task(p, Looking)]))
  {
    DoAllSnoc(config, acts, Take);
    assert [p][1..] == [];
  }

  lemma RepliesOne(config: Config, acts: seq<Act>, c: Client)
    requires DoAll(config, acts) == Some(c) && c.channel && c.queue != "" && c.courier == []
    requires At(c.books.desk, 0, Replying) && c.books.desk.jobs[0].answer.Some?
    ensures var t := DoAll(config, acts + [Reply(0)] + [Look(Courier)] + [Emit(Courier, true)]);
            t.Some? && t.value.sent == c.sent + [ReplyTo(c.books.desk, 0)]
  {
    DoAllSnoc(config, acts, Reply(0));
    SendsOne(config, acts + [Reply(0)], Do(c, config, Reply(0)), Courier, ReplyTo(c.books.desk, 0));
  }

  /** The run in which the callback and the client both reply: the message of the callback is
      still in the channel when the check is made. */
  lemma CallbackAndClientReply(config: Config, m: Delivery, own: Message, resp: Message)
    requires NeedsReply(m)
    ensures var c := DoAll(config, UpToCheck(m, own, resp) + [Take] + [Look(Loop)] + [Emit(Loop, true)]
                                      + [Reply(0)] + [Look(Courier)] + [Emit(Courier, true)]);
            c.Some? && c.value.sent == [Post(own, Callback(0)), Post(resp.(replyTo := m.replyTo), Automatic(0))]
  {
    var acts, c, p := UpToCheck(m, own, resp), BothToCome(m, own, resp), Post(own, Callback(0));
    ReachesBothToCome(config, m, own, resp);
    TakesOne(config, acts, c, p);
    SendsOne(config, acts + [Take], c.(inbox := [], loop := [Task(p, Looking)]), Loop, p);
    assert [] + [p] == [p];
    RepliesOne(config, acts + [Take] + [Look(Loop)] + [Emit(Loop, true)],
               c.(inbox := [], loop := [Task(p, Answering)], sent := [p]));
  }
}
