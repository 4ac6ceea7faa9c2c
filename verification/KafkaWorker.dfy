/** Request and reply over Kafka (mq/kafka/kafkaWorker.go): reply channels are taken
    from a pool, entered into a waiting table under the correlation id, and given
    back after the reply. The channels are unbuffered, so handing a packet over is
    one rendezvous between the handler of the packet and the waiting request. */
module KafkaWorkers {
  import opened Options

  type Channel = nat

  datatype Packet = Packet(correlationId: string, sendTo: string, routingKey: string, replyTo: string, body: int)

  // ---------------------------------------------------------------------------
  // The worker
  // ---------------------------------------------------------------------------

  /** Where an incoming packet goes. */
  datatype Dispatch<+P> = ToRequest(ch: Channel) | ToConsumer(proxy: P) | Dropped

  /** The pool, the waiting table, and the number of channels created so far. */
  datatype Pool = Pool(available: seq<Channel>, waiting: map<string, Channel>, created: nat)

  function Obtained(p: Pool): Channel {
    if p.available == [] then p.created else p.available[|p.available| - 1]
  }

  function AfterObtain(p: Pool): Pool {
    if p.available == [] then p.(created := p.created + 1) else p.(available := p.available[..|p.available| - 1])
  }

  class KafkaWorker<P> {
    var availableChannels: seq<Channel>
    var waitResponseMessage: map<string, Channel>
    var methodRegisters: map<string, P>
    var consumerRegisters: map<string, P>
    var created: nat  // channels made so far; the next one made gets this number

    ghost function State(): Pool
      reads this
    {
      Pool(availableChannels, waitResponseMessage, created)
    }

    constructor ()
      ensures State() == Pool([], map[], 0)
    {
      availableChannels, waitResponseMessage := [], map[];
      methodRegisters, consumerRegisters := map[], map[];
      created := 0;
    }

    method ObtainChannel() returns (c: Channel)
        modifies `availableChannels, `created
      ensures c == Obtained(old(State())) && State() == AfterObtain(old(State()))
      ensures if old(availableChannels) == [] then availableChannels == [] && c == old(created) && created == c + 1
              else availableChannels + [c] == old(availableChannels) && created == old(created)
    {
      var channelLength := |availableChannels|;
      if channelLength == 0 {
        c := created;
        created := created + 1;
        return;
      }
      c := availableChannels[channelLength - 1];
      availableChannels := availableChannels[..channelLength - 1];
    }

    method RecycleChannel(c: Channel)
        modifies `availableChannels
      ensures State() == old(State()).(available := old(availableChannels) + [c])
    {
      availableChannels := availableChannels + [c];
    }

    /** The part of `Send` that enters the request into the waiting table. */
    method AwaitReply(correlationId: string, c: Channel)
        modifies `waitResponseMessage
      ensures State() == old(State()).(waiting := old(waitResponseMessage)[correlationId := c])
    {
      waitResponseMessage := waitResponseMessage[correlationId := c];
    }

    /** A reply to a waiting request leaves the table; any other packet goes to the
        consumer of its method, or else of its topic. */
    method OnMessage(packet: Packet) returns (d: Dispatch<P>)
        modifies `waitResponseMessage
      ensures State() == old(State()).(waiting := old(waitResponseMessage) - {packet.correlationId})
      ensures d.ToRequest? <==> packet.correlationId in old(waitResponseMessage)
      ensures d.ToRequest? ==> d.ch == old(waitResponseMessage)[packet.correlationId]
      ensures var key := packet.sendTo + "-" + packet.routingKey;
              !d.ToRequest? ==>
                d == if key in methodRegisters then ToConsumer(methodRegisters[key])
                     else if packet.sendTo in consumerRegisters then ToConsumer(consumerRegisters[packet.sendTo])
                     else Dropped
    {
      if packet.correlationId in waitResponseMessage {
        d := ToRequest(waitResponseMessage[packet.correlationId]);
        waitResponseMessage := waitResponseMessage - {packet.correlationId};
        return;
      }
      var key := packet.sendTo + "-" + packet.routingKey;
      if key in methodRegisters {
        d := ToConsumer(methodRegisters[key]);
      } else if packet.sendTo in consumerRegisters {
        d := ToConsumer(consumerRegisters[packet.sendTo]);
      } else {
        d := Dropped;
      }
    }
  }

  // ---------------------------------------------------------------------------
  // The protocol
  // ---------------------------------------------------------------------------

  /** How far a request has come: it took a channel, entered the waiting table and is
      sending, waits for its reply, received it, gave the channel back. */
  datatype Phase =
    | Took(ch: Channel)
    | Sending(ch: Channel)
    | Waiting(ch: Channel)
    | Got(ch: Channel, packet: Packet)
    | Finished(packet: Packet)

  datatype Request = Request(correlationId: string, phase: Phase)

  /** A packet handler blocked on `ch <- packet`. */
  datatype Transit = Transit(ch: Channel, packet: Packet)

  /** `owner` and `peak` are history: who holds each channel in use, and the greatest
      number of channels ever held at once. */
  datatype System = System(
    pool: Pool,
    requests: map<nat, Request>,
    inFlight: seq<Transit>,
    owner: map<Channel, nat>,
    peak: nat)

  datatype Step =
    | TakeChannel(r: nat, correlationId: string)
    | Register(r: nat)
    | SendDone(r: nat)
    | Deliver(packet: Packet)
    | HandOver(r: nat, i: nat)
    | Recycle(r: nat)

  predicate Enabled(s: System, step: Step) {
    match step
    case TakeChannel(r, _) => r !in s.requests
    case Register(r) => r in s.requests && s.requests[r].phase.Took?
    case SendDone(r) => r in s.requests && s.requests[r].phase.Sending?
    case Deliver(_) => true
    case HandOver(r, i) =>
      && r in s.requests && s.requests[r].phase.Waiting?
      && i < |s.inFlight| && s.inFlight[i].ch == s.requests[r].phase.ch
    case Recycle(r) => r in s.requests && s.requests[r].phase.Got?
  }

  function Moved(s: System, r: nat, phase: Phase): map<nat, Request>
    requires r in s.requests
  {
    s.requests[r := s.requests[r].(phase := phase)]
  }

  function Next(s: System, step: Step): System
    requires Enabled(s, step)
  {
    match step
    case TakeChannel(r, correlationId) =>
      var ch := Obtained(s.pool);
      var owner := s.owner[ch := r];
      System(AfterObtain(s.pool), s.requests[r := Request(correlationId, Took(ch))], s.inFlight, owner,
             if |owner| > s.peak then |owner| else s.peak)
    case Register(r) =>
      var q := s.requests[r];
      s.(pool := s.pool.(waiting := s.pool.waiting[q.correlationId := q.phase.ch]),
         requests := Moved(s, r, Sending(q.phase.ch)))
    case SendDone(r) => s.(requests := Moved(s, r, Waiting(s.requests[r].phase.ch)))
    case Deliver(packet) =>
      if packet.correlationId !in s.pool.waiting then s
      else s.(pool := s.pool.(waiting := s.pool.waiting - {packet.correlationId}),
              inFlight := s.inFlight + [Transit(s.pool.waiting[packet.correlationId], packet)])
    case HandOver(r, i) =>
      s.(requests := Moved(s, r, Got(s.requests[r].phase.ch, s.inFlight[i].packet)),
         inFlight := s.inFlight[..i] + s.inFlight[i + 1..])
    case Recycle(r) =>
      var q := s.requests[r];
      s.(pool := s.pool.(available := s.pool.available + [q.phase.ch]),
         requests := Moved(s, r, Finished(q.phase.packet)),
         owner := s.owner - {q.phase.ch})
  }

  const START := System(Pool([], map[], 0), map[], [], map[], 0)

  function Run(steps: seq<Step>): Option<System> {
    if steps == [] then Some(START)
    else
      var front := Run(steps[..|steps| - 1]);
      if front.Some? && Enabled(front.value, steps[|steps| - 1])
      then Some(Next(front.value, steps[|steps| - 1])) else None
  }
}
