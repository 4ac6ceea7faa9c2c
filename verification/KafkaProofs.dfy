/** Safety of the Kafka reply channels in every interleaving. */
module KafkaProofs {
  import opened KafkaWorkers
  import opened Options
  import opened Sequences

  ghost predicate Holds(q: Request, ch: Channel) {
    !q.phase.Finished? && q.phase.ch == ch
  }

  /** Every channel ever made is in the pool, once, or has an owner. */
  ghost predicate Covers(available: seq<Channel>, owner: map<Channel, nat>, created: nat) {
    && (forall i :: 0 <= i < |available| ==> available[i] < created)
    && (forall i, j :: 0 <= i < j < |available| ==> available[i] != available[j])
    && (forall ch :: ch in owner ==> ch < created && ch !in available)
    && (forall ch: nat :: ch < created ==> ch in available || ch in owner)
    && created == |available| + |owner|
  }

  ghost predicate PoolCovers(s: System) {
    Covers(s.pool.available, s.owner, s.pool.created) && s.pool.created <= s.peak
  }

  /** Owners hold their channels, and whoever holds a channel owns it. */
  ghost predicate OwnersHold(s: System) {
    && (forall ch :: ch in s.owner ==> s.owner[ch] in s.requests && Holds(s.requests[s.owner[ch]], ch))
    && (forall r :: r in s.requests && !s.requests[r].phase.Finished? ==>
          s.requests[r].phase.ch in s.owner && s.owner[s.requests[r].phase.ch] == r)
  }

  ghost predicate ChannelsAccounted(s: System) {
    PoolCovers(s) && OwnersHold(s)
  }

  /** `ch` belongs to a request that waits for `correlationId`, or will once it has sent. */
  ghost predicate Awaits(s: System, ch: Channel, correlationId: string) {
    && ch in s.owner && s.owner[ch] in s.requests
    && s.requests[s.owner[ch]] in {Request(correlationId, Sending(ch)), Request(correlationId, Waiting(ch))}
  }

  ghost predicate PacketsMatch(s: System) {
    && (forall c :: c in s.pool.waiting ==> Awaits(s, s.pool.waiting[c], c))
    && (forall i :: 0 <= i < |s.inFlight| ==>
          Awaits(s, s.inFlight[i].ch, s.inFlight[i].packet.correlationId))
    && (forall i :: 0 <= i < |s.inFlight| ==> forall c :: c in s.pool.waiting ==> s.pool.waiting[c] != s.inFlight[i].ch)
    && (forall i, j :: 0 <= i < j < |s.inFlight| ==> s.inFlight[i].ch != s.inFlight[j].ch)
    && (forall r :: r in s.requests && (s.requests[r].phase.Got? || s.requests[r].phase.Finished?) ==>
          s.requests[r].phase.packet.correlationId == s.requests[r].correlationId)
  }

  ghost predicate Inv(s: System) {
    ChannelsAccounted(s) && PacketsMatch(s)
  }

  lemma GrownByOne(m: map<Channel, nat>, ch: Channel, r: nat)
    requires ch !in m
    ensures |m[ch := r]| == |m| + 1
  {
  }

  lemma TakeNewCovers(s: System, r: nat, correlationId: string)
    requires PoolCovers(s) && r !in s.requests && s.pool.available == []
    ensures PoolCovers(Next(s, TakeChannel(r, correlationId)))
  {
    GrownByOne(s.owner, s.pool.created, r);
  }

  lemma LastTakenCovers(front: seq<Channel>, ch: Channel, owner: map<Channel, nat>, created: nat, r: nat)
    requires Covers(front + [ch], owner, created)
    ensures Covers(front, owner[ch := r], created)
  {
    var a := front + [ch];
    assert forall c :: c in a <==> c in front || c == ch;
    assert ch in a && a[|front|] == ch && forall i :: 0 <= i < |front| ==> a[i] == front[i];
    GrownByOne(owner, ch, r);
  }

  lemma TakeFreeCovers(s: System, r: nat, correlationId: string)
    requires PoolCovers(s) && r !in s.requests && s.pool.available != []
    ensures PoolCovers(Next(s, TakeChannel(r, correlationId)))
  {
    var a := s.pool.available;
    var front, ch := a[..|a| - 1], a[|a| - 1];
    assert a == front + [ch];
    LastTakenCovers(front, ch, s.owner, s.pool.created, r);
  }

  lemma TakeHolds(s: System, r: nat, correlationId: string)
    requires ChannelsAccounted(s) && r !in s.requests
    ensures OwnersHold(Next(s, TakeChannel(r, correlationId)))
  {
    assert Obtained(s.pool) !in s.owner;
  }

  lemma TakeMatches(s: System, r: nat, correlationId: string)
    requires Inv(s) && Enabled(s, TakeChannel(r, correlationId))
    ensures PacketsMatch(Next(s, TakeChannel(r, correlationId)))
  {
    var t := Next(s, TakeChannel(r, correlationId));
    forall ch, c | Awaits(s, ch, c) ensures Awaits(t, ch, c) {
      TakeLeavesAwaiting(s, r, correlationId, ch, c);
    }
    assert t.pool.waiting == s.pool.waiting && t.inFlight == s.inFlight;
  }

  lemma TakeLeavesAwaiting(s: System, r: nat, correlationId: string, ch: Channel, c: string)
    requires ChannelsAccounted(s) && r !in s.requests && Awaits(s, ch, c)
    ensures Awaits(Next(s, TakeChannel(r, correlationId)), ch, c)
  {
    assert Obtained(s.pool) !in s.owner;
  }

  lemma RegisterAccounts(s: System, r: nat)
    requires Inv(s) && Enabled(s, Register(r))
    ensures ChannelsAccounted(Next(s, Register(r)))
  {
  }

  lemma RegisterMatches(s: System, r: nat)
    requires Inv(s) && Enabled(s, Register(r))
    ensures PacketsMatch(Next(s, Register(r)))
  {
  }

  lemma SendDoneKeeps(s: System, r: nat)
    requires Inv(s) && Enabled(s, SendDone(r))
    ensures Inv(Next(s, SendDone(r)))
  {
    var t := Next(s, SendDone(r));
    assert forall ch, c :: Awaits(s, ch, c) ==> Awaits(t, ch, c);
  }

  lemma DeliverKeeps(s: System, packet: Packet)
    requires Inv(s)
    ensures Inv(Next(s, Deliver(packet)))
  {
    var t := Next(s, Deliver(packet));
    if packet.correlationId in s.pool.waiting {
      var ch := s.pool.waiting[packet.correlationId];
      assert Awaits(s, ch, packet.correlationId);
      forall c | c in t.pool.waiting ensures t.pool.waiting[c] != ch {
        assert Awaits(s, s.pool.waiting[c], c);
      }
    }
  }

  lemma HandOverAccounts(s: System, r: nat, i: nat)
    requires Inv(s) && Enabled(s, HandOver(r, i))
    ensures ChannelsAccounted(Next(s, HandOver(r, i)))
  {
  }

  lemma HandOverMatches(s: System, r: nat, i: nat)
    requires Inv(s) && Enabled(s, HandOver(r, i))
    ensures PacketsMatch(Next(s, HandOver(r, i)))
  {
    var t := Next(s, HandOver(r, i));
    assert Awaits(s, s.requests[r].phase.ch, s.inFlight[i].packet.correlationId);
    forall j | 0 <= j < |t.inFlight|
      ensures t.inFlight[j] == s.inFlight[if j < i then j else j + 1]
    {
    }
  }

  lemma RecycleAccounts(s: System, r: nat)
    requires Inv(s) && Enabled(s, Recycle(r))
    ensures ChannelsAccounted(Next(s, Recycle(r)))
  {
    var ch := s.requests[r].phase.ch;
    assert |s.owner - {ch}| == |s.owner| - 1 by {
      assert (s.owner - {ch}).Keys == s.owner.Keys - {ch};
    }
  }

  lemma RecycleMatches(s: System, r: nat)
    requires Inv(s) && Enabled(s, Recycle(r))
    ensures PacketsMatch(Next(s, Recycle(r)))
  {
  }

  lemma StepKeeps(s: System, step: Step)
    requires Inv(s) && Enabled(s, step)
    ensures Inv(Next(s, step))
  {
    match step
    case TakeChannel(r, c) =>
      if s.pool.available == [] { TakeNewCovers(s, r, c); } else { TakeFreeCovers(s, r, c); }
      TakeHolds(s, r, c);
      TakeMatches(s, r, c);
    case Register(r) => RegisterAccounts(s, r); RegisterMatches(s, r);
    case SendDone(r) => SendDoneKeeps(s, r);
    case Deliver(packet) => DeliverKeeps(s, packet);
    case HandOver(r, i) => HandOverAccounts(s, r, i); HandOverMatches(s, r, i);
    case Recycle(r) => RecycleAccounts(s, r); RecycleMatches(s, r);
  }

  lemma {:induction false} RunsKeepInv(steps: seq<Step>)
    ensures Run(steps).Some? ==> Inv(Run(steps).value)
  {
    if steps != [] {
      var front := Run(steps[..|steps| - 1]);
      RunsKeepInv(steps[..|steps| - 1]);
      if front.Some? && Enabled(front.value, steps[|steps| - 1]) {
        StepKeeps(front.value, steps[|steps| - 1]);
      }
    }
  }

  // ---------------------------------------------------------------------------
  // What that means
  // ---------------------------------------------------------------------------

  /** In every interleaving a channel is either in the pool, once, or held by
      exactly one request. */
  lemma ChannelFreeOrHeld(steps: seq<Step>, ch: Channel)
    requires Run(steps).Some? && ch < Run(steps).value.pool.created
    ensures var s := Run(steps).value;
            if ch in s.pool.available then
              && multiset(s.pool.available)[ch] == 1
              && forall r :: r in s.requests ==> !Holds(s.requests[r], ch)
            else
              && (exists r :: r in s.requests && Holds(s.requests[r], ch))
              && forall r, q :: r in s.requests && q in s.requests && Holds(s.requests[r], ch) && Holds(s.requests[q], ch) ==> r == q
  {
    RunsKeepInv(steps);
    var s := Run(steps).value;
    if ch in s.pool.available {
      OccursOnce(s.pool.available, ch);
    } else {
      assert Holds(s.requests[s.owner[ch]], ch);
    }
  }

  /** A free channel is quiet: nothing in the waiting table leads to it, and no
      handler is about to send on it. */
  lemma FreeChannelIsQuiet(steps: seq<Step>, ch: Channel)
    requires Run(steps).Some? && ch in Run(steps).value.pool.available
    ensures forall c :: c in Run(steps).value.pool.waiting ==> Run(steps).value.pool.waiting[c] != ch
    ensures forall i :: 0 <= i < |Run(steps).value.inFlight| ==> Run(steps).value.inFlight[i].ch != ch
  {
    RunsKeepInv(steps);
  }

  /** Every reply a request receives carries the correlation id it asked with. */
  lemma RepliesCarryOwnId(steps: seq<Step>, r: nat)
    requires Run(steps).Some? && r in Run(steps).value.requests
    ensures var q := Run(steps).value.requests[r];
            q.phase.Got? || q.phase.Finished? ==> q.phase.packet.correlationId == q.correlationId
  {
    RunsKeepInv(steps);
  }

  /** No packet handler blocks forever for want of a receiver: whenever one is about to send,
      the request holding the channel stands ready to receive, or will as soon as it is done
      sending. */
  lemma HandlersFindTheirRequest(steps: seq<Step>, i: nat)
    requires Run(steps).Some? && i < |Run(steps).value.inFlight|
    ensures var s := Run(steps).value;
            exists r :: Enabled(s, HandOver(r, i)) || (Enabled(s, SendDone(r)) && Enabled(Next(s, SendDone(r)), HandOver(r, i)))
  {
    RunsKeepInv(steps);
    var s := Run(steps).value;
    var r := s.owner[s.inFlight[i].ch];
    assert Awaits(s, s.inFlight[i].ch, s.inFlight[i].packet.correlationId);
    assert Enabled(s, HandOver(r, i)) || Enabled(s, SendDone(r));
  }

  /** Recycling works: never more channels are made than requests held one at the same time. */
  lemma ChannelsBoundedByPeak(steps: seq<Step>)
    requires Run(steps).Some?
    ensures Run(steps).value.pool.created <= Run(steps).value.peak
  {
    RunsKeepInv(steps);
  }

  /** A reply can still reach `r`: the waiting table leads to its channel, or a handler holds its packet. */
  ghost predicate Answerable(s: System, r: nat) {
    && r in s.requests && (s.requests[r].phase.Sending? || s.requests[r].phase.Waiting?)
    && (|| (s.requests[r].correlationId in s.pool.waiting
            && s.pool.waiting[s.requests[r].correlationId] == s.requests[r].phase.ch)
        || exists i :: 0 <= i < |s.inFlight| && s.inFlight[i].ch == s.requests[r].phase.ch)
  }

  /** Entering the table under an id in use strands exactly the request that was
      waiting under it: afterwards nothing can answer that one any more. */
  lemma RegisterStrandsExactlyDuplicates(steps: seq<Step>, r: nat, q: nat)
    requires Run(steps).Some? && Enabled(Run(steps).value, Register(r)) && q != r
    requires Answerable(Run(steps).value, q)
    ensures var s := Run(steps).value;
            var t := Next(s, Register(r));
            var underSameId := s.requests[q].correlationId == s.requests[r].correlationId
                               && s.requests[q].correlationId in s.pool.waiting
                               && s.pool.waiting[s.requests[q].correlationId] == s.requests[q].phase.ch;
            Answerable(t, q) <==> !underSameId
  {
    RunsKeepInv(steps);
    var s := Run(steps).value;
    var t := Next(s, Register(r));
    var ch := s.requests[q].phase.ch;
    if i :| 0 <= i < |s.inFlight| && s.inFlight[i].ch == ch {
      assert t.inFlight[i].ch == ch;
    }
  }

  /** A step of others that does not enter the table leaves a request answerable. */
  lemma OthersLeaveAnswerable(s: System, step: Step, q: nat)
    requires Inv(s) && Enabled(s, step) && !step.Register? && (step.HandOver? ==> step.r != q)
    requires Answerable(s, q)
    ensures Answerable(Next(s, step), q)
  {
    var t, ch := Next(s, step), s.requests[q].phase.ch;
    if i :| 0 <= i < |s.inFlight| && s.inFlight[i].ch == ch {
      assert Awaits(s, ch, s.inFlight[i].packet.correlationId);
      if step.HandOver? {
        assert t.inFlight[if i < step.i then i else i - 1] == s.inFlight[i];
      } else {
        assert t.inFlight[i] == s.inFlight[i];
      }
    } else if step.Deliver? && step.packet.correlationId == s.requests[q].correlationId {
      assert t.inFlight[|s.inFlight|].ch == ch;
    }
  }

  /** No reply is lost: whatever step comes next, a request that can still be answered stays so,
      unless the step answers it, or enters the table under the id under which it waits. */
  lemma AnswerableUntil(steps: seq<Step>, step: Step, q: nat)
    requires Run(steps).Some? && Enabled(Run(steps).value, step) && Answerable(Run(steps).value, q)
    requires !(step.HandOver? && step.r == q)
    requires step.Register? ==>
               step.r != q && Run(steps).value.requests[step.r].correlationId != Run(steps).value.requests[q].correlationId
    ensures Answerable(Next(Run(steps).value, step), q)
  {
    RunsKeepInv(steps);
    if step.Register? {
      RegisterStrandsExactlyDuplicates(steps, step.r, q);
    } else {
      OthersLeaveAnswerable(Run(steps).value, step, q);
    }
  }

  // ---------------------------------------------------------------------------
  // A request from beginning to end
  // ---------------------------------------------------------------------------

  /** The state after `steps`, if each of them is possible. */
  function From(s: System, steps: seq<Step>): Option<System>
    decreases |steps|
  {
    if steps == [] then Some(s) else if Enabled(s, steps[0]) then From(Next(s, steps[0]), steps[1..]) else None
  }

  lemma FromCons(s: System, step: Step, rest: seq<Step>)
    requires Enabled(s, step)
    ensures From(s, [step] + rest) == From(Next(s, step), rest)
  {
    assert ([step] + rest)[1..] == rest;
  }

  /** A new request takes a channel, enters the table and sends. */
  lemma RequestWaits(s: System, r: nat, c: string, rest: seq<Step>) returns (t: System)
    requires r !in s.requests
    ensures From(s, [TakeChannel(r, c)] + ([Register(r)] + ([SendDone(r)] + rest))) == From(t, rest)
    ensures t.requests == s.requests[r := Request(c, Waiting(Obtained(s.pool)))] && t.inFlight == s.inFlight
    ensures t.pool == AfterObtain(s.pool).(waiting := s.pool.waiting[c := Obtained(s.pool)])
  {
    FromCons(s, TakeChannel(r, c), [Register(r)] + ([SendDone(r)] + rest));
    var u := Next(s, TakeChannel(r, c));
    FromCons(u, Register(r), [SendDone(r)] + rest);
    FromCons(Next(u, Register(r)), SendDone(r), rest);
    t := Next(Next(u, Register(r)), SendDone(r));
  }

  /** What waits under that id, and on that channel. */
  ghost predicate WaitsUnder(s: System, r: nat, c: string, ch: Channel) {
    && r in s.requests && s.requests[r] == Request(c, Waiting(ch))
    && c in s.pool.waiting && s.pool.waiting[c] == ch
  }

  /** A reply is dispatched, received, and the channel is given back. */
  lemma ReplyComes(s: System, r: nat, packet: Packet, ch: Channel) returns (t: System)
    requires WaitsUnder(s, r, packet.correlationId, ch)
    ensures From(s, [Deliver(packet)] + ([HandOver(r, |s.inFlight|)] + ([Recycle(r)] + []))) == Some(t)
    ensures t.requests == s.requests[r := Request(packet.correlationId, Finished(packet))] && t.inFlight == s.inFlight
    ensures t.pool == s.pool.(waiting := s.pool.waiting - {packet.correlationId}, available := s.pool.available + [ch])
  {
    var u := ReplyDispatched(s, packet, ch, [HandOver(r, |s.inFlight|)] + ([Recycle(r)] + []));
    var v := ReplyTaken(u, r, s.inFlight, Transit(ch, packet), [Recycle(r)] + []);
    t := ChannelBack(v, r, ch, packet);
    TwiceMoved(s.requests, r, s.requests[r].(phase := Got(ch, packet)), Request(packet.correlationId, Finished(packet)));
  }

  lemma ReplyDispatched(s: System, packet: Packet, ch: Channel, rest: seq<Step>) returns (t: System)
    requires packet.correlationId in s.pool.waiting && s.pool.waiting[packet.correlationId] == ch
    ensures From(s, [Deliver(packet)] + rest) == From(t, rest)
    ensures t == s.(pool := s.pool.(waiting := s.pool.waiting - {packet.correlationId}),
                    inFlight := s.inFlight + [Transit(ch, packet)])
  {
    FromCons(s, Deliver(packet), rest);
    t := Next(s, Deliver(packet));
  }

  lemma ChannelBack(s: System, r: nat, ch: Channel, packet: Packet) returns (t: System)
    requires r in s.requests && s.requests[r].phase == Got(ch, packet)
    ensures From(s, [Recycle(r)] + []) == Some(t)
    ensures t.requests == Moved(s, r, Finished(packet)) && t.inFlight == s.inFlight
    ensures t.pool == s.pool.(available := s.pool.available + [ch])
  {
    FromCons(s, Recycle(r), []);
    t := Next(s, Recycle(r));
  }

  lemma TwiceMoved(m: map<nat, Request>, r: nat, a: Request, b: Request)
    ensures m[r := a][r := b] == m[r := b]
  {
  }

  lemma ReplyTaken(s: System, r: nat, inFlight: seq<Transit>, last: Transit, rest: seq<Step>) returns (t: System)
    requires s.inFlight == inFlight + [last] && r in s.requests && s.requests[r].phase == Waiting(last.ch)
    ensures From(s, [HandOver(r, |inFlight|)] + rest) == From(t, rest)
    ensures t == s.(requests := Moved(s, r, Got(last.ch, last.packet)), inFlight := inFlight)
  {
    FromCons(s, HandOver(r, |inFlight|), rest);
    t := Next(s, HandOver(r, |inFlight|));
    assert s.inFlight[..|inFlight|] + s.inFlight[|inFlight| + 1..] == inFlight;
  }

  /** The steps of a request whose reply comes while it waits. */
  function RequestSteps(s: System, r: nat, packet: Packet): seq<Step> {
    [TakeChannel(r, packet.correlationId)] + ([Register(r)] + ([SendDone(r)]
    + ([Deliver(packet)] + ([HandOver(r, |s.inFlight|)] + ([Recycle(r)] + [])))))
  }

  /** Whatever is under way, a new request can take a channel, wait, receive its reply and give
      the channel back; of the others nothing changes, but that one that waits under the same id
      has left the table. */
  lemma RequestInARow(s: System, r: nat, packet: Packet) returns (t: System)
    requires r !in s.requests
    ensures From(s, RequestSteps(s, r, packet)) == Some(t)
    ensures t.requests == s.requests[r := Request(packet.correlationId, Finished(packet))] && t.inFlight == s.inFlight
    ensures t.pool.waiting == s.pool.waiting - {packet.correlationId}
    ensures t.pool.available
            == (if s.pool.available == [] then [] else s.pool.available[..|s.pool.available| - 1]) + [Obtained(s.pool)]
  {
    var u := RequestWaits(s, r, packet.correlationId,
                          [Deliver(packet)] + ([HandOver(r, |s.inFlight|)] + ([Recycle(r)] + [])));
    t := ReplyComes(u, r, packet, Obtained(s.pool));
    TwiceMoved(s.requests, r, u.requests[r], t.requests[r]);
    OverwrittenThenRemoved(s.pool.waiting, packet.correlationId, Obtained(s.pool));
  }

  lemma OverwrittenThenRemoved(m: map<string, Channel>, c: string, ch: Channel)
    ensures m[c := ch] - {c} == m - {c}
  {
  }
}
