/** From `Aggregator.Send` on one side to the receive channel on the other. */
module EndToEnd {
  import opened Wire
  import opened BufferPool
  import opened SendLoopSpec
  import opened SendLoopProofs
  import opened SendLoopTheorems
  import opened SendLoopLiveness
  import opened Receive

  /** What happens at the receiver: the next posted batch arrives in the tracked buffer `wrid`, after
      which one buffer is posted again unless the device rejects it; or the application takes a message
      off the channel. */
  datatype Event = Arrive(wrid: nat, rejectAt: nat) | Take

  /** The receive pool, the length of its buffers, and how much of it was posted at the start. */
  datatype RecvConfig = RecvConfig(pool: seq<Buffer>, bufferLength: nat, count: nat, rejectAt: nat)

  datatype Receiver = Receiver(arrived: nat, ch: seq<Payload>, taken: seq<Payload>, side: RecvSide)

  /** A batch can arrive only while one is under way and in a posted buffer that it fits. */
  predicate CanArrive(log: seq<Attempt>, rc: RecvConfig, r: Receiver, e: Event)
  {
    && e.Arrive? && r.arrived < |log| && e.wrid in r.side.bufs
    && BatchBytes(log[r.arrived].messages) <= rc.bufferLength
  }

  function Advance(log: seq<Attempt>, rc: RecvConfig, r: Receiver, e: Event): Receiver
    requires r.arrived <= |log|
  {
    match e
    case Arrive(w, rejectAt) =>
      if !CanArrive(log, rc, r, e) then r
      else Receiver(r.arrived + 1, OfferAll(r.ch, BeforeEmpty(Contents(log[r.arrived]))), r.taken,
                    AfterCompletion(r.side, RecvCompletion(w, false, rejectAt)))
    case Take =>
      if r.ch == [] then r else Receiver(r.arrived, r.ch[1..], r.taken + [r.ch[0]], r.side)
  }

  function Receiving(log: seq<Attempt>, rc: RecvConfig, events: seq<Event>): (r: Receiver)
    ensures r.arrived <= |log|
  {
    if events == [] then Receiver(0, [], [], RecvRun(rc.pool, rc.count, rc.rejectAt, []))
    else Advance(log, rc, Receiving(log, rc, events[..|events| - 1]), events[|events| - 1])
  }

  /** Every batch that arrives finds room in the channel. */
  ghost predicate RoomAlways(log: seq<Attempt>, rc: RecvConfig, events: seq<Event>)
  {
    events != [] ==>
      var before, last := Receiving(log, rc, events[..|events| - 1]), events[|events| - 1];
      && RoomAlways(log, rc, events[..|events| - 1])
      && (CanArrive(log, rc, before, last) ==> |before.ch| + |Contents(log[before.arrived])| <= RECV_CAPACITY)
  }

  /** Concrete run: an empty message is sent like any other and arrives as a batch of one, of which the
      receiver delivers nothing. */
  lemma EmptyMessageRun(cfg: Config, b: Buffer, env: Env)
    requires env.accepts && BatchBytes([[]]) <= cfg.bufferLength
    ensures var log := Run(Start(cfg, [b]), [DoSend([], false, env, env)]).log;
      |log| == 1 && log[0].outcome.Posted? && Contents(log[0]) == [[]] && BeforeEmpty(Contents(log[0])) == []
  {
    hide Contents, Step, ImmediateSend;
    var start, op := Start(cfg, [b]), DoSend([], false, env, env);
    RunSnoc(start, [], op);
    SinglePosted(start, [], env);
    RunKeeps(cfg, [b], []);
    StartSound(cfg, [b]);
    ImmediateOrder(start, [], env);
    assert ImmediateSend(start, [], env).0.log != [] by {
      PostedSomething(ImmediateSend(start, [], env).0.log);
    }
  }

  lemma PostedSomething(log: seq<Attempt>)
    requires PostedContents(log) != []
    ensures log != [] && (|log| == 1 ==> log[0].outcome.Posted?)
  {
  }

  /** Exactly the batches that find room for all their messages lose none. */
  lemma NothingDroppedIff(ch: seq<Payload>, ms: seq<Payload>)
    requires |ch| <= RECV_CAPACITY && forall m | m in ms :: m != []
    ensures OfferAll(ch, BeforeEmpty(ms)) == ch + ms <==> |ch| + |ms| <= RECV_CAPACITY
  {
    BeforeEmptyIsPrefix(ms);
    OfferAllIsPrefix(ch, ms);
    if |ch| + |ms| > RECV_CAPACITY {
      assert |OfferAll(ch, ms)| == RECV_CAPACITY;
    } else {
      assert ms[..|ms|] == ms;
    }
  }

  ghost function AllContents(log: seq<Attempt>): seq<Payload>
  {
    if log == [] then [] else AllContents(log[..|log| - 1]) + Contents(log[|log| - 1])
  }

  lemma ContentsPrefix(log: seq<Attempt>, n: nat)
    requires n < |log|
    ensures AllContents(log[..n + 1]) == AllContents(log[..n]) + Contents(log[n])
  {
    assert log[..n + 1][..n] == log[..n];
  }

  /** What the receiver has seen so far is what the arrived batches carry. */
  ghost predicate Faithful(log: seq<Attempt>, r: Receiver)
  {
    r.arrived <= |log| && |r.ch| <= RECV_CAPACITY && r.taken + r.ch == AllContents(log[..r.arrived])
  }

  lemma AdvanceKeeps(log: seq<Attempt>, rc: RecvConfig, r: Receiver, e: Event)
    requires Faithful(log, r)
    requires CanArrive(log, rc, r, e) ==>
      var ms := Contents(log[r.arrived]);
      |r.ch| + |ms| <= RECV_CAPACITY && forall m | m in ms :: m != []
    ensures Faithful(log, Advance(log, rc, r, e))
  {
    hide OfferAll, BeforeEmpty, AllContents, Contents, AfterCompletion;
    match e
    case Arrive(_, _) =>
      if CanArrive(log, rc, r, e) {
        var ms := Contents(log[r.arrived]);
        NothingDroppedIff(r.ch, ms);
        ContentsPrefix(log, r.arrived);
        assert r.taken + (r.ch + ms) == (r.taken + r.ch) + ms;
      }
    case Take =>
      if r.ch != [] {
        assert r.taken + [r.ch[0]] + r.ch[1..] == r.taken + r.ch;
      }
  }

  /** The method that handles a completion receives what the attempt carries. */
  lemma ReceivedIsContents(conn: RecvConn, wc: WorkCompletion, a: Attempt)
    requires conn.Valid() && (wc.wrid in conn.recvBufs ==> wc.byteLen <= conn.recvPool.bufferSize)
    requires a.bytes != [] && conn.Arrived(wc) == a.bytes
    ensures conn.Received(wc) == Contents(a)
  {
  }

  /** With room, the messages taken and those still queued are those of the arrived batches. */
  lemma {:induction false} InOrderDelivery(log: seq<Attempt>, rc: RecvConfig, events: seq<Event>)
    requires RoomAlways(log, rc, events)
    requires forall i, m | 0 <= i < |log| && m in Contents(log[i]) :: m != []
    ensures Faithful(log, Receiving(log, rc, events))
  {
    hide Contents, Advance;
    if events == [] {
      assert log[..0] == [];
    } else {
      InOrderDelivery(log, rc, events[..|events| - 1]);
      AdvanceKeeps(log, rc, Receiving(log, rc, events[..|events| - 1]), events[|events| - 1]);
    }
  }

  /** Every arrival consumes a receive buffer for good: no more batches arrive than the receive pool
      has buffers, however many the sender posts. */
  lemma {:induction false} ArrivalsBounded(log: seq<Attempt>, rc: RecvConfig, events: seq<Event>)
    requires Distinct(Addrs(rc.pool))
    ensures var r := Receiving(log, rc, events);
      && Apart(r.side.free, r.side.bufs) && r.side.consumed == r.arrived
      && |r.side.free| + |r.side.bufs| + r.arrived == |rc.pool|
  {
    hide Apart, AfterCompletion, Contents, OfferAll, BeforeEmpty;
    if events == [] {
      Starvation(rc.pool, rc.count, rc.rejectAt, []);
      NothingConsumed(rc);
    } else {
      var before, last := Receiving(log, rc, events[..|events| - 1]), events[|events| - 1];
      ArrivalsBounded(log, rc, events[..|events| - 1]);
      if CanArrive(log, rc, before, last) {
        CompletionConserves(before.side, RecvCompletion(last.wrid, false, last.rejectAt));
        ArrivalConsumes(before.side, last.wrid, last.rejectAt);
      }
    }
  }

  lemma NothingConsumed(rc: RecvConfig)
    ensures RecvRun(rc.pool, rc.count, rc.rejectAt, []).consumed == 0
  {
  }

  lemma ArrivalConsumes(side: RecvSide, w: nat, rejectAt: nat)
    requires w in side.bufs
    ensures AfterCompletion(side, RecvCompletion(w, false, rejectAt)).consumed == side.consumed + 1
  {
  }

  lemma {:induction false} BatchesOnly(log: seq<Attempt>)
    requires SingleCount(log) == 0
    ensures AllContents(log) == BatchContents(log)
    ensures forall i | 0 <= i < |log| :: log[i].batch
    ensures forall i, m | 0 <= i < |log| && m in Contents(log[i]) :: m in BatchContents(log)
  {
    if log == [] {
    } else {
      BatchesOnly(log[..|log| - 1]);
      assert forall i | 0 <= i < |log| - 1 :: log[i] == log[..|log| - 1][i];
    }
  }

  lemma {:induction false} ContentsGrow(log: seq<Attempt>, n: nat)
    requires n <= |log|
    ensures AllContents(log[..n]) <= AllContents(log)
    decreases |log| - n
  {
    if n < |log| {
      ContentsPrefix(log, n);
      ContentsGrow(log, n + 1);
    } else {
      assert log[..n] == log;
    }
  }

  ghost predicate AggregatedSend(cfg: Config, op: Op)
  {
    op.DoSend? ==> cfg.enableAggregate && op.busy && 0 < |op.data| < UINT32_LIMIT
  }

  lemma {:induction false} NoSingles(cfg: Config, all: seq<Buffer>, ops: seq<Op>)
    requires all != [] && DistinctAddrs(all) && forall op | op in ops :: AggregatedSend(cfg, op)
    ensures var s := Run(Start(cfg, all), ops); SingleCount(s.log) == 0 && s.cfg == cfg
    ensures forall m | m in AcceptedBy(Start(cfg, all), ops) :: m != []
  {
    if ops == [] {
    } else {
      var init, op := ops[..|ops| - 1], ops[|ops| - 1];
      assert op in ops;
      NoSingles(cfg, all, init);
      RunKeeps(cfg, all, init);
      RunOrder(cfg, all, init);
      StepOrder(Run(Start(cfg, all), init), op);
      StepConfig(Run(Start(cfg, all), init), op);
    }
  }

  /** Over every clean run whose sends take the aggregated path and whose messages fit, the receiver
      sees a prefix of the accepted messages, in order and without loss, as long as the channel has room;
      once the loop has drained and everything has arrived, it has seen them all. That takes a receive
      buffer for every batch: a posted one to arrive in, and one of the pool's that never comes back.
      No batch is too long for a receive buffer. */
  lemma Delivered(cfg: Config, all: seq<Buffer>, ops: seq<Op>, limit: nat, rc: RecvConfig, events: seq<Event>)
    requires all != [] && DistinctAddrs(all) && Distinct(Addrs(rc.pool))
    requires cfg.bufferSize <= limit <= cfg.bufferLength && limit <= rc.bufferLength
    requires forall op | op in ops :: Clean(op) && AggregatedSend(cfg, op)
    requires forall m | m in AcceptedBy(Start(cfg, all), ops) :: BatchBytes([m]) <= limit
    requires RoomAlways(Run(Start(cfg, all), ops).log, rc, events)
    ensures var (s, accepted) := (Run(Start(cfg, all), ops), AcceptedBy(Start(cfg, all), ops));
      var r := Receiving(s.log, rc, events);
      && AllPosted(s.log) && (forall a | a in s.log :: BatchBytes(a.messages) <= rc.bufferLength)
      && r.taken + r.ch <= accepted
      && (s.pending == [] && r.arrived == |s.log| ==> r.taken + r.ch == accepted)
      && r.arrived + |r.side.bufs| <= |rc.pool|
      && (r.arrived == |s.log| ==> |s.log| <= |rc.pool|)
  {
    hide Run, AcceptedBy, Receiving, RoomAlways, AllContents, BatchContents, Contents, Partition, AllPosted, Inv;
    hide Distinct, Apart, FramedSize;
    var s := Run(Start(cfg, all), ops);
    Agreement(cfg, all, ops);
    Fifo(cfg, all, ops);
    CapacityIff(cfg, all, ops, limit);
    NoSingles(cfg, all, ops);
    BatchesOnly(s.log);
    var accepted := AcceptedBy(Start(cfg, all), ops);
    forall i, m | 0 <= i < |s.log| && m in Contents(s.log[i]) ensures m != [] {
      assert m in BatchContents(s.log);
      assert m in BatchContents(s.log) + s.pending;
      assert m in accepted;
    }
    InOrderDelivery(s.log, rc, events);
    ArrivalsBounded(s.log, rc, events);
    ContentsGrow(s.log, Receiving(s.log, rc, events).arrived);
    assert s.log[..|s.log|] == s.log;
  }
}
