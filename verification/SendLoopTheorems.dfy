/** Order and batch capacity over whole runs of the closed send loop. */
module SendLoopTheorems {
  import opened Wire
  import opened WireTheorems
  import opened BufferPool
  import opened SendLoopSpec
  import opened SendLoopProofs

  // ---------------------------------------------------------------- ordering

  lemma OneMessageBytes(data: Payload)
    ensures BatchBytes([data]) == CMD_HEADER_SIZE + APP_HEADER_SIZE + |data|
  {
    assert FramedSize([data]) == APP_HEADER_SIZE + |data| + FramedSize([]);
  }

  lemma OneHeaderFits(data: Payload, room: nat)
    requires CMD_HEADER_SIZE + APP_HEADER_SIZE <= room
    ensures HeadersFit([data], room)
  {
    assert [data][..0] == [];
  }

  /** The bytes are those of the messages, as far as they fit a buffer of `room` bytes. */
  ghost predicate PackedAs(a: Attempt, room: nat)
  {
    && Representable(a.messages) && a.messages != []
    && exists now :: a.bytes == Clipped(Packed(a.messages, now), room)
  }

  ghost predicate AllPacked(log: seq<Attempt>, room: nat)
  {
    forall i | 0 <= i < |log| :: PackedAs(log[i], room)
  }

  /** What has been handed over was packed, and what waits can be. */
  ghost predicate Sound(s: Loop)
  {
    Representable(s.pending) && AllPacked(s.log, s.cfg.bufferLength)
  }

  lemma AllPackedSnoc(log: seq<Attempt>, a: Attempt, room: nat)
    requires AllPacked(log, room) && PackedAs(a, room)
    ensures AllPacked(log + [a], room)
  {
  }

  /** A launch puts exactly its messages at the end of the log. */
  lemma LaunchOrder(s: Loop, ms: seq<Payload>, batch: bool, env: Env)
    requires Accounted(s) && s.bufs.free != [] && Sound(s) && Representable(ms) && ms != []
    ensures var t := Launch(s, ms, batch, env).0;
      && BatchMessages(t.log) == BatchMessages(s.log) + (if batch then ms else [])
      && SingleCount(t.log) == SingleCount(s.log) + (if batch then 0 else 1)
      && |t.log| == |s.log| + 1 && t.log == s.log + [t.log[|s.log|]]
      && t.log[|s.log|].messages == ms && t.log[|s.log|].batch == batch
      && t.sent == s.sent + |ms| && t.pending == s.pending && t.flushed == s.flushed + (if batch then 1 else 0)
      && Sound(t) && t.cfg == s.cfg
  {
    hide Accounted, Launch, Lost, Representable, Packed, Clipped, AllPacked;
    LaunchKeeps(s, ms, batch, env);
    var t := Launch(s, ms, batch, env).0;
    var a := t.log[|s.log|];
    assert t.log == s.log + [a];
    LogSnoc(s.log, a);
    AllPackedSnoc(s.log, a, s.cfg.bufferLength);
  }

  /** The aggregated messages in order: those already batched, then those waiting. */
  ghost function Stream(s: Loop): seq<Payload>
  {
    BatchMessages(s.log) + s.pending
  }

  /** Messages counted as sent or waiting, less the immediate ones. */
  ghost function Aggregated(s: Loop): int
  {
    s.sent + |s.pending| - SingleCount(s.log)
  }

  /** Batches counted in `Flushed` over those handed to the connection. */
  ghost function Uncounted(s: Loop): int
  {
    s.flushed + SingleCount(s.log) - |s.log|
  }

  lemma FlushOrder(s: Loop, env: Env)
    requires Accounted(s) && Sound(s)
    ensures var t := Flush(s, env).0;
      Stream(t) == Stream(s) && Aggregated(t) == Aggregated(s) && Uncounted(t) == Uncounted(s)
    ensures Sound(Flush(s, env).0) && SingleCount(Flush(s, env).0.log) == SingleCount(s.log)
  {
    hide Partition, Launch, AllPacked;
    if s.pending != [] && s.bufs.free != [] {
      var emptied := s.(pending := [], pendingSize := 0);
      LaunchOrder(emptied, s.pending, true, env);
    }
  }

  lemma AppendOrder(s: Loop, data: Payload)
    requires Sound(s) && |data| < UINT32_LIMIT
    ensures var t := Append(s, data);
      Stream(t) == Stream(s) + [data] && Aggregated(t) == Aggregated(s) + 1 && Sound(t)
      && t.log == s.log && Uncounted(t) == Uncounted(s)
  {
  }

  lemma MakeRoomKeeps(s: Loop, data: Payload, env: Env)
    requires Inv(s) && Sound(s)
    ensures var t := MakeRoom(s, data, env).0;
      && Accounted(t) && Stream(t) == Stream(s) && Aggregated(t) == Aggregated(s) && Sound(t)
      && Uncounted(t) == Uncounted(s)
    ensures SingleCount(MakeRoom(s, data, env).0.log) == SingleCount(s.log)
  {
    hide Partition, Flush, Stream, Aggregated, Uncounted, Sound;
    FlushKeeps(s, env);
    FlushOrder(s, env);
  }

  lemma AggregateOrder(s: Loop, data: Payload, env1: Env, env2: Env)
    requires Inv(s) && Sound(s) && |data| < UINT32_LIMIT
    ensures var added := if MakeRoom(s, data, env1).1 == Success then [data] else [];
      var t := AggregateSend(s, data, env1, env2).0;
      && Stream(t) == Stream(s) + added && Aggregated(t) == Aggregated(s) + |added| && Sound(t)
      && Uncounted(t) == Uncounted(s)
    ensures SingleCount(AggregateSend(s, data, env1, env2).0.log) == SingleCount(s.log)
  {
    hide Accounted, Inv, Flush, MakeRoom, Append, Stream, Aggregated, Uncounted, Sound;
    MakeRoomKeeps(s, data, env1);
    var (roomy, status) := MakeRoom(s, data, env1);
    if status == Success {
      AppendKeeps(roomy, data);
      AppendOrder(roomy, data);
      FlushOrder(Append(roomy, data), env2);
    }
  }

  /** An immediate send that is launched hands over exactly its payload, in one piece, and leaves the
      aggregated messages alone. */
  lemma ImmediateOrder(s: Loop, data: Payload, env: Env)
    requires Inv(s) && Sound(s) && |data| < UINT32_LIMIT
    ensures var t := ImmediateSend(s, data, env).0;
      && Stream(t) == Stream(s) && Aggregated(t) == Aggregated(s) && t.pending == s.pending
      && Uncounted(t) == Uncounted(s) && Sound(t)
      && (t.log == s.log
          || (|t.log| == |s.log| + 1 && t.log == s.log + [t.log[|s.log|]] && Contents(t.log[|s.log|]) == [data]))
  {
    hide Partition, Launch, Leaked, Lost, BatchMessages, SingleCount, Contents, FramedSize, AllPacked, PackedAs;
    if s.bufs.free != [] && CMD_HEADER_SIZE + APP_HEADER_SIZE + |data| <= s.cfg.bufferLength {
      LaunchOrder(s, [data], false, env);
      SingleUnpacks(s.log, Launch(s, [data], false, env).0.log[|s.log|], data, s.cfg.bufferLength);
    }
  }

  lemma SingleUnpacks(log: seq<Attempt>, a: Attempt, data: Payload, room: nat)
    requires AllPacked(log + [a], room) && a.messages == [data]
    requires CMD_HEADER_SIZE + APP_HEADER_SIZE + |data| <= room
    ensures Contents(a) == [data]
  {
    hide AllPacked, Contents, PackedAs;
    LastPacked(log, a, room);
    OneMessageBytes(data);
    ContentsIff(a, room);
  }

  lemma LastPacked(log: seq<Attempt>, a: Attempt, room: nat)
    requires AllPacked(log + [a], room)
    ensures PackedAs(a, room)
  {
    assert (log + [a])[|log|] == a;
  }

  /** The attempt carries its messages iff the batch fits the buffer: otherwise its end was cut off, and
      a receiver gets fewer messages or none. */
  lemma ContentsIff(a: Attempt, room: nat)
    requires PackedAs(a, room)
    ensures Contents(a) == a.messages <==> BatchBytes(a.messages) <= room
    ensures |Contents(a)| <= |a.messages| && (|Contents(a)| == |a.messages| ==> Contents(a) == a.messages)
    ensures a.messages != []
  {
    var now :| a.bytes == Clipped(Packed(a.messages, now), room);
    ClippedUnpacks(a.messages, now, room);
  }

  ghost predicate Sendable(op: Op)
  {
    op.DoSend? ==> |op.data| < UINT32_LIMIT
  }

  lemma StepOrder(s: Loop, op: Op)
    requires Inv(s) && Sound(s) && Sendable(op)
    ensures Stream(Step(s, op)) == Stream(s) + Accepted(s, op) && Sound(Step(s, op))
    ensures Aggregated(Step(s, op)) == Aggregated(s) + |Accepted(s, op)| && Uncounted(Step(s, op)) == Uncounted(s)
    ensures (op.DoSend? ==> op.busy && s.cfg.enableAggregate) ==> SingleCount(Step(s, op).log) == SingleCount(s.log)
  {
    hide Accounted, OnCompletion, Flush, AggregateSend, ImmediateSend, MakeRoom, Representable, AllPacked;
    match op
    case DoSend(data, busy, env1, env2) =>
      AggregateOrder(s, data, env1, env2);
      ImmediateOrder(s, data, env1);
    case DoFlush(env) => FlushOrder(s, env);
    case Completion(w, env) => CompletionOrder(s, w, env);
    case ErrorCompletion(w) =>
    case SetConnected(_) =>
  }

  lemma CompletionOrder(s: Loop, w: nat, env: Env)
    requires Inv(s) && Sound(s)
    ensures var t := OnCompletion(s, w, env);
      && Stream(t) == Stream(s) && Aggregated(t) == Aggregated(s) && Uncounted(t) == Uncounted(s)
      && SingleCount(t.log) == SingleCount(s.log) && Sound(t)
  {
    hide Partition, Leaked, Flush, Representable, AllPacked;
    if w in s.bufs.tracked {
      ReleasePartition(s.bufs, Leaked(s.log), w);
      FlushOrder(s.(bufs := s.bufs.Release(w), ongoing := s.ongoing - 1), env);
    }
  }

  /** Over every run, messages of any size included: the messages packed into batches, in the order the
      batches were handed over, followed by the pending ones, are exactly the accepted ones in order;
      `Sent` + `PendingCount` counts them and the immediate sends, `Flushed` the batches. */
  lemma {:induction false} RunOrder(cfg: Config, all: seq<Buffer>, ops: seq<Op>)
    requires all != [] && DistinctAddrs(all) && forall op | op in ops :: Sendable(op)
    ensures var s := Run(Start(cfg, all), ops);
      && BatchMessages(s.log) + s.pending == AcceptedBy(Start(cfg, all), ops)
      && s.sent + |s.pending| == |AcceptedBy(Start(cfg, all), ops)| + SingleCount(s.log)
      && s.flushed == |s.log| - SingleCount(s.log)
      && Sound(s)
  {
    hide Sound, Inv;
    if ops == [] {
      StartSound(cfg, all);
    } else {
      var init, op := ops[..|ops| - 1], ops[|ops| - 1];
      RunOrder(cfg, all, init);
      RunKeeps(cfg, all, init);
      StepOrder(Run(Start(cfg, all), init), op);
    }
  }

  lemma StartSound(cfg: Config, all: seq<Buffer>)
    ensures Sound(Start(cfg, all))
  {
  }

  /** No message accepted for aggregation is, alone, longer than a buffer of the pool. */
  ghost predicate AllFit(cfg: Config, all: seq<Buffer>, ops: seq<Op>)
  {
    forall m | m in AcceptedBy(Start(cfg, all), ops) :: BatchBytes([m]) <= cfg.bufferLength
  }

  lemma {:induction false} FittingBatchesUnpack(log: seq<Attempt>, room: nat)
    requires AllPacked(log, room)
    requires forall i | 0 <= i < |log| && log[i].batch :: BatchBytes(log[i].messages) <= room
    ensures BatchContents(log) == BatchMessages(log)
  {
    if log == [] {
    } else {
      var init, last := log[..|log| - 1], log[|log| - 1];
      assert forall i | 0 <= i < |init| :: init[i] == log[i];
      FittingBatchesUnpack(init, room);
      ContentsIff(last, room);
    }
  }

  /** First in, first out on the aggregated path, over every run in which each accepted message alone
      fits a buffer of the pool: unpacking all batches in the order they were handed over and then
      reading the pending ones gives exactly the accepted messages in order. */
  lemma Fifo(cfg: Config, all: seq<Buffer>, ops: seq<Op>)
    requires all != [] && DistinctAddrs(all) && forall op | op in ops :: Sendable(op)
    requires cfg.bufferSize <= cfg.bufferLength && AllFit(cfg, all, ops)
    ensures var s := Run(Start(cfg, all), ops);
      && BatchContents(s.log) + s.pending == AcceptedBy(Start(cfg, all), ops)
      && s.sent + |s.pending| == |AcceptedBy(Start(cfg, all), ops)| + SingleCount(s.log)
      && s.flushed == |s.log| - SingleCount(s.log)
  {
    hide Run, AcceptedBy, AllPacked;
    RunOrder(cfg, all, ops);
    CapacityIff(cfg, all, ops, cfg.bufferLength);
    FittingBatchesUnpack(Run(Start(cfg, all), ops).log, cfg.bufferLength);
  }

  /** What a receiver unpacks from the batches the device accepted, in posting order. */
  ghost function WireContents(log: seq<Attempt>): seq<Payload>
  {
    if log == [] then []
    else
      var last := log[|log| - 1];
      WireContents(log[..|log| - 1]) + (if last.batch && last.outcome.Posted? then Contents(last) else [])
  }

  /** The attempt is a batch that the device did not get, or not whole. */
  ghost predicate Dropped(a: Attempt, room: nat)
  {
    a.batch && (!a.outcome.Posted? || BatchBytes(a.messages) > room)
  }

  lemma {:induction false} WireLosesIff(log: seq<Attempt>, room: nat)
    requires AllPacked(log, room)
    ensures |WireContents(log)| <= |BatchMessages(log)|
    ensures |WireContents(log)| == |BatchMessages(log)| <==> forall i | 0 <= i < |log| :: !Dropped(log[i], room)
    ensures |WireContents(log)| == |BatchMessages(log)| ==> WireContents(log) == BatchMessages(log)
  {
    hide Contents, FramedSize, PackedAs;
    if log == [] {
    } else {
      var init, last := log[..|log| - 1], log[|log| - 1];
      assert forall i | 0 <= i < |init| :: log[i] == init[i];
      WireLosesIff(init, room);
      ContentsIff(last, room);
    }
  }

  /** What a receiver can unpack from what the device got, followed by what is pending, is exactly what
      was accepted iff no batch met a rejected post or a connection that was down, which does not put it
      back, and no batch was longer than a buffer, which cuts it off. The second happens only to a
      message that alone is too long: see `CapacityIff`. */
  lemma OnTheWireIff(cfg: Config, all: seq<Buffer>, ops: seq<Op>)
    requires all != [] && DistinctAddrs(all) && forall op | op in ops :: Sendable(op)
    requires cfg.bufferSize <= cfg.bufferLength
    ensures var s := Run(Start(cfg, all), ops);
      WireContents(s.log) + s.pending == AcceptedBy(Start(cfg, all), ops)
      <==> forall i | 0 <= i < |s.log| :: !Dropped(s.log[i], cfg.bufferLength)
    ensures AllFit(cfg, all, ops) ==>
      forall a | a in Run(Start(cfg, all), ops).log :: Dropped(a, cfg.bufferLength) <==> a.batch && !a.outcome.Posted?
  {
    hide Run, AcceptedBy, Dropped, Start, WireContents, BatchMessages, AllPacked, FramedSize, Fits;
    var s := Run(Start(cfg, all), ops);
    ConfigKept(cfg, all, ops);
    RunOrder(cfg, all, ops);
    WireLosesIff(s.log, cfg.bufferLength);
    assert |WireContents(s.log) + s.pending| == |WireContents(s.log)| + |s.pending|;
    CapacityIff(cfg, all, ops, cfg.bufferLength);
    DroppedWhenFitting(s, cfg.bufferLength);
  }

  lemma DroppedWhenFitting(s: Loop, room: nat)
    ensures BatchesFit(s, room) ==> forall a | a in s.log :: Dropped(a, room) <==> a.batch && !a.outcome.Posted?
  {
  }

  /** Concrete run: one aggregated message is accepted, its flush is rejected, and it is gone. */
  lemma DroppedRun(cfg: Config, b: Buffer, a: Payload, reject: Env)
    requires cfg.enableAggregate && !reject.accepts && BatchBytes([a]) <= cfg.bufferLength
    ensures var ops := [DoSend(a, true, reject, reject)];
      var s := Run(Start(cfg, [b]), ops);
      AcceptedBy(Start(cfg, [b]), ops) == [a] && WireContents(s.log) == s.pending == []
  {
    hide Packed, Contents, BatchMessages, Leaked, Lost;
    var op := DoSend(a, true, reject, reject);
    var start := Start(cfg, [b]);
    assert [op][..0] == [];
    FirstAggregated(start, a, reject);
    var s := Run(start, [op]);
    assert s.log[..0] == [];
    assert WireContents(s.log[..0]) == [];
    assert Accepted(start, op) == [a];
    assert AcceptedBy(start, [op]) == AcceptedBy(start, []) + [a];
  }

  /** The first aggregated message of a loop goes out at once, whatever its size. */
  lemma FirstAggregated(s: Loop, a: Payload, env: Env)
    requires s.cfg.enableAggregate && s.connected && s.pending == [] && s.pendingSize == 0 && s.ongoing == 0
    requires s.bufs.free != [] && s.log == []
    ensures var t := Step(s, DoSend(a, true, env, env));
      && t.pending == [] && |t.log| == 1 && t.log[0].batch && t.log[0].messages == [a]
      && t.log[0].bytes == Clipped(Packed([a], env.now), s.cfg.bufferLength)
      && (t.log[0].outcome.Posted? <==> env.accepts)
  {
    hide Packed;
    assert [] + [a] == [a];
  }

  /** When an immediate send is posted while messages wait, the whole message order (batched and
      immediate) survives only if the waiting messages cannot be told apart from the new one. */
  lemma ImmediateOvertakes(s: Loop, data: Payload, env: Env)
    requires s.connected && env.accepts && s.bufs.free != [] && |data| < UINT32_LIMIT
    requires BatchBytes([data]) <= s.cfg.bufferLength
    ensures var t := ImmediateSend(s, data, env).0;
      (PostedContents(t.log) + t.pending == PostedContents(s.log) + s.pending + [data])
      <==> (forall m | m in s.pending :: m == data)
  {
    hide ImmediateSend, Contents;
    var t := ImmediateSend(s, data, env).0;
    SinglePosted(s, data, env);
    assert PostedContents(t.log) == PostedContents(s.log) + [data];
    var before, p := PostedContents(s.log), s.pending;
    var moved, kept := before + [data] + p, before + p + [data];
    if moved == kept {
      assert moved[|before|..] == [data] + p && kept[|before|..] == p + [data];
      ShiftedEqual(data, p);
    }
    if forall m | m in p :: m == data {
      assert forall i | 0 <= i < |p| :: p[i] in p;
      assert moved == kept;
    }
  }

  /** Concrete run: with two buffers, an aggregated message waits behind an immediate one, and a second
      immediate one overtakes it. */
  lemma OvertakingRun(cfg: Config, b: Buffer, c: Buffer, x: Payload, a: Payload, d: Payload, env: Env)
    requires b.addr != c.addr && cfg.enableAggregate && env.accepts && BatchBytes([a]) <= cfg.sendThreshold
    requires forall m | m in [x, a, d] :: |m| < UINT32_LIMIT && BatchBytes([m]) <= cfg.bufferLength
    ensures var s := Run(Start(cfg, [b, c]),
                         [DoSend(x, false, env, env), DoSend(a, true, env, env), DoSend(d, false, env, env)]);
      PostedContents(s.log) == [x, d] && s.pending == [a]
  {
    hide Contents, Step, ImmediateSend, FramedSize;
    var ops := [DoSend(x, false, env, env), DoSend(a, true, env, env), DoSend(d, false, env, env)];
    assert ops[..2][..1] == ops[..1] && ops[..1][..0] == [];
    var s0 := Start(cfg, [b, c]);
    assert x in [x, a, d] && a in [x, a, d] && d in [x, a, d];
    var s1, s2, s3 := Run(s0, ops[..1]), Run(s0, ops[..2]), Run(s0, ops);
    assert Run(s0, ops[..1][..0]) == s0;
    assert s1 == Step(s0, ops[0]) && s2 == Step(s1, ops[1]) && s3 == Step(s2, ops[2]);
    SinglePosted(s0, x, env);
    WaitsBehind(s1, a, env);
    SinglePosted(s2, d, env);
    assert PostedContents(s0.log) == [];
  }

  /** An immediate send that fits, finds a buffer and is accepted. */
  lemma SinglePosted(s: Loop, m: Payload, env: Env)
    requires s.connected && env.accepts && s.bufs.free != [] && |m| < UINT32_LIMIT
    requires BatchBytes([m]) <= s.cfg.bufferLength
    ensures Step(s, DoSend(m, false, env, env)) == ImmediateSend(s, m, env).0
    ensures var t := ImmediateSend(s, m, env).0;
      && PostedContents(t.log) == PostedContents(s.log) + [m]
      && t.bufs.free == s.bufs.free[1..] && t.ongoing == s.ongoing + 1
      && t.pending == s.pending && t.pendingSize == s.pendingSize && t.cfg == s.cfg && t.connected
  {
    hide Packed, Unpack;
    OneMessageBytes(m);
    RoundTrip([m], env.now, []);
    assert Packed([m], env.now) + [] == Packed([m], env.now);
    var t := ImmediateSend(s, m, env).0;
    assert t.log[..|s.log|] == s.log;
  }

  /** An aggregated message below the threshold waits behind a counted send. */
  lemma WaitsBehind(s: Loop, m: Payload, env: Env)
    requires s.cfg.enableAggregate && s.pending == [] && s.pendingSize == 0 && s.ongoing > 0
    requires BatchBytes([m]) <= s.cfg.sendThreshold
    ensures var t := Step(s, DoSend(m, true, env, env));
      t.pending == [m] && t == s.(pending := t.pending, pendingSize := t.pendingSize)
  {
    OneMessageBytes(m);
    assert [] + [m] == [m];
  }

  /** What a receiver unpacks from everything the device accepted. */
  ghost function PostedContents(log: seq<Attempt>): seq<Payload>
  {
    if log == [] then []
    else
      var last := log[|log| - 1];
      PostedContents(log[..|log| - 1]) + (if last.outcome.Posted? then Contents(last) else [])
  }

  lemma {:induction false} ShiftedEqual(x: Payload, p: seq<Payload>)
    requires [x] + p == p + [x]
    ensures forall m | m in p :: m == x
  {
    if p == [] {
    } else {
      assert ([x] + p)[0] == p[0];
      assert p == [x] + p[1..];
      assert ([x] + p)[1..] == p && (p + [x])[1..] == p[1..] + [x];
      ShiftedEqual(x, p[1..]);
    }
  }

  // ---------------------------------------------------------------- batch capacity

  /** A waiting batch takes at most `limit` bytes: the aggregator's buffer size, or the real length of
      the pool's buffers, which may be larger. */
  ghost predicate Fits(s: Loop, limit: nat)
  {
    s.pending != [] ==> CMD_HEADER_SIZE + s.pendingSize <= limit
  }

  lemma FramedSizePositive(ms: seq<Payload>)
    ensures FramedSize(ms) == 0 <==> ms == []
  {
  }

  /** Nothing but the size of the message itself decides whether its batch fits: the overflow check
      covers every other cause. There is no size check on this path. */
  lemma AppendFits(s: Loop, data: Payload, env: Env, limit: nat)
    requires Inv(s) && Fits(s, limit) && s.cfg.bufferSize <= limit && MakeRoom(s, data, env).1 == Success
    ensures Fits(Append(MakeRoom(s, data, env).0, data), limit) <==> BatchBytes([data]) <= limit
    ensures Accounted(MakeRoom(s, data, env).0)
  {
    hide Partition, Launch;
    FlushKeeps(s, env);
    FramedSizePositive(s.pending);
    assert FramedSize([data]) == APP_HEADER_SIZE + |data| + FramedSize([]);
  }

  /** Every batch handed to the connection takes at most `limit` bytes. */
  ghost predicate BatchesFit(s: Loop, limit: nat)
  {
    forall i | 0 <= i < |s.log| && s.log[i].batch :: BatchBytes(s.log[i].messages) <= limit
  }

  lemma FlushFits(s: Loop, env: Env, limit: nat)
    requires Accounted(s) && Fits(s, limit) && BatchesFit(s, limit)
    ensures Fits(Flush(s, env).0, limit) && BatchesFit(Flush(s, env).0, limit)
  {
    hide Partition, Launch, Leaked, Packed;
    if s.pending != [] && s.bufs.free != [] {
      var emptied := s.(pending := [], pendingSize := 0);
      LaunchKeeps(emptied, s.pending, true, env);
      var t := Launch(emptied, s.pending, true, env).0;
      assert forall i | 0 <= i < |s.log| :: t.log[i] == t.log[..|s.log|][i];
    }
  }

  lemma AggregateFits(s: Loop, data: Payload, env1: Env, env2: Env, limit: nat)
    requires Inv(s) && Fits(s, limit) && BatchesFit(s, limit)
    requires s.cfg.bufferSize <= limit && (MakeRoom(s, data, env1).1 == Success ==> BatchBytes([data]) <= limit)
    ensures var t := AggregateSend(s, data, env1, env2).0; Fits(t, limit) && BatchesFit(t, limit) && t.cfg == s.cfg
  {
    hide Partition, Flush, Leaked, Lost;
    FlushFits(s, env1, limit);
    FlushKeeps(s, env1);
    var (roomy, status) := MakeRoom(s, data, env1);
    if status == Success {
      AppendFits(s, data, env1, limit);
      AppendKeeps(roomy, data);
      FlushFits(Append(roomy, data), env2, limit);
      FlushKeeps(Append(roomy, data), env2);
    }
  }

  lemma ImmediateFits(s: Loop, data: Payload, env: Env, limit: nat)
    requires Inv(s) && Fits(s, limit) && BatchesFit(s, limit)
    ensures var t := ImmediateSend(s, data, env).0; Fits(t, limit) && BatchesFit(t, limit) && t.cfg == s.cfg
  {
    hide Partition, Launch, Leaked;
    if s.bufs.free != [] {
      LaunchKeeps(s, [data], false, env);
      var t := Launch(s, [data], false, env).0;
      assert forall i | 0 <= i < |s.log| :: t.log[i] == t.log[..|s.log|][i];
    }
  }

  lemma StepFits(s: Loop, op: Op, limit: nat)
    requires Inv(s) && Fits(s, limit) && BatchesFit(s, limit) && s.cfg.bufferSize <= limit
    requires forall m | m in Accepted(s, op) :: BatchBytes([m]) <= limit
    ensures Fits(Step(s, op), limit) && BatchesFit(Step(s, op), limit) && Step(s, op).cfg == s.cfg
  {
    hide Partition, Flush, ImmediateSend, AggregateSend, Leaked;
    match op
    case DoSend(data, busy, env1, env2) =>
      if s.cfg.enableAggregate && busy {
        AggregateFits(s, data, env1, env2, limit);
      } else {
        ImmediateFits(s, data, env1, limit);
      }
    case DoFlush(env) =>
      FlushFits(s, env, limit);
      FlushKeeps(s, env);
    case Completion(w, env) =>
      if w in s.bufs.tracked {
        ReleasePartition(s.bufs, Leaked(s.log), w);
        FlushFits(s.(bufs := s.bufs.Release(w), ongoing := s.ongoing - 1), env, limit);
        FlushKeeps(s.(bufs := s.bufs.Release(w), ongoing := s.ongoing - 1), env);
      }
    case ErrorCompletion(w) =>
    case SetConnected(_) =>
  }

  lemma {:induction false} ConfigKept(cfg: Config, all: seq<Buffer>, ops: seq<Op>)
    requires all != [] && DistinctAddrs(all)
    ensures Run(Start(cfg, all), ops).cfg == cfg
  {
    hide Step, Inv;
    if ops == [] {
    } else {
      ConfigKept(cfg, all, ops[..|ops| - 1]);
      RunKeeps(cfg, all, ops[..|ops| - 1]);
      StepConfig(Run(Start(cfg, all), ops[..|ops| - 1]), ops[|ops| - 1]);
    }
  }

  /** Over every run in which each accepted message alone fits, no batch ever exceeds the buffer, even
      after failed flushes put messages back. */
  lemma {:induction false} Capacity(cfg: Config, all: seq<Buffer>, ops: seq<Op>, limit: nat)
    requires all != [] && DistinctAddrs(all) && cfg.bufferSize <= limit
    requires forall m | m in AcceptedBy(Start(cfg, all), ops) :: BatchBytes([m]) <= limit
    ensures var s := Run(Start(cfg, all), ops);
      Fits(s, limit) && BatchesFit(s, limit) && s.cfg == cfg && s.pendingSize == FramedSize(s.pending)
  {
    hide Partition, Step, FramedSize, Accepted;
    RunKeeps(cfg, all, ops);
    if ops == [] {
    } else {
      var init, op := ops[..|ops| - 1], ops[|ops| - 1];
      var s := Run(Start(cfg, all), init);
      assert AcceptedBy(Start(cfg, all), ops) == AcceptedBy(Start(cfg, all), init) + Accepted(s, op);
      Capacity(cfg, all, init, limit);
      RunKeeps(cfg, all, init);
      StepFits(s, op, limit);
    }
  }

  lemma {:induction false} MemberFits(ms: seq<Payload>, m: Payload)
    requires m in ms
    ensures BatchBytes([m]) <= BatchBytes(ms)
  {
    OneMessageBytes(m);
    if ms[0] == m {
    } else {
      MemberFits(ms[1..], m);
    }
  }

  /** Every batch, sent or waiting, stays within the limit iff every accepted message alone does. */
  lemma CapacityIff(cfg: Config, all: seq<Buffer>, ops: seq<Op>, limit: nat)
    requires all != [] && DistinctAddrs(all) && forall op | op in ops :: Sendable(op)
    requires cfg.bufferSize <= limit
    ensures var s := Run(Start(cfg, all), ops);
      Fits(s, limit) && BatchesFit(s, limit)
      <==> forall m | m in AcceptedBy(Start(cfg, all), ops) :: BatchBytes([m]) <= limit
    ensures Run(Start(cfg, all), ops).cfg == cfg
  {
    hide Run, AcceptedBy, FramedSize, Partition, Sound;
    var s := Run(Start(cfg, all), ops);
    ConfigKept(cfg, all, ops);
    RunOrder(cfg, all, ops);
    RunKeeps(cfg, all, ops);
    if Fits(s, limit) && BatchesFit(s, limit) {
      forall m | m in AcceptedBy(Start(cfg, all), ops) ensures BatchBytes([m]) <= limit {
        assert m in BatchMessages(s.log) + s.pending;
        if m in s.pending {
          MemberFits(s.pending, m);
        } else {
          var i := BatchOf(s.log, m);
          MemberFits(s.log[i].messages, m);
        }
      }
    }
    if forall m | m in AcceptedBy(Start(cfg, all), ops) :: BatchBytes([m]) <= limit {
      Capacity(cfg, all, ops, limit);
    }
  }

  lemma {:induction false} BatchOf(log: seq<Attempt>, m: Payload) returns (i: nat)
    requires m in BatchMessages(log)
    ensures i < |log| && log[i].batch && m in log[i].messages
  {
    var last := |log| - 1;
    if log[last].batch && m in log[last].messages {
      i := last;
    } else {
      i := BatchOf(log[..last], m);
    }
  }

  /** Concrete run: a single aggregated message longer than a buffer is accepted, cut off and posted; it
      is not pending any more, and a receiver gets nothing of it. */
  lemma OversizeRun(cfg: Config, b: Buffer, big: Payload, env: Env)
    requires cfg.enableAggregate && env.accepts && |big| < UINT32_LIMIT
    requires CMD_HEADER_SIZE + APP_HEADER_SIZE <= cfg.bufferLength < BatchBytes([big])
    ensures var ops := [DoSend(big, true, env, env)];
      var s := Run(Start(cfg, [b]), ops);
      && AcceptedBy(Start(cfg, [b]), ops) == [big] && s.pending == [] && WireContents(s.log) == []
      && |s.log| == 1 && s.log[0].outcome.Posted? && |s.log[0].bytes| == cfg.bufferLength
  {
    hide Packed, Contents, BatchMessages, Leaked, Lost, Step, FramedSize, MakeRoom;
    var op, start := DoSend(big, true, env, env), Start(cfg, [b]);
    assert [op][..0] == [];
    FirstAggregated(start, big, env);
    var s := Run(start, [op]);
    assert Run(start, [op][..0]) == start;
    assert s == Step(start, op);
    assert [big][0] == big && PackedAs(s.log[0], cfg.bufferLength);
    ContentsIff(s.log[0], cfg.bufferLength);
    assert s.log[..0] == [] && WireContents(s.log[..0]) == [];
    assert Accepted(start, op) == [big] by {
      NoOverflowYet(start, big, env);
    }
    assert AcceptedBy(start, [op]) == AcceptedBy(start, []) + [big];
  }

  lemma NoOverflowYet(s: Loop, data: Payload, env: Env)
    requires s.pendingSize == 0
    ensures MakeRoom(s, data, env) == (s, Success)
  {
  }

  /** The headers of the batch that waits fit any buffer that the aggregator's batches and one header
      fit: packing it cannot run past the end of the buffer, whatever the messages. */
  ghost predicate Packable(s: Loop)
  {
    |s.pending| <= 1 || CMD_HEADER_SIZE + s.pendingSize <= s.cfg.bufferSize
  }

  lemma PackableHeadersFit(s: Loop)
    requires Accounted(s) && Packable(s)
    requires s.cfg.bufferSize <= s.cfg.bufferLength && CMD_HEADER_SIZE + APP_HEADER_SIZE <= s.cfg.bufferLength
    ensures HeadersFit(s.pending, s.cfg.bufferLength)
  {
    hide Partition;
    var ms := s.pending;
    if |ms| > 0 {
      assert ms == ms[..|ms| - 1] + [ms[|ms| - 1]];
      FramedSizeConcat(ms[..|ms| - 1], [ms[|ms| - 1]]);
      OneMessageBytes(ms[|ms| - 1]);
    }
  }

  /** Whatever its size, a message is appended to a batch that keeps its headers inside a buffer. */
  lemma AppendPackable(s: Loop, data: Payload, env: Env)
    requires Inv(s) && Packable(s) && MakeRoom(s, data, env).1 == Success
    ensures Packable(Append(MakeRoom(s, data, env).0, data)) && Accounted(MakeRoom(s, data, env).0)
  {
    hide Partition, Launch, Leaked;
    FlushKeeps(s, env);
    FramedSizePositive(s.pending);
  }

  lemma ImmediatePackable(s: Loop, data: Payload, env: Env)
    requires Inv(s) && Packable(s)
    ensures Packable(ImmediateSend(s, data, env).0)
  {
    hide Partition, Launch, Leaked;
    if s.bufs.free != [] {
      LaunchKeeps(s, [data], false, env);
    }
  }

  lemma FlushPackable(s: Loop, env: Env)
    requires Accounted(s) && Packable(s)
    ensures Packable(Flush(s, env).0)
  {
    hide Partition, Launch, Leaked;
    FlushKeeps(s, env);
  }

  lemma StepPackable(s: Loop, op: Op)
    requires Inv(s) && Packable(s)
    ensures Packable(Step(s, op))
  {
    hide Partition, Flush, MakeRoom, Launch, Leaked, FramedSize;
    match op
    case DoSend(data, busy, env1, env2) =>
      RoomPackable(s, data, env1);
      if MakeRoom(s, data, env1).1 == Success {
        AppendPackable(s, data, env1);
        AppendKeeps(MakeRoom(s, data, env1).0, data);
        FlushPackable(Append(MakeRoom(s, data, env1).0, data), env2);
      }
      ImmediatePackable(s, data, env1);
    case DoFlush(env) => FlushPackable(s, env);
    case Completion(w, env) =>
      if w in s.bufs.tracked {
        ReleasePartition(s.bufs, Leaked(s.log), w);
        FlushPackable(s.(bufs := s.bufs.Release(w), ongoing := s.ongoing - 1), env);
      }
    case ErrorCompletion(w) =>
    case SetConnected(_) =>
  }

  lemma RoomPackable(s: Loop, data: Payload, env: Env)
    requires Inv(s) && Packable(s)
    ensures Packable(MakeRoom(s, data, env).0)
  {
    hide Partition, Flush, Leaked;
    FlushPackable(s, env);
  }

  /** Over every run, messages of any size included, packing never runs past the end of a buffer. */
  lemma {:induction false} PackingIsSafe(cfg: Config, all: seq<Buffer>, ops: seq<Op>)
    requires all != [] && DistinctAddrs(all)
    requires cfg.bufferSize <= cfg.bufferLength && CMD_HEADER_SIZE + APP_HEADER_SIZE <= cfg.bufferLength
    ensures var s := Run(Start(cfg, all), ops); Packable(s) && HeadersFit(s.pending, cfg.bufferLength)
  {
    hide Partition, Step, HeadersFit, Packable;
    RunKeeps(cfg, all, ops);
    ConfigKept(cfg, all, ops);
    if ops == [] {
      StartPackable(cfg, all);
    } else {
      PackingIsSafe(cfg, all, ops[..|ops| - 1]);
      RunKeeps(cfg, all, ops[..|ops| - 1]);
      StepPackable(Run(Start(cfg, all), ops[..|ops| - 1]), ops[|ops| - 1]);
    }
    PackableHeadersFit(Run(Start(cfg, all), ops));
  }

  lemma StartPackable(cfg: Config, all: seq<Buffer>)
    ensures Packable(Start(cfg, all))
  {
  }

  /** What an aggregated send that reports success leaves waiting is below the threshold, and some
      counted send is still to complete. */
  lemma BelowThreshold(s: Loop, data: Payload, env1: Env, env2: Env)
    requires Inv(s) && AggregateSend(s, data, env1, env2).1 == Success
    ensures var t := AggregateSend(s, data, env1, env2).0;
      t.pending != [] ==> CMD_HEADER_SIZE + t.pendingSize <= s.cfg.sendThreshold && t.ongoing > 0
  {
    hide Partition, Flush, Leaked, Lost;
    FlushKeeps(s, env1);
    var roomy := MakeRoom(s, data, env1).0;
    AppendKeeps(roomy, data);
    FlushKeeps(Append(roomy, data), env2);
  }

  /** No operation changes the configuration. */
  lemma StepConfig(s: Loop, op: Op)
    requires Inv(s)
    ensures Step(s, op).cfg == s.cfg
  {
    hide Accounted, Flush, AggregateSend, ImmediateSend, OnCompletion;
    match op
    case DoSend(data, busy, env1, env2) =>
      AggregateConfig(s, data, env1, env2);
      ImmediateConfig(s, data, env1);
    case DoFlush(env) => FlushKeeps(s, env);
    case Completion(w, env) => CompletionConfig(s, w, env);
    case ErrorCompletion(w) =>
    case SetConnected(_) =>
  }

  lemma AggregateConfig(s: Loop, data: Payload, env1: Env, env2: Env)
    requires Inv(s)
    ensures AggregateSend(s, data, env1, env2).0.cfg == s.cfg
  {
    hide Accounted, Flush;
    FlushKeeps(s, env1);
    if MakeRoom(s, data, env1).1 == Success {
      AppendKeeps(MakeRoom(s, data, env1).0, data);
      FlushKeeps(Append(MakeRoom(s, data, env1).0, data), env2);
    }
  }

  lemma ImmediateConfig(s: Loop, data: Payload, env: Env)
    requires Inv(s)
    ensures ImmediateSend(s, data, env).0.cfg == s.cfg
  {
    hide Accounted, Launch;
    if s.bufs.free != [] {
      LaunchKeeps(s, [data], false, env);
    }
  }

  lemma CompletionConfig(s: Loop, w: nat, env: Env)
    requires Inv(s)
    ensures OnCompletion(s, w, env).cfg == s.cfg
  {
    hide Partition, Leaked, Flush;
    if w in s.bufs.tracked {
      ReleasePartition(s.bufs, Leaked(s.log), w);
      FlushKeeps(s.(bufs := s.bufs.Release(w), ongoing := s.ongoing - 1), env);
    }
  }
}
