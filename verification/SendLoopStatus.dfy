/** What the status of a send tells its caller: which guard failed, and where the message then is. */
module SendLoopStatus {
  import opened Wire
  import opened BufferPool
  import opened SendLoopSpec
  import opened SendLoopProofs
  import opened SendLoopTheorems

  /** What becomes of a batch or message handed over with `free` buffers left: no buffer, no connection, a
      rejected post, or success, in the order the code looks. */
  function Verdict(free: int, connected: bool, accepts: bool): Status
  {
    if free <= 0 then NoBuffer
    else if !connected then Disconnected
    else if !accepts then PostFailed
    else Success
  }

  /** The last attempt, and the only new one, holds exactly `ms`, and was posted iff it succeeded. */
  ghost predicate HandedOver(before: seq<Attempt>, after: seq<Attempt>, ms: seq<Payload>, batch: bool, posted: bool)
  {
    && |after| == |before| + 1 && after[..|before|] == before
    && after[|before|].messages == ms && after[|before|].batch == batch
    && (after[|before|].outcome.Posted? <==> posted)
  }

  lemma LaunchStatus(s: Loop, ms: seq<Payload>, batch: bool, env: Env)
    requires Accounted(s) && s.bufs.free != []
    ensures var (t, status) := Launch(s, ms, batch, env);
      && status == Verdict(|s.bufs.free|, s.connected, env.accepts)
      && HandedOver(s.log, t.log, ms, batch, status == Success)
  {
    hide Accounted;
    LaunchKeeps(s, ms, batch, env);
  }

  /** A flush of nothing succeeds. Otherwise its status is the verdict on the batch: without a buffer all
      stays as it was; else the batch of all that was pending was handed over, and nothing is pending. */
  lemma FlushStatus(s: Loop, env: Env)
    requires Accounted(s)
    ensures var (t, status) := Flush(s, env);
      if s.pending == [] then status == Success && t == s
      else
        && status == Verdict(|s.bufs.free|, s.connected, env.accepts)
        && (status == NoBuffer ==> t == s)
        && (status != NoBuffer ==> t.pending == [] && HandedOver(s.log, t.log, s.pending, true, status == Success))
  {
    hide Partition, Launch, Leaked, HandedOver, Verdict;
    FlushKeeps(s, env);
    if s.pending != [] {
      if s.bufs.free == [] {
        NoneFree(s, env);
      } else {
        LaunchStatus(s.(pending := [], pendingSize := 0), s.pending, true, env);
        HasBuffer(|s.bufs.free|, s.connected, env.accepts);
      }
    }
  }

  lemma NoneFree(s: Loop, env: Env)
    ensures Verdict(0, s.connected, env.accepts) == NoBuffer
  {
  }

  lemma HasBuffer(free: int, connected: bool, accepts: bool)
    requires free > 0
    ensures Verdict(free, connected, accepts) in {Success, PostFailed, Disconnected}
  {
  }

  /** An immediate send succeeds iff a buffer was free, the message fits it, the connection was up and the
      device took the post; its message is then on the wire. Each failing guard has its own error, in this
      order, and without a buffer or with a message too large nothing was handed over. */
  lemma ImmediateStatus(s: Loop, data: Payload, env: Env)
    requires Inv(s) && Sound(s) && |data| < UINT32_LIMIT
    ensures var (t, status) := ImmediateSend(s, data, env);
      && status == (if s.bufs.free != [] && BatchBytes([data]) > s.cfg.bufferLength then BufferTooSmall
                    else Verdict(|s.bufs.free|, s.connected, env.accepts))
      && t.pending == s.pending
      && (status in {NoBuffer, BufferTooSmall} ==> t.log == s.log && |t.bufs.free| == |s.bufs.free|)
      && (status in {Success, PostFailed, Disconnected} ==>
            HandedOver(s.log, t.log, [data], false, status == Success) && Contents(t.log[|s.log|]) == [data])
  {
    hide Partition, Launch, Leaked, Lost, HandedOver, Verdict, Contents, AllPacked;
    OneMessageBytes(data);
    ImmediateOrder(s, data, env);
    if s.bufs.free == [] {
      NoneFree(s, env);
    } else if BatchBytes([data]) > s.cfg.bufferLength {
      AcquirePartition(s.bufs, Leaked(s.log));
      CompletePartition(s.bufs.Acquire(), Leaked(s.log), s.bufs.free[0]);
    } else {
      LaunchStatus(s, [data], false, env);
      LaunchOrder(s, [data], false, env);
      HasBuffer(|s.bufs.free|, s.connected, env.accepts);
    }
  }

  /** The message would not fit the batch that waits. */
  ghost predicate Overfull(s: Loop, data: Payload)
  {
    s.pending != [] && BatchBytes(s.pending) + APP_HEADER_SIZE + |data| > s.cfg.bufferSize
  }

  /** With the message added and the batches handed over so far counted, a flush is due. */
  ghost predicate Due(s: Loop, waiting: seq<Payload>, handed: nat)
  {
    BatchBytes(waiting) > s.cfg.sendThreshold || s.ongoing + handed == 0
  }

  /** What an aggregated send does, by the guards alone.
      If the batch that waits is overfull it is flushed first. If that fails, its verdict is the status and
      the message was not accepted. Otherwise the message is added; if no flush is then due, it waits, and
      the send succeeds. If one is due, its verdict is the status: without a buffer the message waits, with
      any other error it was handed over and lost, and with success it is on the wire. */
  lemma AggregateStatus(s: Loop, data: Payload, env1: Env, env2: Env)
    requires Inv(s)
    ensures var (t, status) := AggregateSend(s, data, env1, env2);
      var over := Overfull(s, data);
      var first := if over then Verdict(|s.bufs.free|, s.connected, env1.accepts) else Success;
      if first != Success then
        && status == first
        && (status == NoBuffer ==> t == s)
        && (status != NoBuffer ==> t.pending == [] && HandedOver(s.log, t.log, s.pending, true, false))
      else
        var (handed, waiting) := (if over then 1 else 0, (if over then [] else s.pending) + [data]);
        var log := t.log[..|s.log| + handed];
        && |t.log| >= |s.log| + handed
        && (over ==> HandedOver(s.log, log, s.pending, true, true)) && (!over ==> log == s.log)
        && if !Due(s, waiting, handed) then status == Success && t.pending == waiting && t.log == log
           else
             && status == Verdict(|s.bufs.free| - handed, s.connected, env2.accepts)
             && (status == NoBuffer ==> t.pending == waiting && t.log == log)
             && (status != NoBuffer ==>
                   t.pending == [] && HandedOver(log, t.log, waiting, true, status == Success))
  {
    hide Accounted, Flush, Verdict, MakeRoom, FlushDue, Append;
    RoomStatus(s, data, env1);
    var (roomy, status) := MakeRoom(s, data, env1);
    if status == Success {
      AppendKeeps(roomy, data);
      AddedMessage(roomy, data);
      FlushStatus(Append(roomy, data), env2);
      FlushLog(Append(roomy, data), env2);
      var t := AggregateSend(s, data, env1, env2).0;
      assert t.log[..|roomy.log|] == roomy.log;
    }
  }

  /** The overflow flush. */
  lemma RoomStatus(s: Loop, data: Payload, env: Env)
    requires Inv(s)
    ensures var (t, status) := MakeRoom(s, data, env);
      var over := Overfull(s, data);
      && Accounted(t) && t.cfg == s.cfg && t.connected == s.connected
      && status == (if over then Verdict(|s.bufs.free|, s.connected, env.accepts) else Success)
      && (!over || status == NoBuffer ==> t == s)
      && (over && status != NoBuffer ==>
            t.pending == [] && HandedOver(s.log, t.log, s.pending, true, status == Success))
      && (over && status == Success ==> |t.bufs.free| == |s.bufs.free| - 1 && t.ongoing == s.ongoing + 1)
  {
    hide Partition, Flush, Leaked, HandedOver, Verdict;
    FramedSizePositive(s.pending);
    FlushStatus(s, env);
    FlushKeeps(s, env);
    FlushTakesOne(s, env);
  }

  lemma FlushTakesOne(s: Loop, env: Env)
    requires Accounted(s)
    ensures var (t, status) := Flush(s, env);
      s.pending != [] && status == Success ==> |t.bufs.free| == |s.bufs.free| - 1
  {
    hide Partition, Packed, Leaked, FramedSize;
  }

  lemma AddedMessage(s: Loop, data: Payload)
    requires Accounted(s)
    ensures var t := Append(s, data);
      && t.pending == s.pending + [data] && t.log == s.log && t.cfg == s.cfg && t.connected == s.connected
      && t.bufs == s.bufs && t.ongoing == s.ongoing
      && (FlushDue(t) <==> BatchBytes(t.pending) > s.cfg.sendThreshold || s.ongoing == 0)
  {
    hide Partition;
    FramedSizeConcat(s.pending, [data]);
  }

  /** A flush only adds to the log. */
  lemma FlushLog(s: Loop, env: Env)
    requires Accounted(s)
    ensures var t := Flush(s, env).0; |t.log| >= |s.log| && t.log[..|s.log|] == s.log
  {
    hide Partition, Launch, Leaked;
    if s.pending != [] && s.bufs.free != [] {
      LaunchKeeps(s.(pending := [], pendingSize := 0), s.pending, true, env);
    }
  }

  /** The path a send takes, and with it what its status means. */
  lemma SendPath(s: Loop, data: Payload, busy: bool, env1: Env, env2: Env)
    ensures Send(s, data, busy, env1, env2) ==
      if s.cfg.enableAggregate && busy then AggregateSend(s, data, env1, env2) else ImmediateSend(s, data, env1)
  {
  }

  /** A send that reports success has its message on the wire or last among those that wait; and the only
      other way a message is still there is a flush that found no buffer. */
  lemma SuccessMeans(s: Loop, data: Payload, busy: bool, env1: Env, env2: Env)
    requires Inv(s) && Sound(s) && |data| < UINT32_LIMIT
    ensures var (t, status) := Send(s, data, busy, env1, env2);
      status == Success ==>
        || (t.pending != [] && t.pending[|t.pending| - 1] == data)
        || (t.log != [] && t.log[|t.log| - 1].outcome.Posted? && t.log[|t.log| - 1].messages != []
            && t.log[|t.log| - 1].messages[|t.log[|t.log| - 1].messages| - 1] == data)
  {
    hide Accounted, AggregateSend, ImmediateSend, Verdict, Contents, AllPacked, Due, Overfull;
    if s.cfg.enableAggregate && busy {
      AggregateStatus(s, data, env1, env2);
    } else {
      ImmediateStatus(s, data, env1);
    }
  }
}
