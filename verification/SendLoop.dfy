/** The classes of the closed send loop: the completion handler (pkg/cq/dispatcher.go), the send
    side of a connection (pkg/connection/conn.go) and the aggregator (pkg/message/aggregator.go),
    over the pools of `BufferPool`. Each method is proved against its function in `SendLoopSpec`. */
module SendLoop {
  import opened Wire
  import opened BufferPool
  import opened SendLoopSpec
  import opened SendLoopProofs
  import opened SendLoopTheorems

  datatype ConnectionState = Init | Connecting | Connected | Draining | Closed | Errored

  class SendCompletionHandler {
    const sendPool: SendPool
    var wridMap: map<nat, Buffer>
    var onComplete: Aggregator?
    ghost var errorReleases: nat

    constructor (sendPool: SendPool)
      ensures this.sendPool == sendPool && wridMap == map[] && onComplete == null && errorReleases == 0
    {
      this.sendPool := sendPool;
      wridMap, onComplete, errorReleases := map[], null, 0;
    }

    method TrackSend(wrid: nat, buf: Buffer)
      modifies this`wridMap
      ensures wridMap == old(wridMap)[wrid := buf]
    {
      wridMap := wridMap[wrid := buf];
    }

    /** The WRID is off the map and its buffer was given back; an unknown one changed nothing. */
    twostate predicate GivenBack(wrid: nat)
      reads this, sendPool, sendPool.pool
    {
      var pool := sendPool.pool;
      if wrid in old(wridMap) then
        var buf := old(wridMap)[wrid];
        && wridMap == (map w | w in old(wridMap) && w != wrid :: old(wridMap)[w])
        && sendPool.inFlight == old(sendPool.inFlight) - {buf.addr}
        && sendPool.inFlightN == old(sendPool.inFlightN) - (if buf.addr in old(sendPool.inFlight) then 1 else 0)
        && pool.freeCh == if !pool.closed && |old(pool.freeCh)| < pool.bufferCount
                          then old(pool.freeCh) + [buf] else old(pool.freeCh)
      else
        && wridMap == old(wridMap)
        && sendPool.inFlight == old(sendPool.inFlight) && sendPool.inFlightN == old(sendPool.inFlightN)
        && pool.freeCh == old(pool.freeCh)
    }

    /** Takes the WRID off the map and gives its buffer back. Unknown and duplicate WRIDs change
        nothing. */
    method ReleaseTracked(wrid: nat) returns (found: bool)
      modifies this`wridMap, sendPool, sendPool.pool`freeCh
      ensures found <==> wrid in old(wridMap)
      ensures GivenBack(wrid)
    {
      found := wrid in wridMap;
      if found {
        var buf := wridMap[wrid];
        wridMap := map w | w in wridMap && w != wrid :: wridMap[w];
        sendPool.CompleteSend(buf);
      }
    }

    /** `ReleaseTracked` as a step of the whole loop. */
    method ReleaseInLoop(wrid: nat) returns (found: bool)
      requires onComplete != null && onComplete.conn.handler == this
      requires onComplete.Wired() && onComplete.conn.Intact()
      modifies this`wridMap, sendPool, sendPool.pool`freeCh
      ensures onComplete.conn.Intact() && (found <==> wrid in old(onComplete.View()).bufs.tracked)
      ensures found ==>
        onComplete.View() == old(onComplete.View()).(bufs := old(onComplete.View()).bufs.Release(wrid))
      ensures !found ==> onComplete.View() == old(onComplete.View())
    {
      found := ReleaseTracked(wrid);
    }

    /** An error completion gives the buffer back but does not tell the aggregator. */
    method OnErrorCompletion(wrid: nat)
      requires onComplete != null && onComplete.conn.handler == this && onComplete.Valid()
      modifies this`wridMap, this`errorReleases, sendPool, sendPool.pool`freeCh
      ensures onComplete.Valid()
      ensures onComplete.View() == SendLoopSpec.OnError(old(onComplete.View()), wrid)
    {
      hide Accounted, FramedSize, Pool.Mapped;
      ghost var before := onComplete.View();
      var _ := OnError(wrid);
      ErrorKeeps(before, wrid);
      assert onComplete.View() == SendLoopSpec.OnError(before, wrid);
    }

    method OnError(wrid: nat) returns (found: bool)
      modifies this`wridMap, this`errorReleases, sendPool, sendPool.pool`freeCh
      ensures found <==> wrid in old(wridMap)
      ensures errorReleases == old(errorReleases) + (if found then 1 else 0)
      ensures GivenBack(wrid)
    {
      found := ReleaseTracked(wrid);
      if found {
        errorReleases := errorReleases + 1;
      }
    }

    /** A successful completion gives the buffer back first and then tells the aggregator, if there is
        one, which may flush what waits. */
    method OnCompletion(wrid: nat, env: Env)
      requires onComplete != null ==> onComplete.conn.handler == this && onComplete.Valid()
      modifies this`wridMap, this`errorReleases, sendPool, sendPool.pool`freeCh
      modifies if onComplete == null then {} else {onComplete, onComplete.conn}
      modifies if onComplete == null then {} else sendPool.pool.mem.Values
      ensures onComplete == null ==> GivenBack(wrid)
      ensures onComplete != null ==>
        onComplete.Valid() && onComplete.View() == SendLoopSpec.OnCompletion(old(onComplete.View()), wrid, env)
    {
      if onComplete == null {
        var _ := ReleaseTracked(wrid);
      } else {
        CompleteAndTell(wrid, env);
      }
    }

    method CompleteAndTell(wrid: nat, env: Env)
      requires onComplete != null && onComplete.conn.handler == this && onComplete.Valid()
      modifies this`wridMap, this`errorReleases, sendPool, sendPool.pool`freeCh
      modifies onComplete, onComplete.conn, sendPool.pool.mem.Values
      ensures onComplete.Valid()
      ensures onComplete.View() == SendLoopSpec.OnCompletion(old(onComplete.View()), wrid, env)
    {
      hide Partition, Leaked, Packed, SendLoopSpec.Flush, Conn.Intact;
      ghost var before := onComplete.View();
      var found := ReleaseInLoop(wrid);
      if found {
        onComplete.AfterRelease(wrid, before);
        onComplete.OnSendComplete(env);
      }
    }

    method InFlight() returns (n: nat)
      ensures n == |wridMap|
    {
      n := |wridMap|;
    }
  }

  class Conn {
    const handler: SendCompletionHandler
    var state: ConnectionState
    var nextWrid: nat
    ghost var log: seq<Attempt>

    constructor (handler: SendCompletionHandler)
      ensures this.handler == handler && state == Init && nextWrid == 0 && log == []
    {
      this.handler := handler;
      state, nextWrid, log := Init, 0, [];
    }

    ghost function Bufs(): Buffers
      reads this, handler, handler.sendPool, handler.sendPool.pool
    {
      Buffers(handler.sendPool.pool.allBuffers, handler.sendPool.pool.freeCh, handler.sendPool.inFlight,
              handler.sendPool.inFlightN, handler.wridMap, nextWrid)
    }

    /** The device may still be reading the buffer of a tracked send: its bytes are those posted. */
    ghost predicate Intact()
      reads this`log, this`nextWrid, handler`wridMap
      reads handler.sendPool.pool`mem, handler.sendPool.pool.mem.Values
    {
      forall i | 0 <= i < |log| && log[i].outcome.Posted? ::
        log[i].outcome.wrid <= nextWrid && (log[i].outcome.wrid in handler.wridMap ==> Unchanged(log[i]))
    }

    ghost predicate Unchanged(a: Attempt)
      requires a.outcome.Posted? && a.outcome.wrid in handler.wridMap
      reads this`log, this`nextWrid, handler`wridMap
      reads handler.sendPool.pool`mem, handler.sendPool.pool.mem.Values
    {
      var mem := handler.sendPool.pool.mem;
      && handler.wridMap[a.outcome.wrid] == a.buf && a.buf.addr in mem
      && |a.bytes| <= mem[a.buf.addr].Length && mem[a.buf.addr][..|a.bytes|] == a.bytes
    }

    method SetState(newState: ConnectionState)
      modifies this`state
      ensures state == newState
    {
      state := newState;
    }

    /** Assigns a WRID, tracks the buffer before posting, and untracks it if the post is rejected.
        `s` is the loop state this connection belongs to. Nothing checks the length against the buffer. */
    method Send(buf: Buffer, length: nat, ghost ms: seq<Payload>, ghost batch: bool, accepts: bool, ghost s: Loop)
      returns (status: Status)
      requires handler.sendPool.pool.Open() && buf.addr in handler.sendPool.pool.mem
      requires s.bufs == Bufs() && s.connected == (state == Connected)
      requires s.log == log && s.errorReleases == handler.errorReleases
      modifies this`nextWrid, this`log, handler`wridMap, handler`errorReleases
      modifies handler.sendPool, handler.sendPool.pool`freeCh
      ensures var bytes := Clipped(handler.sendPool.pool.mem[buf.addr][..], length);
        var (t, expected) := ConnSend(s, buf, bytes, ms, batch, accepts);
        && status == expected && Bufs() == t.bufs && log == t.log && handler.errorReleases == t.errorReleases
    {
      hide Clipped;
      ghost var bytes := Clipped(handler.sendPool.pool.mem[buf.addr][..], length);
      if state != Connected {
        log := log + [Attempt(buf, bytes, ms, batch, NotConnected)];
        return Disconnected;
      }
      nextWrid := nextWrid + 1;
      var wrid := nextWrid;
      handler.TrackSend(wrid, buf);
      if !accepts {
        var _ := handler.OnError(wrid);
        log := log + [Attempt(buf, bytes, ms, batch, Rejected)];
        return PostFailed;
      }
      log := log + [Attempt(buf, bytes, ms, batch, Posted(wrid))];
      return Success;
    }
  }

  class Aggregator {
    const conn: Conn
    const sendPool: SendPool
    const bufferSize: nat
    const sendThreshold: nat
    const enableAggregate: bool
    var pending: seq<Payload>
    var pendingSize: int
    var ongoingSends: int
    var flushed: nat
    var sent: nat

    constructor (conn: Conn, sendPool: SendPool, bufferSize: int, sendThreshold: int, enableAggregate: bool)
      ensures this.conn == conn && this.sendPool == sendPool && this.enableAggregate == enableAggregate
      ensures this.bufferSize == (if bufferSize <= 0 then DEFAULT_BUFFER_SIZE else bufferSize)
      ensures this.sendThreshold == (if sendThreshold <= 0 then DEFAULT_SEND_THRESHOLD else sendThreshold)
      ensures pending == [] && pendingSize == ongoingSends == flushed == sent == 0
    {
      this.conn, this.sendPool, this.enableAggregate := conn, sendPool, enableAggregate;
      this.bufferSize := if bufferSize <= 0 then DEFAULT_BUFFER_SIZE else bufferSize;
      this.sendThreshold := if sendThreshold <= 0 then DEFAULT_SEND_THRESHOLD else sendThreshold;
      pending, pendingSize, ongoingSends, flushed, sent := [], 0, 0, 0, 0;
    }

    ghost function View(): Loop
      reads this, conn, conn.handler, conn.handler.sendPool, conn.handler.sendPool.pool
    {
      Loop(Config(conn.handler.sendPool.pool.bufferSize, bufferSize, sendThreshold, enableAggregate),
           conn.Bufs(), conn.state == Connected, pending, pendingSize, ongoingSends, flushed, sent,
           conn.log, conn.handler.errorReleases)
    }

    /** The objects are wired to each other over an open pool whose buffers hold what the aggregator
        batches, and at least two headers. */
    ghost predicate Wired()
      reads this, conn, conn.handler, sendPool, sendPool.pool
    {
      && conn.handler.sendPool == sendPool
      && sendPool.pool.Open() && bufferSize <= sendPool.pool.bufferSize
      && CMD_HEADER_SIZE + APP_HEADER_SIZE <= sendPool.pool.bufferSize
      && |sendPool.pool.allBuffers| == sendPool.pool.bufferCount
    }

    /** Holds inside every method, also between its steps. */
    ghost predicate Consistent()
      reads this, conn, conn.handler, sendPool, sendPool.pool, sendPool.pool.mem.Values
    {
      Wired() && Accounted(View()) && Packable(View()) && conn.Intact()
    }

    ghost predicate Valid()
      reads this, conn, conn.handler, sendPool, sendPool.pool, sendPool.pool.mem.Values
    {
      Consistent() && Inv(View())
    }

    /** Packs the messages into an acquired buffer, counts the send and posts it. `s` is the state
        in which the buffer was acquired. */
    method PackAndSend(buf: Buffer, messages: seq<Payload>, batch: bool, env: Env, ghost s: Loop)
      returns (status: Status)
      requires Wired() && conn.Intact() && Accounted(s) && HeadersFit(messages, sendPool.pool.bufferSize)
      requires s.bufs.free != [] && buf == s.bufs.free[0] && View() == s.(bufs := s.bufs.Acquire())
      modifies this, conn, conn.handler`wridMap, conn.handler`errorReleases, sendPool, sendPool.pool`freeCh
      modifies sendPool.pool.mem.Values
      ensures Wired() && conn.Intact() && (View(), status) == Launch(s, messages, batch, env)
    {
      hide Accounted, Conn.Intact, Pool.Mapped, Packed, Clipped, HeadersFit, ConnSend, FramedSize;
      assert buf in s.bufs.free;
      var n := Pack(buf, messages, env.now, s);
      ongoingSends := ongoingSends + 1;
      sent := sent + |messages|;
      if batch {
        flushed := flushed + 1;
      }
      assert View() == Count(s, |messages|, batch);
      status := Post(buf, n, messages, batch, env.accepts);
    }

    lemma ClippedFront(before: seq<Byte>, p: seq<Byte>)
      ensures Clipped(Splice(before, 0, Clipped(p, |before|)), |p|) == Clipped(p, |before|)
    {
    }

    /** Writes the batch, as far as it fits. No byte of a tracked buffer changes. */
    method Pack(buf: Buffer, messages: seq<Payload>, now: nat, ghost s: Loop) returns (n: nat)
      requires Wired() && conn.Intact() && Accounted(s) && HeadersFit(messages, sendPool.pool.bufferSize)
      requires buf in s.bufs.free && s.bufs.all == sendPool.pool.allBuffers
      requires s.bufs.tracked == conn.handler.wridMap && s.bufs.nextWrid == conn.nextWrid
      modifies sendPool.pool.mem.Values
      ensures conn.Intact() && buf.addr in sendPool.pool.mem
      ensures forall w | w in conn.handler.wridMap :: w <= conn.nextWrid
      ensures Clipped(sendPool.pool.mem[buf.addr][..], n) == Clipped(Packed(messages, now), sendPool.pool.bufferSize)
    {
      hide Partition, Packed, Clipped, Splice, HeadersFit, Leaked, Lost, FramedSize;
      OthersUntouched(buf, s);
      ghost var before := sendPool.pool.mem[buf.addr][..];
      n := PackBatch(sendPool.pool.mem[buf.addr], messages, now);
      ClippedFront(before, Packed(messages, now));
    }

    method Post(buf: Buffer, n: nat, ghost ms: seq<Payload>, batch: bool, accepts: bool) returns (status: Status)
      requires Wired() && conn.Intact() && buf.addr in sendPool.pool.mem
      requires forall w | w in conn.handler.wridMap :: w <= conn.nextWrid
      modifies conn, conn.handler`wridMap, conn.handler`errorReleases, sendPool, sendPool.pool`freeCh
      ensures Wired() && conn.Intact()
      ensures var bytes := Clipped(sendPool.pool.mem[buf.addr][..], n);
        (View(), status) == ConnSend(old(View()), buf, bytes, ms, batch, accepts)
    {
      status := conn.Send(buf, n, ms, batch, accepts, View());
    }

    /** No tracked buffer shares memory with a free one. */
    lemma OthersUntouched(buf: Buffer, s: Loop)
      requires Wired() && Partition(s.bufs, Leaked(s.log)) && buf in s.bufs.free
      requires s.bufs.all == sendPool.pool.allBuffers && s.bufs.tracked == conn.handler.wridMap
      requires s.bufs.nextWrid == conn.nextWrid
      ensures buf.addr in sendPool.pool.mem && forall w | w in conn.handler.wridMap :: w <= conn.nextWrid
      ensures forall w | w in conn.handler.wridMap ::
        var other := conn.handler.wridMap[w];
        other.addr in sendPool.pool.mem && sendPool.pool.mem[other.addr] != sendPool.pool.mem[buf.addr]
    {
      forall w | w in conn.handler.wridMap
        ensures conn.handler.wridMap[w].addr != buf.addr && conn.handler.wridMap[w].addr in sendPool.pool.mem
      {
        var other := conn.handler.wridMap[w];
        assert other in s.bufs.all && other != buf;
      }
    }

    /** Restores the messages of a flush that got no buffer, and recomputes their size. */
    method PutBack(messages: seq<Payload>)
      requires pendingSize == 0
      modifies this`pending, this`pendingSize
      ensures pending == messages && pendingSize == FramedSize(messages)
    {
      pending := messages;
      for i := 0 to |messages|
        invariant pending == messages && pendingSize == FramedSize(messages[..i])
      {
        assert messages[..i + 1] == messages[..i] + [messages[i]];
        FramedSizeConcat(messages[..i], [messages[i]]);
        pendingSize := pendingSize + APP_HEADER_SIZE + |messages[i]|;
      }
      assert messages[..|messages|] == messages;
    }

    /** Runs with the lock held. If no buffer is free the messages are put back. */
    method FlushLocked(env: Env) returns (status: Status)
      requires Consistent()
      modifies this, conn, conn.handler`wridMap, conn.handler`errorReleases, sendPool, sendPool.pool`freeCh
      modifies sendPool.pool.mem.Values
      ensures Valid() && (View(), status) == SendLoopSpec.Flush(old(View()), env)
    {
      hide Partition, Packable, HeadersFit, Conn.Intact, Pool.Mapped, Leaked, Launch;
      ghost var s := View();
      FlushKeeps(s, env);
      FlushPackable(s, env);
      PackableHeadersFit(s);
      if |pending| == 0 {
        return Success;
      }
      var messages := pending;
      pending := [];
      pendingSize := 0;
      var acquired := sendPool.AcquireForSend();
      if acquired.Failed? {
        PutBack(messages);
        return NoBuffer;
      }
      status := PackAndSend(acquired.buf, messages, true, env, s.(pending := [], pendingSize := 0));
    }

    method Flush(env: Env) returns (status: Status)
      requires Valid()
      modifies this, conn, conn.handler`wridMap, conn.handler`errorReleases, sendPool, sendPool.pool`freeCh
      modifies sendPool.pool.mem.Values
      ensures Valid() && (View(), status) == SendLoopSpec.Flush(old(View()), env)
    {
      status := FlushLocked(env);
    }

    method ImmediateSend(data: Payload, env: Env) returns (status: Status)
      requires Valid()
      modifies this, conn, conn.handler`wridMap, conn.handler`errorReleases, sendPool, sendPool.pool`freeCh
      modifies sendPool.pool.mem.Values
      ensures Valid() && (View(), status) == SendLoopSpec.ImmediateSend(old(View()), data, env)
    {
      hide Accounted, Conn.Intact, Pool.Mapped, Launch, FramedSize;
      ghost var s := View();
      ImmediateKeeps(s, data, env);
      ImmediatePackable(s, data, env);
      OneMessageBytes(data);
      OneHeaderFits(data, sendPool.pool.bufferSize);
      var acquired := sendPool.AcquireForSend();
      if acquired.Failed? {
        return NoBuffer;
      }
      if CMD_HEADER_SIZE + APP_HEADER_SIZE + |data| > sendPool.pool.bufferSize {
        sendPool.CompleteSend(acquired.buf);
        return BufferTooSmall;
      }
      status := PackAndSend(acquired.buf, [data], false, env, s);
    }

    /** The overflow trigger. */
    method FlushIfFull(data: Payload, env: Env) returns (status: Status)
      requires Valid()
      modifies this, conn, conn.handler`wridMap, conn.handler`errorReleases, sendPool, sendPool.pool`freeCh
      modifies sendPool.pool.mem.Values
      ensures Valid() && (View(), status) == MakeRoom(old(View()), data, env)
    {
      hide Partition, Conn.Intact, Leaked, SendLoopSpec.Flush, BatchContents;
      status := Success;
      if pendingSize > 0 && CMD_HEADER_SIZE + pendingSize + APP_HEADER_SIZE + |data| > bufferSize {
        status := FlushLocked(env);
      }
    }

    /** The threshold and idle triggers. */
    method FlushIfDue(env: Env) returns (status: Status)
      requires Consistent()
      modifies this, conn, conn.handler`wridMap, conn.handler`errorReleases, sendPool, sendPool.pool`freeCh
      modifies sendPool.pool.mem.Values
      ensures Valid()
      ensures (View(), status) ==
                if FlushDue(old(View())) then SendLoopSpec.Flush(old(View()), env) else (old(View()), Success)
    {
      hide Partition, Conn.Intact, Leaked, SendLoopSpec.Flush, BatchContents;
      if CMD_HEADER_SIZE + pendingSize > sendThreshold {
        status := FlushLocked(env);
        return;
      }
      if ongoingSends == 0 {
        status := FlushLocked(env);
        return;
      }
      status := Success;
    }

    /** Batches a message of any size: the code does not check it. */
    method AggregateSend(data: Payload, env1: Env, env2: Env) returns (status: Status)
      requires Valid()
      modifies this, conn, conn.handler`wridMap, conn.handler`errorReleases, sendPool, sendPool.pool`freeCh
      modifies sendPool.pool.mem.Values
      ensures Valid() && (View(), status) == SendLoopSpec.AggregateSend(old(View()), data, env1, env2)
    {
      hide Partition, Conn.Intact, Leaked, Lost, SendLoopSpec.Flush, MakeRoom, FlushDue, BatchContents;
      ghost var s := View();
      status := FlushIfFull(data, env1);
      if status != Success {
        return;
      }
      AppendPackable(s, data, env1);
      ghost var roomy := View();
      AppendKeeps(roomy, data);
      pending := pending + [data];
      pendingSize := pendingSize + APP_HEADER_SIZE + |data|;
      assert View() == Append(roomy, data);
      status := FlushIfDue(env2);
    }

    method Send(data: Payload, isBusy: bool, env1: Env, env2: Env) returns (status: Status)
      requires Valid()
      modifies this, conn, conn.handler`wridMap, conn.handler`errorReleases, sendPool, sendPool.pool`freeCh
      modifies sendPool.pool.mem.Values
      ensures Valid() && (View(), status) == SendLoopSpec.Send(old(View()), data, isBusy, env1, env2)
    {
      if !enableAggregate || !isBusy {
        status := ImmediateSend(data, env1);
      } else {
        status := AggregateSend(data, env1, env2);
      }
    }

    /** Giving back a tracked buffer leaves the loop consistent except for the count. */
    lemma AfterRelease(wrid: nat, before: Loop)
      requires Accounted(before) && Packable(before) && wrid in before.bufs.tracked
      requires before.pending != [] ==> before.ongoing > 0
      requires View() == before.(bufs := before.bufs.Release(wrid))
      ensures Packable(View()) && (pending != [] ==> ongoingSends > 0)
      ensures Accounted(View().(ongoing := ongoingSends - 1))
    {
      hide Partition, Leaked, Packed;
      ReleasePartition(before.bufs, Leaked(before.log), wrid);
    }

    /** Called by the handler after it gave a buffer back. */
    method OnSendComplete(env: Env)
      requires Wired() && conn.Intact() && Packable(View())
      requires Accounted(View().(ongoing := ongoingSends - 1))
      requires pending != [] ==> ongoingSends > 0
      modifies this, conn, conn.handler`wridMap, conn.handler`errorReleases, sendPool, sendPool.pool`freeCh
      modifies sendPool.pool.mem.Values
      ensures Valid() && View() == SendLoopSpec.OnSendComplete(old(View()), env)
    {
      hide Partition, Conn.Intact, Leaked, Launch, BatchContents;
      ongoingSends := ongoingSends - 1;
      if ongoingSends == 0 {
        if |pending| > 0 {
          var _ := FlushLocked(env);
        }
      }
    }

    method Stats() returns (flushedCount: nat, sentCount: nat, pendingCount: nat, size: int)
      ensures flushedCount == flushed && sentCount == sent && pendingCount == |pending| && size == pendingSize
    {
      return flushed, sent, |pending|, pendingSize;
    }
  }

  /** Wires a loop over a fully built pool and brings the connection up. */
  method Connect(pool: Pool, bufferSize: int, sendThreshold: int, enableAggregate: bool) returns (agg: Aggregator)
    requires pool.Open() && pool.freeCh == pool.allBuffers
    requires (if bufferSize <= 0 then DEFAULT_BUFFER_SIZE else bufferSize) <= pool.bufferSize
    requires CMD_HEADER_SIZE + APP_HEADER_SIZE <= pool.bufferSize
    ensures agg.Valid() && agg.conn.handler.onComplete == agg && agg.sendPool.pool == pool
    ensures fresh(agg) && fresh(agg.conn) && fresh(agg.conn.handler) && fresh(agg.sendPool)
    ensures agg.View() == Start(agg.View().cfg, pool.allBuffers)
  {
    var sendPool := new SendPool(pool);
    var handler := new SendCompletionHandler(sendPool);
    var conn := new Conn(handler);
    agg := new Aggregator(conn, sendPool, bufferSize, sendThreshold, enableAggregate);
    handler.onComplete := agg;
    conn.SetState(Connected);
    assert pool.freeCh != [];
    StartInv(agg.View().cfg, pool.allBuffers);
  }

  const DEFAULT_BUFFER_SIZE := 12288
  const DEFAULT_SEND_THRESHOLD := 9216
}
