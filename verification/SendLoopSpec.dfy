/** The closed send loop as a value: what one call of the aggregator, the connection or the send
    completion handler does to the state they share. The classes of `SendLoop` are proved against
    these functions; `SendLoopProofs` proves what the functions keep. */
module SendLoopSpec {
  import opened Wire
  import opened BufferPool

  datatype Status = Success | NoBuffer | BufferTooSmall | PostFailed | Disconnected

  datatype Outcome = Posted(wrid: nat) | Rejected | NotConnected

  /** One call of `Conn.Send`: the bytes in the buffer, the messages packed into it, whether they are an
      aggregated batch, and what became of them. The posted length is that of the whole batch; what of it
      does not fit the buffer is not among the bytes. */
  datatype Attempt = Attempt(
    buf: Buffer,
    bytes: seq<Byte>,
    messages: seq<Payload>,       // history
    batch: bool,
    outcome: Outcome)

  /** What the environment contributes to one post: the packing time and the device's answer. */
  datatype Env = Env(now: nat, accepts: bool)

  /** Where every send buffer is: in the pool's free list, or in flight and tracked by a WRID. */
  datatype Buffers = Buffers(
    all: seq<Buffer>,             // every buffer of the pool
    free: seq<Buffer>,            // buffer.Pool.freeCh
    inFlight: set<nat>,           // buffer.SendPool.inFlight
    inFlightN: int,
    tracked: map<nat, Buffer>,    // cq.SendCompletionHandler.wridMap
    nextWrid: nat)                // connection.Conn.nextWRID
  {
    function Acquire(): Buffers
      requires free != []
    {
      this.(free := free[1..], inFlight := inFlight + {free[0].addr}, inFlightN := inFlightN + 1)
    }

    function Complete(b: Buffer): Buffers
    {
      this.(free := if |free| < |all| then free + [b] else free,
            inFlight := inFlight - {b.addr},
            inFlightN := inFlightN - (if b.addr in inFlight then 1 else 0))
    }

    function Track(b: Buffer): Buffers
    {
      this.(nextWrid := nextWrid + 1, tracked := tracked[nextWrid + 1 := b])
    }

    function Untrack(wrid: nat): Buffers
    {
      this.(tracked := map w | w in tracked && w != wrid :: tracked[w])
    }

    /** Untracks the buffer of a completion and gives it back. */
    function Release(wrid: nat): Buffers
      requires wrid in tracked
    {
      Untrack(wrid).Complete(tracked[wrid])
    }
  }

  datatype Config = Config(
    bufferLength: nat,            // length of a pool buffer
    bufferSize: nat,              // aggregator: largest batch
    sendThreshold: nat,           // aggregator: flush above this size
    enableAggregate: bool)

  datatype Loop = Loop(
    cfg: Config,
    bufs: Buffers,
    connected: bool,              // connection.Conn.state
    pending: seq<Payload>,        // message.Aggregator
    pendingSize: int,
    ongoing: int,
    flushed: nat,
    sent: nat,
    log: seq<Attempt>,            // history: every call of Conn.Send
    errorReleases: nat)           // history: buffers released by OnError

  function Start(cfg: Config, all: seq<Buffer>): Loop
  {
    Loop(cfg, Buffers(all, all, {}, 0, map[], 0), true, [], 0, 0, 0, 0, [], 0)
  }

  // ---------------------------------------------------------------- handler and connection

  function OnError(s: Loop, wrid: nat): Loop
  {
    if wrid in s.bufs.tracked then s.(bufs := s.bufs.Release(wrid), errorReleases := s.errorReleases + 1)
    else s
  }

  function ConnSend(s: Loop, b: Buffer, bytes: seq<Byte>, ms: seq<Payload>, batch: bool, accepts: bool): (Loop, Status)
  {
    if !s.connected then
      (s.(log := s.log + [Attempt(b, bytes, ms, batch, NotConnected)]), Disconnected)
    else
      var wrid := s.bufs.nextWrid + 1;
      var posted := s.(bufs := s.bufs.Track(b));
      if accepts then
        (posted.(log := s.log + [Attempt(b, bytes, ms, batch, Posted(wrid))]), Success)
      else
        (OnError(posted, wrid).(log := s.log + [Attempt(b, bytes, ms, batch, Rejected)]), PostFailed)
  }

  // ---------------------------------------------------------------- aggregator

  /** Takes a buffer, counts the send, and hands the packed messages to the connection. */
  function Launch(s: Loop, ms: seq<Payload>, batch: bool, env: Env): (Loop, Status)
    requires s.bufs.free != []
  {
    var bytes := Clipped(Packed(ms, env.now), s.cfg.bufferLength);
    ConnSend(Count(s, |ms|, batch), s.bufs.free[0], bytes, ms, batch, env.accepts)
  }

  function Count(s: Loop, messages: nat, batch: bool): Loop
    requires s.bufs.free != []
  {
    s.(bufs := s.bufs.Acquire(), ongoing := s.ongoing + 1, sent := s.sent + messages,
       flushed := s.flushed + (if batch then 1 else 0))
  }

  function Flush(s: Loop, env: Env): (Loop, Status)
  {
    if s.pending == [] then (s, Success)
    else if s.bufs.free == [] then (s.(pendingSize := FramedSize(s.pending)), NoBuffer)
    else Launch(s.(pending := [], pendingSize := 0), s.pending, true, env)
  }

  function ImmediateSend(s: Loop, data: Payload, env: Env): (Loop, Status)
  {
    if s.bufs.free == [] then (s, NoBuffer)
    else if CMD_HEADER_SIZE + APP_HEADER_SIZE + |data| > s.cfg.bufferLength then
      (s.(bufs := s.bufs.Acquire().Complete(s.bufs.free[0])), BufferTooSmall)
    else Launch(s, [data], false, env)
  }

  predicate Overflows(s: Loop, data: Payload)
  {
    s.pendingSize > 0 && CMD_HEADER_SIZE + s.pendingSize + APP_HEADER_SIZE + |data| > s.cfg.bufferSize
  }

  /** The state in which the message is appended: after the overflow flush, if there is one. */
  function MakeRoom(s: Loop, data: Payload, env: Env): (Loop, Status)
  {
    if Overflows(s, data) then Flush(s, env) else (s, Success)
  }

  function Append(s: Loop, data: Payload): Loop
  {
    s.(pending := s.pending + [data], pendingSize := s.pendingSize + APP_HEADER_SIZE + |data|)
  }

  /** Appended messages are flushed at once above the threshold or when no send is under way. */
  predicate FlushDue(s: Loop)
  {
    CMD_HEADER_SIZE + s.pendingSize > s.cfg.sendThreshold || s.ongoing == 0
  }

  function AggregateSend(s: Loop, data: Payload, env1: Env, env2: Env): (Loop, Status)
  {
    var (roomy, status) := MakeRoom(s, data, env1);
    if status != Success then (roomy, status)
    else
      var appended := Append(roomy, data);
      if FlushDue(appended) then Flush(appended, env2) else (appended, Success)
  }

  function Send(s: Loop, data: Payload, busy: bool, env1: Env, env2: Env): (Loop, Status)
  {
    if !s.cfg.enableAggregate || !busy then ImmediateSend(s, data, env1)
    else AggregateSend(s, data, env1, env2)
  }

  function OnSendComplete(s: Loop, env: Env): Loop
  {
    var counted := s.(ongoing := s.ongoing - 1);
    if counted.ongoing == 0 then Flush(counted, env).0 else counted
  }

  function OnCompletion(s: Loop, wrid: nat, env: Env): Loop
  {
    if wrid in s.bufs.tracked then OnSendComplete(s.(bufs := s.bufs.Release(wrid)), env) else s
  }

  // ---------------------------------------------------------------- runs

  datatype Op =
    | DoSend(data: Payload, busy: bool, env1: Env, env2: Env)
    | DoFlush(env: Env)
    | Completion(wrid: nat, env: Env)
    | ErrorCompletion(wrid: nat)
    | SetConnected(connected: bool)

  function Step(s: Loop, op: Op): Loop
  {
    match op
    case DoSend(data, busy, env1, env2) => Send(s, data, busy, env1, env2).0
    case DoFlush(env) => Flush(s, env).0
    case Completion(wrid, env) => OnCompletion(s, wrid, env)
    case ErrorCompletion(wrid) => OnError(s, wrid)
    case SetConnected(c) => s.(connected := c)
  }

  function Run(s: Loop, ops: seq<Op>): Loop
  {
    if ops == [] then s else Step(Run(s, ops[..|ops| - 1]), ops[|ops| - 1])
  }

  // ---------------------------------------------------------------- vocabulary

  /** Buffers of sends attempted while the connection was down: nothing tracks them any more. */
  function Leaked(log: seq<Attempt>): (l: seq<Buffer>)
  {
    if log == [] then []
    else
      var last := log[|log| - 1];
      Leaked(log[..|log| - 1]) + (if last.outcome == NotConnected then [last.buf] else [])
  }

  /** Counted sends whose completion will never reach the aggregator. */
  function Lost(s: Loop): (n: nat)
  {
    s.errorReleases + |Leaked(s.log)|
  }

  /** What the receiver of an attempt unpacks from its bytes: nothing, if they are not a batch. */
  function Contents(a: Attempt): seq<Payload>
  {
    var r := Unpack(a.bytes, |a.bytes|);
    if r.Ok? then r.value else []
  }

  /** The messages packed into aggregated batches, in the order the batches were handed over. */
  function BatchMessages(log: seq<Attempt>): (ms: seq<Payload>)
  {
    if log == [] then []
    else
      var last := log[|log| - 1];
      BatchMessages(log[..|log| - 1]) + (if last.batch then last.messages else [])
  }

  /** What a receiver unpacks from the aggregated batches, in the same order. */
  function BatchContents(log: seq<Attempt>): (ms: seq<Payload>)
  {
    if log == [] then []
    else
      var last := log[|log| - 1];
      BatchContents(log[..|log| - 1]) + (if last.batch then Contents(last) else [])
  }

  /** The aggregated messages a call accepts: all but those turned away because the overflow flush
      before them failed. */
  function Accepted(s: Loop, op: Op): seq<Payload>
  {
    if op.DoSend? && s.cfg.enableAggregate && op.busy && MakeRoom(s, op.data, op.env1).1 == Success
    then [op.data] else []
  }

  function AcceptedBy(s: Loop, ops: seq<Op>): (ms: seq<Payload>)
  {
    if ops == [] then []
    else AcceptedBy(s, ops[..|ops| - 1]) + Accepted(Run(s, ops[..|ops| - 1]), ops[|ops| - 1])
  }

  /** Immediate sends that got as far as being handed to the connection. */
  function SingleCount(log: seq<Attempt>): (n: nat)
  {
    if log == [] then 0
    else SingleCount(log[..|log| - 1]) + (if log[|log| - 1].batch then 0 else 1)
  }
}
