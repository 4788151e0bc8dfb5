/** The ping-pong echo of the benchmark (internal/rdma/pingpong.go, cmd/golinker-bench): a client
    sends a payload and waits for its echo; the server receives in place, posts its receive buffer
    again *before* copying it out, copies it to its send buffer and sends it back. Each party has one
    send buffer and one receive buffer.

    The device is reliable and in order. It reads the sender's buffer when it transmits, not when the
    send is posted, and writes straight into the receiver's buffer, so any interleaving of the two
    programs with the device is a step here. */
module EchoProtocol {
  import opened Wire

  /** One endpoint as the device sees it. All posted receives name the same buffer. */
  datatype Endpoint = Endpoint(
    sendBuf: seq<Byte>,
    recvBuf: seq<Byte>,
    recvsPosted: nat,
    sends: seq<nat>,                      // posted sends (lengths) not yet transmitted
    unacked: nat,                         // transmitted, completion not yet in the send queue
    sendCq: nat,                          // send completions to poll
    recvCq: seq<nat>)                     // receive completions to poll: message lengths

  datatype ClientPc =
    | Ready                               // between rounds
    | Filled(n: nat)                      // payload copied, send not posted
    | ClientSending                       // polling the send queue
    | Receiving                           // polling the receive queue
    | Arrived(n: nat)                     // polled, payload not copied out
    | Reposting(got: seq<Byte>)           // copied out, receive not posted again

  datatype ServerPc =
    | Waiting                             // RecvInPlace: polling the receive queue
    | Received(n: nat)                    // RecvInPlace: about to post the receive again
    | Copying(n: nat)                     // CopyRecvToSend
    | Copied(n: nat)                      // SendRaw: about to post
    | ServerSending                       // polling the send queue

  datatype State = State(
    bufSize: nat,
    client: Endpoint,
    server: Endpoint,
    cpc: ClientPc,
    spc: ServerPc,
    refused: bool,                        // history: a message arrived with no receive posted
    sent: seq<seq<Byte>>,                 // history: per round, the bytes sent
    got: seq<seq<Byte>>)                  // history: per round, the bytes received

  datatype Action =
    | Client(payload: seq<Byte>)          // the client moves; `payload` is used to start a round
    | Server
    | TransmitToServer
    | TransmitToClient
    | AckClient                           // a send completion reaches the client
    | AckServer

  function Clip(n: nat, size: nat): nat
  {
    if n > size then size else n
  }

  /** `data` copied to the front of `buf`. */
  function Overwrite(buf: seq<Byte>, data: seq<Byte>): (r: seq<Byte>)
    requires |data| <= |buf|
    ensures |r| == |buf|
  {
    data + buf[|data|..]
  }

  /** A freshly created endpoint: zeroed buffers and one receive posted. */
  function Fresh(bufSize: nat): (e: Endpoint)
    ensures |e.sendBuf| == |e.recvBuf| == bufSize
  {
    var zeros := seq(bufSize, _ => 0 as Byte);
    Endpoint(zeros, zeros, 1, [], 0, 0, [])
  }

  function CopyIn(e: Endpoint, data: seq<Byte>): Endpoint
    requires |data| <= |e.sendBuf|
  {
    e.(sendBuf := Overwrite(e.sendBuf, data))
  }

  function PostSend(e: Endpoint, n: nat): Endpoint
  {
    e.(sends := e.sends + [n])
  }

  function PostRecv(e: Endpoint): Endpoint
  {
    e.(recvsPosted := e.recvsPosted + 1)
  }

  function PollSend(e: Endpoint): Endpoint
    requires e.sendCq > 0
  {
    e.(sendCq := e.sendCq - 1)
  }

  function PollRecv(e: Endpoint): Endpoint
    requires e.recvCq != []
  {
    e.(recvCq := e.recvCq[1..])
  }

  /** `PingPongConn.Send` then `Recv`, one atomic action at a time. */
  function ClientStep(s: State, payload: seq<Byte>): State
    requires |s.client.sendBuf| == |s.client.recvBuf| == s.bufSize
  {
    var e := s.client;
    match s.cpc
    case Ready =>
      var n := Clip(|payload|, s.bufSize);
      s.(client := CopyIn(e, payload[..n]), cpc := Filled(n), sent := s.sent + [payload[..n]])
    case Filled(n) => s.(client := PostSend(e, n), cpc := ClientSending)
    case ClientSending => if e.sendCq == 0 then s else s.(client := PollSend(e), cpc := Receiving)
    case Receiving =>
      if e.recvCq == [] then s else s.(client := PollRecv(e), cpc := Arrived(e.recvCq[0]))
    case Arrived(n) => s.(cpc := Reposting(e.recvBuf[..Clip(n, s.bufSize)]))
    case Reposting(data) => s.(client := PostRecv(e), cpc := Ready, got := s.got + [data])
  }

  /** `runEchoLoop`, one atomic action at a time. */
  function ServerStep(s: State): State
    requires |s.server.sendBuf| == |s.server.recvBuf| == s.bufSize
  {
    var e := s.server;
    match s.spc
    case Waiting =>
      if e.recvCq == [] then s else s.(server := PollRecv(e), spc := Received(e.recvCq[0]))
    case Received(n) => s.(server := PostRecv(e), spc := Copying(n))
    case Copying(n) => s.(server := CopyIn(e, e.recvBuf[..Clip(n, s.bufSize)]), spc := Copied(n))
    case Copied(n) => s.(server := PostSend(e, Clip(n, s.bufSize)), spc := ServerSending)
    case ServerSending => if e.sendCq == 0 then s else s.(server := PollSend(e), spc := Waiting)
  }

  /** The receiving end of a transmission: the message lands in the receive buffer. */
  function Land(e: Endpoint, data: seq<Byte>): Endpoint
    requires |data| <= |e.recvBuf|
  {
    e.(recvBuf := Overwrite(e.recvBuf, data), recvsPosted := if e.recvsPosted > 0 then e.recvsPosted - 1 else 0,
       recvCq := e.recvCq + [|data|])
  }

  function Transmitted(e: Endpoint): Endpoint
    requires e.sends != []
  {
    e.(sends := e.sends[1..], unacked := e.unacked + 1)
  }

  predicate Sized(s: State)
  {
    && |s.client.sendBuf| == |s.client.recvBuf| == s.bufSize
    && |s.server.sendBuf| == |s.server.recvBuf| == s.bufSize
    && (s.client.sends != [] ==> s.client.sends[0] <= s.bufSize)
    && (s.server.sends != [] ==> s.server.sends[0] <= s.bufSize)
  }

  function Step(s: State, a: Action): State
  {
    if !Sized(s) then s else
    match a
    case Client(payload) => ClientStep(s, payload)
    case Server => ServerStep(s)
    case TransmitToServer =>
      if s.client.sends == [] then s
      else if s.server.recvsPosted == 0 then s.(refused := true)
      else s.(client := Transmitted(s.client), server := Land(s.server, s.client.sendBuf[..s.client.sends[0]]))
    case TransmitToClient =>
      if s.server.sends == [] then s
      else if s.client.recvsPosted == 0 then s.(refused := true)
      else s.(server := Transmitted(s.server), client := Land(s.client, s.server.sendBuf[..s.server.sends[0]]))
    case AckClient =>
      if s.client.unacked == 0 then s
      else s.(client := s.client.(unacked := s.client.unacked - 1, sendCq := s.client.sendCq + 1))
    case AckServer =>
      if s.server.unacked == 0 then s
      else s.(server := s.server.(unacked := s.server.unacked - 1, sendCq := s.server.sendCq + 1))
  }

  function Initial(bufSize: nat): State
  {
    State(bufSize, Fresh(bufSize), Fresh(bufSize), Ready, Waiting, false, [], [])
  }

  // ---------------------------------------------------------------- where the message is

  /** The one message of the current round is in exactly one of these places. */
  datatype Place =
    | None                                // between rounds
    | ClientBuffer                        // copied into the client's send buffer
    | ToServer                            // posted by the client
    | AtServerCq                          // landed, server has not polled
    | InServer                            // server between its poll and its post
    | ToClient                            // posted by the server
    | AtClientCq                          // landed, client has not polled
    | InClient                            // client between its poll and its next receive

  function Where(s: State): Place
  {
    if s.cpc.Filled? then ClientBuffer
    else if s.cpc.Arrived? || s.cpc.Reposting? then InClient
    else if s.client.sends != [] then ToServer
    else if s.server.recvCq != [] then AtServerCq
    else if s.spc.Received? || s.spc.Copying? || s.spc.Copied? then InServer
    else if s.server.sends != [] then ToClient
    else if s.client.recvCq != [] then AtClientCq
    else None
  }

  /** Sends posted whose completion the program has not polled. */
  function Outstanding(e: Endpoint): nat
  {
    |e.sends| + e.unacked + e.sendCq
  }

  /** The posted sends, receives and completions are exactly those the message's place calls for. */
  ghost predicate Counts(s: State)
  {
    var w := Where(s);
    && |s.client.sends| == (if w == ToServer then 1 else 0)
    && |s.server.sends| == (if w == ToClient then 1 else 0)
    && |s.server.recvCq| == (if w == AtServerCq then 1 else 0)
    && |s.client.recvCq| == (if w == AtClientCq then 1 else 0)
    && Outstanding(s.client) == (if s.cpc == ClientSending then 1 else 0)
    && Outstanding(s.server) == (if s.spc == ServerSending then 1 else 0)
    && s.client.recvsPosted == (if w == AtClientCq || w == InClient then 0 else 1)
    && s.server.recvsPosted == (if w == AtServerCq || s.spc.Received? then 0 else 1)
    && (s.cpc == Ready <==> w == None)
    && (w == InServer <==> s.spc.Received? || s.spc.Copying? || s.spc.Copied?)
  }

  /** Wherever the message is, it is the payload `p`. */
  ghost predicate Carries(s: State, p: seq<Byte>)
    requires Sized(s) && Counts(s)
  {
    var n := |p|;
    && n <= s.bufSize
    && match Where(s)
       case None => true
       case ClientBuffer => s.cpc.n == n && s.client.sendBuf[..n] == p
       case ToServer => s.client.sends == [n] && s.client.sendBuf[..n] == p
       case AtServerCq => s.server.recvCq == [n] && s.server.recvBuf[..n] == p
       case InServer => s.spc.n == n && (if s.spc.Copied? then s.server.sendBuf else s.server.recvBuf)[..n] == p
       case ToClient => s.server.sends == [n] && s.server.sendBuf[..n] == p
       case AtClientCq => s.client.recvCq == [n] && s.client.recvBuf[..n] == p
       case InClient => if s.cpc.Arrived? then s.cpc.n == n && s.client.recvBuf[..n] == p else s.cpc.got == p
  }

  ghost predicate Inv(s: State)
  {
    && Sized(s) && Counts(s) && !s.refused
    && (if Where(s) == None then s.got == s.sent
        else s.sent != [] && s.got == s.sent[..|s.sent| - 1] && Carries(s, s.sent[|s.sent| - 1]))
  }

  lemma ClientKeeps(s: State, payload: seq<Byte>)
    requires Inv(s)
    ensures Inv(ClientStep(s, payload))
  {
    hide Counts, Carries;
    if s.cpc.Ready? {
      StartKeeps(s, payload);
    } else {
      RoundKeeps(s, payload);
    }
  }

  lemma StartKeeps(s: State, payload: seq<Byte>)
    requires Inv(s) && s.cpc.Ready?
    ensures Inv(ClientStep(s, payload))
  {
  }

  lemma RoundKeeps(s: State, payload: seq<Byte>)
    requires Inv(s) && !s.cpc.Ready?
    ensures Inv(ClientStep(s, payload))
  {
    hide Overwrite;
  }

  lemma ServerKeeps(s: State)
    requires Inv(s)
    ensures Inv(ServerStep(s))
  {
    hide Counts, Carries;
    if s.spc.Copying? {
      CopyKeeps(s);
    } else {
      ServeKeeps(s);
    }
  }

  lemma CopyKeeps(s: State)
    requires Inv(s) && s.spc.Copying?
    ensures Inv(ServerStep(s))
  {
  }

  lemma ServeKeeps(s: State)
    requires Inv(s) && !s.spc.Copying?
    ensures Inv(ServerStep(s))
  {
    hide Overwrite;
  }

  lemma TransmitKeeps(s: State, a: Action)
    requires Inv(s) && (a.TransmitToServer? || a.TransmitToClient?)
    ensures Inv(Step(s, a))
  {
    if a.TransmitToServer? {
      assert Where(s) == ToServer ==> s.spc == Waiting || s.spc == ServerSending;
    }
  }

  lemma AckKeeps(s: State, a: Action)
    requires Inv(s) && (a.AckClient? || a.AckServer?)
    ensures Inv(Step(s, a))
  {
    hide Overwrite;
  }

  lemma StepKeeps(s: State, a: Action)
    requires Inv(s)
    ensures Inv(Step(s, a)) && Step(s, a).bufSize == s.bufSize
  {
    hide Counts, Carries;
    if a.Client? {
      ClientKeeps(s, a.payload);
    } else if a.Server? {
      ServerKeeps(s);
    } else if a.TransmitToServer? || a.TransmitToClient? {
      TransmitKeeps(s, a);
    } else {
      AckKeeps(s, a);
    }
  }

  // ---------------------------------------------------------------- every interleaving

  lemma InitialInv(bufSize: nat)
    ensures Inv(Initial(bufSize))
  {
  }

  function Run(bufSize: nat, actions: seq<Action>): State
  {
    if actions == [] then Initial(bufSize)
    else Step(Run(bufSize, actions[..|actions| - 1]), actions[|actions| - 1])
  }

  lemma {:induction false} RunKeeps(bufSize: nat, actions: seq<Action>)
    ensures Inv(Run(bufSize, actions)) && Run(bufSize, actions).bufSize == bufSize
  {
    hide Inv, Step;
    if actions == [] {
      InitialInv(bufSize);
    } else {
      RunKeeps(bufSize, actions[..|actions| - 1]);
      StepKeeps(Run(bufSize, actions[..|actions| - 1]), actions[|actions| - 1]);
    }
  }

  /** The payloads given to the calls of `Send` that began a round. */
  ghost function Given(bufSize: nat, actions: seq<Action>): seq<seq<Byte>>
  {
    if actions == [] then []
    else
      var init, last := actions[..|actions| - 1], actions[|actions| - 1];
      Given(bufSize, init) + (if last.Client? && Run(bufSize, init).cpc == Ready then [last.payload] else [])
  }

  lemma StepSends(s: State, a: Action)
    requires Inv(s)
    ensures Step(s, a).sent == s.sent +
      if a.Client? && s.cpc == Ready
      then [if |a.payload| <= s.bufSize then a.payload else a.payload[..s.bufSize]] else []
  {
    if a.Client? {
      assert a.payload[..|a.payload|] == a.payload;
    }
  }

  /** What is sent is what the calls were given, or as much of it as fits the buffer. */
  lemma {:induction false} SentIsGiven(bufSize: nat, actions: seq<Action>)
    ensures var (s, given) := (Run(bufSize, actions), Given(bufSize, actions));
      && |s.sent| == |given|
      && forall i | 0 <= i < |given| ::
           s.sent[i] == if |given[i]| <= bufSize then given[i] else given[i][..bufSize]
  {
    hide Step, Inv;
    if actions == [] {
    } else {
      var init := actions[..|actions| - 1];
      SentIsGiven(bufSize, init);
      RunKeeps(bufSize, init);
      StepSends(Run(bufSize, init), actions[|actions| - 1]);
    }
  }

  /** End to end, for every interleaving: each completed round returned the payload given to the call
      that began it, or, of one longer than the buffer, as much as fits. */
  lemma EchoReturnsPayload(bufSize: nat, actions: seq<Action>)
    ensures var (s, given) := (Run(bufSize, actions), Given(bufSize, actions));
      && |s.got| <= |given| <= |s.got| + 1 && (s.cpc == Ready ==> |s.got| == |given|)
      && forall i | 0 <= i < |s.got| ::
           s.got[i] == if |given[i]| <= bufSize then given[i] else given[i][..bufSize]
  {
    hide Run, Given;
    EchoSafety(bufSize, actions);
    SentIsGiven(bufSize, actions);
  }

  /** For every interleaving of client, server and device: no message finds the receive queue empty,
      and each completed round received exactly the bytes it sent, with at most one round open. */
  lemma EchoSafety(bufSize: nat, actions: seq<Action>)
    ensures var s := Run(bufSize, actions);
      && !s.refused
      && |s.got| <= |s.sent| <= |s.got| + 1
      && (forall i | 0 <= i < |s.got| :: s.got[i] == s.sent[i])
      && (s.cpc == Ready ==> s.got == s.sent)
  {
    RunKeeps(bufSize, actions);
  }

  /** The server posts its receive before it copies the message out, so throughout the copy the
      device may write the buffer; but nothing is on its way there, and until the copy is done no
      step of anyone changes the buffer, which still holds the client's payload. */
  lemma RepostIsSafe(bufSize: nat, actions: seq<Action>, a: Action)
    requires Run(bufSize, actions).spc.Received? || Run(bufSize, actions).spc.Copying?
    ensures var s := Run(bufSize, actions);
      && (s.spc.Copying? ==> s.server.recvsPosted == 1)
      && s.client.sends == [] && s.sent != []
      && s.spc.n <= bufSize == |s.server.recvBuf|
      && s.server.recvBuf[..s.spc.n] == s.sent[|s.sent| - 1]
      && Step(s, a).server.recvBuf == s.server.recvBuf
  {
    RunKeeps(bufSize, actions);
  }

  /** The client copies out before it posts its receive again: nothing can land in the meantime. */
  lemma CopyOutIsSafe(bufSize: nat, actions: seq<Action>, a: Action)
    requires Run(bufSize, actions).cpc.Arrived?
    ensures var s := Run(bufSize, actions);
      && s.client.recvsPosted == 0 && s.server.sends == [] && s.sent != []
      && s.cpc.n <= bufSize == |s.client.recvBuf|
      && s.client.recvBuf[..s.cpc.n] == s.sent[|s.sent| - 1]
      && Step(s, a).client.recvBuf == s.client.recvBuf
  {
    RunKeeps(bufSize, actions);
  }

  // ---------------------------------------------------------------- progress

  /** Steps a posted send still needs after its transmission. */
  function SendRank(e: Endpoint): nat
  {
    2 * |e.sends| + 2 * e.unacked + e.sendCq
  }

  /** Steps the message still needs until the round ends. */
  function PlaceRank(s: State): nat
  {
    match Where(s)
    case None => 0
    case ClientBuffer => 14
    case ToServer => 11
    case AtServerCq => 10
    case InServer => if s.spc.Received? then 9 else if s.spc.Copying? then 8 else 7
    case ToClient => 4
    case AtClientCq => 3
    case InClient => if s.cpc.Arrived? then 2 else 1
  }

  function Rank(s: State): nat
  {
    PlaceRank(s) + SendRank(s.client) + SendRank(s.server)
  }

  /** Every step that does anything brings the current round one step nearer to its end; only the
      client starting a round adds work. */
  lemma StepProgress(s: State, a: Action)
    requires Inv(s)
    ensures Step(s, a) == s || Rank(Step(s, a)) == Rank(s) - 1 || (s.cpc == Ready && a.Client?)
    ensures s.cpc == Ready && a.Client? ==> Rank(Step(s, a)) == Rank(s) + 14
  {
    hide Inv, Rank, ClientStep, ServerStep;
    if a.Client? {
      ClientProgress(s, a.payload);
    } else if a.Server? {
      ServerProgress(s);
    } else {
      DeviceProgress(s, a);
    }
  }

  lemma ClientProgress(s: State, payload: seq<Byte>)
    requires Inv(s)
    ensures var t := ClientStep(s, payload);
      && Step(s, Client(payload)) == t
      && (s.cpc != Ready ==> t == s || Rank(t) == Rank(s) - 1)
      && (s.cpc == Ready ==> Rank(t) == Rank(s) + 14)
  {
    hide Carries, Overwrite;
  }

  lemma ServerProgress(s: State)
    requires Inv(s)
    ensures Step(s, Server) == s || Rank(Step(s, Server)) == Rank(s) - 1
  {
    hide Carries, Overwrite;
  }

  lemma DeviceProgress(s: State, a: Action)
    requires Inv(s) && !a.Client? && !a.Server?
    ensures Step(s, a) == s || Rank(Step(s, a)) == Rank(s) - 1
  {
    hide Carries, Overwrite;
  }

  /** The protocol never deadlocks: whoever has the message, or the party waiting for a completion,
      can move. */
  lemma SomeoneCanMove(s: State)
    requires Inv(s)
    ensures exists a :: Step(s, a) != s
  {
    var a := match Where(s)
             case None => Client([])
             case ClientBuffer => Client([])
             case ToServer => TransmitToServer
             case AtServerCq =>
               if s.spc == Waiting then Server else if s.server.sendCq > 0 then Server else AckServer
             case InServer => Server
             case ToClient => TransmitToClient
             case AtClientCq =>
               if s.cpc == Receiving then Client([]) else if s.client.sendCq > 0 then Client([]) else AckClient
             case InClient => Client([]);
    assert Step(s, a) != s;
  }

  /** The number of actions in a run that changed the state. */
  ghost function Effective(bufSize: nat, actions: seq<Action>): (n: nat)
  {
    if actions == [] then 0
    else
      var init := actions[..|actions| - 1];
      Effective(bufSize, init) + (if Run(bufSize, actions) == Run(bufSize, init) then 0 else 1)
  }

  /** A round takes exactly fifteen effective steps, its start included, whatever the schedule: over
      every run the effective steps and the work left add up to fifteen per round begun. */
  lemma {:induction false} FifteenSteps(bufSize: nat, actions: seq<Action>)
    ensures var s := Run(bufSize, actions); Effective(bufSize, actions) + Rank(s) == 15 * |s.sent|
  {
    hide Inv, Rank, Step;
    if actions == [] {
      RankAtStart(bufSize);
    } else {
      var init, last := actions[..|actions| - 1], actions[|actions| - 1];
      FifteenSteps(bufSize, init);
      RunKeeps(bufSize, init);
      StepProgress(Run(bufSize, init), last);
      RoundsCounted(Run(bufSize, init), last);
    }
  }

  lemma RankAtStart(bufSize: nat)
    ensures Rank(Initial(bufSize)) == 0 && Initial(bufSize).sent == []
  {
  }

  lemma RoundsCounted(s: State, a: Action)
    requires Inv(s)
    ensures |Step(s, a).sent| == |s.sent| + (if s.cpc == Ready && a.Client? then 1 else 0)
    ensures s.cpc == Ready && a.Client? ==> Step(s, a) != s
  {
  }
}
