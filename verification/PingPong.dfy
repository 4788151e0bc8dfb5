/** The endpoint object of internal/rdma/pingpong.go: two registered buffers over a queue pair. Each
    method is proved against its function in `EchoProtocol`, whose steps interleave them with the
    device and the other party. */
module PingPong {
  import opened Wire
  import EchoProtocol

  type Endpoint = EchoProtocol.Endpoint

  class PingPongConn {
    const bufSize: nat
    const sendBuf: array<Byte>
    const recvBuf: array<Byte>
    // the queue pair
    var recvsPosted: nat
    var sends: seq<nat>
    var unacked: nat
    var sendCq: nat
    var recvCq: seq<nat>

    constructor (bufSize: nat)
      ensures Valid() && this.bufSize == bufSize && fresh(sendBuf) && fresh(recvBuf)
      ensures View() == EchoProtocol.Fresh(bufSize)
    {
      this.bufSize := bufSize;
      sendBuf := new Byte[bufSize](_ => 0);
      recvBuf := new Byte[bufSize](_ => 0);
      recvsPosted, sends, unacked, sendCq, recvCq := 1, [], 0, 0, [];
    }

    ghost predicate Valid()
    {
      sendBuf.Length == recvBuf.Length == bufSize && sendBuf != recvBuf
    }

    ghost function View(): Endpoint
      reads this, sendBuf, recvBuf
    {
      EchoProtocol.Endpoint(sendBuf[..], recvBuf[..], recvsPosted, sends, unacked, sendCq, recvCq)
    }

    /** Posts a receive, unless the device rejects it. */
    method PostRecv(accepts: bool) returns (ok: bool)
      requires Valid()
      modifies this`recvsPosted
      ensures ok == accepts
      ensures View() == if ok then EchoProtocol.PostRecv(old(View())) else old(View())
    {
      ok := accepts;
      if ok {
        recvsPosted := recvsPosted + 1;
      }
    }

    /** The first half of `Send`: at most `bufSize` bytes are copied, and posted unless the device
        rejects the post. */
    method CopyAndPost(data: seq<Byte>, accepts: bool) returns (n: nat, ok: bool)
      requires Valid()
      modifies this`sends, sendBuf
      ensures n == (if |data| <= bufSize then |data| else bufSize) && ok == accepts
      ensures sendBuf[..n] == data[..n]
      ensures var copied := EchoProtocol.CopyIn(old(View()), data[..n]);
        View() == if ok then EchoProtocol.PostSend(copied, n) else copied
    {
      n := |data|;
      if n > bufSize {
        n := bufSize;
      }
      CopyFront(data[..n]);
      n, ok := PostRaw(n, accepts);
    }

    method CopyFront(data: seq<Byte>)
      requires Valid() && |data| <= bufSize
      modifies sendBuf
      ensures View() == EchoProtocol.CopyIn(old(View()), data)
    {
      CopyInto(sendBuf, 0, data);
      assert sendBuf[..] == EchoProtocol.Overwrite(old(sendBuf[..]), data);
    }

    /** The first half of `SendRaw`: posts what the send buffer holds, unless the device rejects it. */
    method PostRaw(length: nat, accepts: bool) returns (n: nat, ok: bool)
      requires Valid()
      modifies this`sends
      ensures n == (if length <= bufSize then length else bufSize) && ok == accepts
      ensures View() == if ok then EchoProtocol.PostSend(old(View()), n) else old(View())
    {
      n := length;
      if n > bufSize {
        n := bufSize;
      }
      ok := accepts;
      if ok {
        sends := sends + [n];
      }
    }

    /** One poll of the send queue. */
    method PollSend() returns (found: bool)
      requires Valid()
      modifies this`sendCq
      ensures found <==> old(sendCq) > 0
      ensures View() == if found then EchoProtocol.PollSend(old(View())) else old(View())
    {
      found := sendCq > 0;
      if found {
        sendCq := sendCq - 1;
      }
    }

    /** One poll of the receive queue, as in `Recv` and `RecvInPlace`. */
    method PollRecv() returns (found: bool, byteLen: nat)
      requires Valid()
      modifies this`recvCq
      ensures found <==> old(recvCq) != []
      ensures found ==> byteLen == old(recvCq)[0]
      ensures View() == if found then EchoProtocol.PollRecv(old(View())) else old(View())
    {
      found, byteLen := recvCq != [], 0;
      if found {
        byteLen := recvCq[0];
        recvCq := recvCq[1..];
      }
    }

    /** The copy in `Recv`, clipped to the destination. */
    method CopyOut(dst: array<Byte>, byteLen: nat) returns (n: nat)
      requires Valid() && byteLen <= bufSize && dst != recvBuf && dst != sendBuf
      modifies dst
      ensures n == if byteLen <= dst.Length then byteLen else dst.Length
      ensures dst[..n] == recvBuf[..n] && dst[n..] == old(dst[n..])
      ensures View() == old(View())
    {
      n := byteLen;
      if n > dst.Length {
        n := dst.Length;
      }
      CopyInto(dst, 0, recvBuf[..n]);
    }

    method CopyRecvToSend(length: nat)
      requires Valid()
      modifies sendBuf
      ensures var n := if length <= bufSize then length else bufSize;
        View() == EchoProtocol.CopyIn(old(View()), old(recvBuf[..n])) && sendBuf[..n] == recvBuf[..n]
    {
      var n := length;
      if n > bufSize {
        n := bufSize;
      }
      CopyFront(recvBuf[..n]);
    }
  }
}
