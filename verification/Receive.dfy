/** The receive side of a connection (pkg/connection/conn.go): posted buffers, unpacking of receive
    completions, and the bounded receive channel. */
module Receive {
  import opened Wire
  import opened WireTheorems
  import opened BufferPool

  const RECV_CAPACITY := 128

  datatype WorkCompletion = WorkCompletion(wrid: nat, isRecv: bool, byteLen: nat)

  /** The messages up to the first empty one: taking the address of an empty payload panics. */
  function BeforeEmpty(ms: seq<Payload>): (p: seq<Payload>)
  {
    if ms == [] || ms[0] == [] then [] else [ms[0]] + BeforeEmpty(ms[1..])
  }

  /** The channel after a message was offered to it: messages that find it full are dropped. */
  function Offer(ch: seq<Payload>, m: Payload): seq<Payload>
  {
    if |ch| < RECV_CAPACITY then ch + [m] else ch
  }

  function OfferAll(ch: seq<Payload>, ms: seq<Payload>): seq<Payload>
    decreases |ms|
  {
    if ms == [] then ch else OfferAll(Offer(ch, ms[0]), ms[1..])
  }

  function Min(a: int, b: int): int
  {
    if a < b then a else b
  }

  /** Offering messages one by one appends exactly the longest prefix that fits. */
  lemma {:induction false} OfferAllIsPrefix(ch: seq<Payload>, ms: seq<Payload>)
    requires |ch| <= RECV_CAPACITY
    ensures OfferAll(ch, ms) == ch + ms[..Min(|ms|, RECV_CAPACITY - |ch|)]
    decreases |ms|
  {
    if ms == [] {
    } else {
      OfferAllIsPrefix(Offer(ch, ms[0]), ms[1..]);
      if |ch| < RECV_CAPACITY {
        var k := Min(|ms|, RECV_CAPACITY - |ch|);
        assert ms[..k] == [ms[0]] + ms[1..][..k - 1];
      }
    }
  }

  lemma OfferStep(ch: seq<Payload>, m: Payload, rest: seq<Payload>)
    ensures OfferAll(ch, [m] + rest) == OfferAll(Offer(ch, m), rest)
    ensures OfferAll(ch, []) == ch
  {
    assert ([m] + rest)[1..] == rest;
  }

  lemma NothingToOffer(ch: seq<Payload>)
    ensures OfferAll(ch, BeforeEmpty([])) == ch && BeforeEmpty([]) == []
  {
  }

  lemma BeforeEmptyStep(ms: seq<Payload>, i: nat)
    requires i < |ms|
    ensures BeforeEmpty(ms[i..]) == if ms[i] == [] then [] else [ms[i]] + BeforeEmpty(ms[i + 1..])
  {
    assert ms[i..][1..] == ms[i + 1..];
  }

  lemma OfferAllBounded(ch: seq<Payload>, ms: seq<Payload>)
    requires |ch| <= RECV_CAPACITY
    ensures |OfferAll(ch, ms)| <= RECV_CAPACITY
  {
    OfferAllIsPrefix(ch, ms);
  }

  lemma {:induction false} BeforeEmptyIsPrefix(ms: seq<Payload>)
    ensures BeforeEmpty(ms) <= ms
    ensures forall m | m in BeforeEmpty(ms) :: m != []
    ensures |BeforeEmpty(ms)| < |ms| ==> ms[|BeforeEmpty(ms)|] == []
    ensures BeforeEmpty(ms) == ms <==> forall m | m in ms :: m != []
  {
    if ms == [] {
    } else {
      assert ms[0] in ms && ms == [ms[0]] + ms[1..];
      if ms[0] != [] {
        BeforeEmptyIsPrefix(ms[1..]);
        if forall m | m in ms :: m != [] {
          assert forall m | m in ms[1..] :: m in ms;
        }
      }
    }
  }

  /** The first empty message ends what is delivered. */
  lemma {:induction false} FirstEmpty(ms: seq<Payload>, i: nat)
    requires i < |ms| && ms[i] == [] && [] !in ms[..i]
    ensures BeforeEmpty(ms) == ms[..i]
  {
    if i == 0 {
    } else {
      assert ms[0] == ms[..i][0] && ms[..i][0] in ms[..i];
      assert ms[1..][..i - 1] == ms[..i][1..] && ms[..i] == [ms[0]] + ms[1..][..i - 1];
      FirstEmpty(ms[1..], i - 1);
    }
  }

  /** What bytes `b` that arrive do to the channel. Bytes that are not a batch deliver nothing. A batch
      delivers its messages in order as far as the channel has room; at its first empty message the code
      panics, having delivered those before it. */
  ghost predicate Delivers(b: seq<Byte>, before: seq<Payload>, after: seq<Payload>, panicked: bool)
  {
    && (b == [] || (forall ms :: !IsBatch(b, ms)) ==> after == before && !panicked)
    && (forall ms | IsBatch(b, ms) && [] !in ms ::
          !panicked && |before| <= RECV_CAPACITY && after == before + ms[..Min(|ms|, RECV_CAPACITY - |before|)])
    && (forall ms, i | IsBatch(b, ms) && 0 <= i < |ms| && ms[i] == [] && [] !in ms[..i] ::
          panicked && |before| <= RECV_CAPACITY && after == before + ms[..Min(i, RECV_CAPACITY - |before|)])
  }

  /** A packed batch of non-empty messages that arrives in a channel with room is delivered whole. */
  lemma PackedDelivers(ms: seq<Payload>, now: nat, before: seq<Payload>, after: seq<Payload>, panicked: bool)
    requires Representable(ms) && [] !in ms && |before| <= RECV_CAPACITY
    ensures Delivers(Packed(ms, now), before, after, panicked) ==>
      && !panicked && after == before + ms[..Min(|ms|, RECV_CAPACITY - |before|)]
      && (|before| + |ms| <= RECV_CAPACITY ==> after == before + ms)
  {
    PackedIsBatch(ms, now);
    assert ms[..|ms|] == ms;
  }

  class RecvConn {
    const recvPool: Pool
    var recvBufs: map<nat, Buffer>
    var recvCh: seq<Payload>
    ghost var consumed: nat

    constructor (recvPool: Pool)
      ensures this.recvPool == recvPool && recvBufs == map[] && recvCh == [] && consumed == 0
    {
      this.recvPool := recvPool;
      recvBufs, recvCh, consumed := map[], [], 0;
    }

    ghost function View(): RecvSide
      reads this, recvPool
    {
      RecvSide(recvPool.freeCh, recvBufs, consumed)
    }

    ghost predicate Valid()
      reads this, recvPool
    {
      && recvPool.Open() && |recvCh| <= RECV_CAPACITY
      && (forall b | b in recvPool.freeCh :: b.addr in recvPool.mem)
      && (forall w | w in recvBufs :: recvBufs[w].addr in recvPool.mem)
    }

    method DeliverRecv(m: Payload)
      modifies this`recvCh
      ensures recvCh == Offer(old(recvCh), m)
    {
      if |recvCh| < RECV_CAPACITY {
        recvCh := recvCh + [m];
      }
    }

    /** Allocates, tracks and posts buffers one by one; the device rejects the post with index
        `rejectAt`. */
    method PostRecvBuffers(count: nat, rejectAt: nat) returns (ok: bool)
      requires Valid()
      modifies this`recvBufs, recvPool`freeCh
      ensures Valid()
      ensures (recvPool.freeCh, recvBufs, ok) == PostMany(old(recvPool.freeCh), old(recvBufs), count, rejectAt)
    {
      hide Pool.Mapped;
      var i := 0;
      while i < count
        invariant i <= count && i <= rejectAt && Valid()
        invariant PostMany(recvPool.freeCh, recvBufs, count - i, rejectAt - i)
               == PostMany(old(recvPool.freeCh), old(recvBufs), count, rejectAt)
      {
        ghost var tracked := recvBufs;
        var r := recvPool.Alloc(0);
        if r.Failed? {
          return false;
        }
        recvBufs := recvBufs[r.buf.addr := r.buf];
        if i == rejectAt {
          recvBufs := recvBufs - {r.buf.addr};
          assert recvBufs == tracked - {r.buf.addr};
          recvPool.Free(r.buf);
          return false;
        }
        i := i + 1;
      }
      ok := true;
    }

    /** The delivery loop. */
    method DeliverBatch(messages: seq<Payload>) returns (panicked: bool)
      modifies this`recvCh
      ensures recvCh == OfferAll(old(recvCh), BeforeEmpty(messages))
      ensures panicked <==> BeforeEmpty(messages) != messages
    {
      hide BeforeEmpty, OfferAll;
      for i := 0 to |messages|
        invariant OfferAll(recvCh, BeforeEmpty(messages[i..])) == OfferAll(old(recvCh), BeforeEmpty(messages))
        invariant BeforeEmpty(messages) == messages[..i] + BeforeEmpty(messages[i..])
      {
        BeforeEmptyStep(messages, i);
        if messages[i] == [] {
          OfferStep(recvCh, [], []);
          assert messages[..i] + [] == messages[..i];
          return true;
        }
        ghost var rest := BeforeEmpty(messages[i + 1..]);
        OfferStep(recvCh, messages[i], rest);
        DeliverRecv(messages[i]);
        assert messages[..i] + ([messages[i]] + rest) == messages[..i + 1] + rest;
      }
      NothingToOffer(recvCh);
      assert messages[|messages|..] == [] && messages[..|messages|] == messages;
      assert messages + [] == messages;
      panicked := false;
    }

    /** One work completion. `data` is what the device wrote into the buffer. Returns whether the
        call panicked, which happens at the first empty message of a batch. */
    method OnCompletion(wc: WorkCompletion, rejectAt: nat) returns (panicked: bool)
      requires Valid() && (wc.wrid in recvBufs ==> wc.byteLen <= recvPool.bufferSize)
      modifies this`recvBufs, this`recvCh, this`consumed, recvPool`freeCh
      ensures Valid()
      ensures var r := old(Received(wc));
        && recvCh == OfferAll(old(recvCh), BeforeEmpty(r))
        && (panicked <==> BeforeEmpty(r) != r)
      ensures Delivers(old(Arrived(wc)), old(recvCh), recvCh, panicked)
      ensures !wc.isRecv ==> View() == old(View())
      ensures wc.isRecv && !panicked ==>
        View() == AfterCompletion(old(View()), RecvCompletion(wc.wrid, wc.byteLen == 0, rejectAt))
      ensures wc.isRecv && panicked ==>
        View() == old(View()).(bufs := old(recvBufs) - {wc.wrid}, consumed := old(consumed) + 1)
    {
      hide Parse, Unpack, Distinct, Delivers, BeforeEmpty, OfferAll;
      panicked := false;
      ArrivedDelivers(wc);
      NothingToOffer(recvCh);
      if !wc.isRecv {
        return;
      }
      if wc.byteLen == 0 {
        var _ := PostRecvBuffers(1, rejectAt);
        return;
      }
      var known := wc.wrid in recvBufs;
      var messages: seq<Payload> := [];
      if known {
        var buf := recvBufs[wc.wrid];
        var r := UnpackBatch(recvPool.mem[buf.addr][..wc.byteLen], wc.byteLen);
        if r.Ok? {
          messages := r.value;
        }
        consumed := consumed + 1;
      }
      recvBufs := recvBufs - {wc.wrid};
      assert messages == old(Received(wc));
      OfferAllBounded(recvCh, BeforeEmpty(messages));
      panicked := DeliverBatch(messages);
      if panicked {
        return;
      }
      var _ := PostRecvBuffers(1, rejectAt);
    }

    /** The bytes that a receive completion reports in a tracked buffer. */
    ghost function Arrived(wc: WorkCompletion): seq<Byte>
      requires Valid() && (wc.wrid in recvBufs ==> wc.byteLen <= recvPool.bufferSize)
      reads this, recvPool, recvPool.mem.Values
    {
      if wc.isRecv && wc.wrid in recvBufs then recvPool.mem[recvBufs[wc.wrid].addr][..wc.byteLen] else []
    }

    /** What is offered for the bytes that arrived: the messages of which they are a batch, up to the
        first empty one, and nothing if they are not a batch. */
    lemma ArrivedDelivers(wc: WorkCompletion)
      requires Valid() && (wc.wrid in recvBufs ==> wc.byteLen <= recvPool.bufferSize)
      ensures var r := Received(wc);
        Delivers(Arrived(wc), recvCh, OfferAll(recvCh, BeforeEmpty(r)), BeforeEmpty(r) != r)
    {
      hide Parse, Unpack, Distinct, IsFramed, BeforeEmpty, OfferAll;
      var b, r := Arrived(wc), Received(wc);
      NothingToOffer(recvCh);
      UnpacksIffBatch(b, r);
      forall ms | b != [] && IsBatch(b, ms) ensures r == ms {
        UnpacksIffBatch(b, ms);
      }
      OfferAllIsPrefix(recvCh, BeforeEmpty(r));
      BeforeEmptyIsPrefix(r);
      forall i | 0 <= i < |r| && r[i] == [] && [] !in r[..i] ensures BeforeEmpty(r) == r[..i] {
        FirstEmpty(r, i);
      }
    }

    /** Concrete case: a batch of one empty message, which the sender packs without complaint, is
        unpacked to that message, and none of it can be delivered. */
    lemma EmptyMessagePanics(wc: WorkCompletion, now: nat)
      requires Valid() && wc.isRecv && wc.wrid in recvBufs && wc.byteLen == BatchBytes([[]]) <= recvPool.bufferSize
      requires recvPool.mem[recvBufs[wc.wrid].addr][..wc.byteLen] == Packed([[]], now)
      ensures Received(wc) == [[]] && BeforeEmpty(Received(wc)) == []
    {
      RoundTrip([[]], now, []);
      assert Packed([[]], now) + [] == Packed([[]], now);
    }

    /** The messages carried by a receive completion of a tracked buffer. */
    ghost function Received(wc: WorkCompletion): seq<Payload>
      requires Valid() && (wc.wrid in recvBufs ==> wc.byteLen <= recvPool.bufferSize)
      reads this, recvPool, recvPool.mem.Values
    {
      if wc.isRecv && wc.byteLen > 0 && wc.wrid in recvBufs then
        var r := Unpack(recvPool.mem[recvBufs[wc.wrid].addr][..wc.byteLen], wc.byteLen);
        if r.Ok? then r.value else []
      else []
    }
  }

  // ---------------------------------------------------------------- receive buffers

  function PostMany(free: seq<Buffer>, bufs: map<nat, Buffer>, count: nat, rejectAt: nat)
    : (seq<Buffer>, map<nat, Buffer>, bool)
  {
    if count == 0 then (free, bufs, true)
    else if free == [] then (free, bufs, false)
    else if rejectAt == 0 then (free[1..] + [free[0]], bufs - {free[0].addr}, false)
    else PostMany(free[1..], bufs[free[0].addr := free[0]], count - 1, rejectAt - 1)
  }

  /** The buffers of the receive side; `consumed` counts the tracked buffers a message arrived in. */
  datatype RecvSide = RecvSide(free: seq<Buffer>, bufs: map<nat, Buffer>, consumed: nat)

  /** A receive completion, and which post of the replenishment the device rejects. */
  datatype RecvCompletion = RecvCompletion(wrid: nat, empty: bool, rejectAt: nat)

  function AfterCompletion(s: RecvSide, c: RecvCompletion): RecvSide
  {
    var arrived := !c.empty && c.wrid in s.bufs;
    var (free, bufs, _) := PostMany(s.free, if c.empty then s.bufs else s.bufs - {c.wrid}, 1, c.rejectAt);
    RecvSide(free, bufs, s.consumed + (if arrived then 1 else 0))
  }

  /** The receive side after `count` buffers were posted and the completions were handled. */
  function RecvRun(all: seq<Buffer>, count: nat, rejectAt: nat, cs: seq<RecvCompletion>): RecvSide
  {
    if cs == [] then
      var (free, bufs, _) := PostMany(all, map[], count, rejectAt);
      RecvSide(free, bufs, 0)
    else AfterCompletion(RecvRun(all, count, rejectAt, cs[..|cs| - 1]), cs[|cs| - 1])
  }

  /** No buffer is both free and tracked. */
  ghost predicate Apart(free: seq<Buffer>, bufs: map<nat, Buffer>)
  {
    && Distinct(Addrs(free))
    && (forall b | b in free :: b.addr !in bufs)
    && (forall w | w in bufs :: bufs[w].addr == w)
  }

  lemma TailApart(free: seq<Buffer>, bufs: map<nat, Buffer>)
    requires Apart(free, bufs) && free != []
    ensures var (b, rest) := (free[0], free[1..]);
      && Apart(rest, bufs[b.addr := b]) && |bufs[b.addr := b]| == |bufs| + 1
      && Apart(rest + [b], bufs - {b.addr}) && bufs - {b.addr} == bufs
  {
    var b, rest := free[0], free[1..];
    assert b in free;
    forall i | 0 <= i < |rest| ensures rest[i].addr != b.addr && rest[i] in free {
      assert Addrs(free)[i + 1] != Addrs(free)[0];
    }
    assert forall i | 0 <= i < |rest| :: Addrs(rest)[i] == Addrs(free)[i + 1];
    assert Addrs(rest + [b]) == Addrs(rest) + [b.addr];
    assert bufs[b.addr := b].Keys == bufs.Keys + {b.addr};
  }

  /** Posting buffers, rejected posts included, neither loses nor duplicates one. */
  lemma {:induction false} PostManyConserves(free: seq<Buffer>, bufs: map<nat, Buffer>, count: nat, rejectAt: nat)
    requires Apart(free, bufs)
    ensures var (free', bufs', _) := PostMany(free, bufs, count, rejectAt);
      Apart(free', bufs') && |free'| + |bufs'| == |free| + |bufs|
  {
    hide Apart;
    if count == 0 || free == [] {
    } else {
      TailApart(free, bufs);
      if rejectAt > 0 {
        PostManyConserves(free[1..], bufs[free[0].addr := free[0]], count - 1, rejectAt - 1);
      }
    }
  }

  /** Posting succeeds iff enough buffers are free and the device rejects none of the posts. */
  lemma {:induction false} PostManySucceedsIff(free: seq<Buffer>, bufs: map<nat, Buffer>, count: nat, rejectAt: nat)
    ensures PostMany(free, bufs, count, rejectAt).2 <==> count <= |free| && count <= rejectAt
  {
    if count == 0 || free == [] {
    } else if rejectAt > 0 {
      PostManySucceedsIff(free[1..], bufs[free[0].addr := free[0]], count - 1, rejectAt - 1);
    }
  }

  lemma RemovedApart(free: seq<Buffer>, bufs: map<nat, Buffer>, w: nat)
    requires Apart(free, bufs)
    ensures Apart(free, bufs - {w}) && |bufs - {w}| == |bufs| - (if w in bufs then 1 else 0)
  {
    assert (bufs - {w}).Keys == bufs.Keys - {w};
  }

  lemma CompletionConserves(s: RecvSide, c: RecvCompletion)
    requires Apart(s.free, s.bufs)
    ensures var t := AfterCompletion(s, c);
      Apart(t.free, t.bufs) && |t.free| + |t.bufs| + t.consumed == |s.free| + |s.bufs| + s.consumed
  {
    hide Apart;
    RemovedApart(s.free, s.bufs, c.wrid);
    PostManyConserves(s.free, if c.empty then s.bufs else s.bufs - {c.wrid}, 1, c.rejectAt);
  }

  /** Over every run, a receive buffer is free, tracked, or was consumed, and a consumed one never
      comes back: a connection receives in at most as many buffers as its pool has, and once it has
      used them all, no completion changes anything any more. */
  lemma {:induction false} Starvation(all: seq<Buffer>, count: nat, rejectAt: nat, cs: seq<RecvCompletion>)
    requires Distinct(Addrs(all))
    ensures var s := RecvRun(all, count, rejectAt, cs);
      && Apart(s.free, s.bufs) && |s.free| + |s.bufs| + s.consumed == |all|
      && (s.consumed == |all| ==> s.free == [] && s.bufs == map[] && forall c :: AfterCompletion(s, c) == s)
  {
    hide Apart, AfterCompletion, Distinct;
    var s := RecvRun(all, count, rejectAt, cs);
    if cs == [] {
      NothingTracked(all);
      PostManyConserves(all, map[], count, rejectAt);
    } else {
      Starvation(all, count, rejectAt, cs[..|cs| - 1]);
      CompletionConserves(RecvRun(all, count, rejectAt, cs[..|cs| - 1]), cs[|cs| - 1]);
    }
    if s.consumed == |all| {
      forall c ensures AfterCompletion(s, c) == s {
        StarvedStays(s, c);
      }
    }
  }

  lemma NothingTracked(all: seq<Buffer>)
    requires Distinct(Addrs(all))
    ensures Apart(all, map[])
  {
  }

  lemma StarvedStays(s: RecvSide, c: RecvCompletion)
    requires s.free == [] && s.bufs == map[]
    ensures AfterCompletion(s, c) == s
  {
    assert s.bufs - {c.wrid} == s.bufs;
  }

  // ---------------------------------------------------------------- how full the pipeline is

  lemma {:induction false} PostManyCounts(free: seq<Buffer>, bufs: map<nat, Buffer>, count: nat, rejectAt: nat)
    requires Apart(free, bufs)
    ensures var (free', bufs', _) := PostMany(free, bufs, count, rejectAt);
      |bufs'| == |bufs| + Min(Min(count, rejectAt), |free|)
    decreases count
  {
    hide Apart;
    if count == 0 || free == [] {
    } else {
      TailApart(free, bufs);
      if rejectAt > 0 {
        PostManyCounts(free[1..], bufs[free[0].addr := free[0]], count - 1, rejectAt - 1);
      }
    }
  }

  /** The replenishing post after this completion is made and rejected. */
  predicate Rejects(s: RecvSide, c: RecvCompletion)
  {
    s.free != [] && c.rejectAt == 0
  }

  lemma CompletionCounts(s: RecvSide, c: RecvCompletion)
    requires Apart(s.free, s.bufs)
    ensures var t := AfterCompletion(s, c);
      && |t.bufs| == |s.bufs| - (t.consumed - s.consumed) + (if s.free == [] || Rejects(s, c) then 0 else 1)
      && s.consumed <= t.consumed <= s.consumed + 1
  {
    hide Apart;
    RemovedApart(s.free, s.bufs, c.wrid);
    PostManyCounts(s.free, if c.empty then s.bufs else s.bufs - {c.wrid}, 1, c.rejectAt);
  }

  /** Replenishing posts rejected in a run. */
  function Rejected(all: seq<Buffer>, count: nat, rejectAt: nat, cs: seq<RecvCompletion>): (n: nat)
  {
    if cs == [] then 0
    else
      var init, last := cs[..|cs| - 1], cs[|cs| - 1];
      Rejected(all, count, rejectAt, init)
      + (if Rejects(RecvRun(all, count, rejectAt, init), last) then 1 else 0)
  }

  /** How many buffers are tracked, over every run, rejected posts included: those posted at the start,
      one more for each completion that consumed none, and one fewer for each rejected post, as far as
      the buffers not yet consumed go. */
  lemma {:induction false} PipelineLevel(all: seq<Buffer>, count: nat, rejectAt: nat, cs: seq<RecvCompletion>)
    requires Distinct(Addrs(all))
    ensures var s := RecvRun(all, count, rejectAt, cs);
      && s.consumed <= |cs| && s.consumed <= |all|
      && |s.bufs| == Min(Min(count, rejectAt) + |cs| - s.consumed - Rejected(all, count, rejectAt, cs),
                         |all| - s.consumed)
  {
    hide Apart, AfterCompletion, Distinct;
    Starvation(all, count, rejectAt, cs);
    if cs == [] {
      NothingTracked(all);
      PostManyCounts(all, map[], count, rejectAt);
    } else {
      var init, last := cs[..|cs| - 1], cs[|cs| - 1];
      PipelineLevel(all, count, rejectAt, init);
      Starvation(all, count, rejectAt, init);
      CompletionCounts(RecvRun(all, count, rejectAt, init), last);
    }
  }

  /** Every completion carries bytes in a tracked buffer. */
  ghost predicate AllArrive(all: seq<Buffer>, count: nat, rejectAt: nat, cs: seq<RecvCompletion>)
  {
    cs != [] ==>
      var init, last := cs[..|cs| - 1], cs[|cs| - 1];
      && AllArrive(all, count, rejectAt, init)
      && !last.empty && last.wrid in RecvRun(all, count, rejectAt, init).bufs
  }

  lemma {:induction false} ArrivalsConsume(all: seq<Buffer>, count: nat, rejectAt: nat, cs: seq<RecvCompletion>)
    requires AllArrive(all, count, rejectAt, cs)
    ensures RecvRun(all, count, rejectAt, cs).consumed == |cs|
    ensures Rejected(all, count, rejectAt, cs) <= |cs|
  {
    if cs == [] {
    } else {
      ArrivalsConsume(all, count, rejectAt, cs[..|cs| - 1]);
    }
  }

  /** After k messages the receive pipeline is as full as at the start iff no replenishing post was
      rejected and the pool still has k buffers beyond those posted at the start: replenishing draws on
      the pool alone, and a post that failed is not made up for. */
  lemma PipelineFullIff(all: seq<Buffer>, count: nat, rejectAt: nat, cs: seq<RecvCompletion>)
    requires Distinct(Addrs(all)) && AllArrive(all, count, rejectAt, cs)
    ensures var (start, s) := (RecvRun(all, count, rejectAt, []), RecvRun(all, count, rejectAt, cs));
      var (posted, rejected) := (Min(count, rejectAt), Rejected(all, count, rejectAt, cs));
      && |s.bufs| == Min(posted - rejected, |all| - |cs|)
      && (|s.bufs| == |start.bufs| <==> rejected == 0 && |cs| <= |all| - Min(posted, |all|))
  {
    ArrivalsConsume(all, count, rejectAt, cs);
    PipelineLevel(all, count, rejectAt, cs);
    PipelineLevel(all, count, rejectAt, []);
  }

  /** Concrete run: with every buffer posted, the first message already leaves one fewer. */
  lemma PipelineShrinks(b: Buffer, d: Buffer)
    requires b.addr != d.addr
    ensures var c := RecvCompletion(b.addr, false, 1);
      && |RecvRun([b, d], 2, 2, []).bufs| == 2
      && RecvRun([b, d], 2, 2, [c]).bufs == map[d.addr := d] && RecvRun([b, d], 2, 2, [c]).free == []
  {
    var c, both := RecvCompletion(b.addr, false, 1), map[b.addr := b][d.addr := d];
    var empty: map<nat, Buffer> := map[];
    assert [b, d][1..] == [d] && [d][1..] == [];
    assert PostMany([d], empty[b.addr := b], 1, 1) == PostMany([], both, 0, 0);
    assert PostMany([b, d], empty, 2, 2) == ([], both, true);
    assert both.Keys == {b.addr, d.addr};
    assert [c][..0] == [];
    assert RecvRun([b, d], 2, 2, [c]) == AfterCompletion(RecvRun([b, d], 2, 2, []), c);
    assert both - {b.addr} == map[d.addr := d];
  }

  /** Concrete run: a rejected replenishing post leaves nothing posted, although a buffer is free. */
  lemma RejectedRepost(b: Buffer, d: Buffer)
    requires b.addr != d.addr
    ensures var s := RecvRun([b, d], 1, 1, [RecvCompletion(b.addr, false, 0)]);
      s.bufs == map[] && s.free == [d]
  {
    var c := RecvCompletion(b.addr, false, 0);
    var empty: map<nat, Buffer> := map[];
    assert [b, d][1..] == [d] && [d][1..] + [d] == [d];
    assert PostMany([b, d], empty, 1, 1) == ([d], empty[b.addr := b], true);
    assert [c][..0] == [];
    assert RecvRun([b, d], 1, 1, [c]) == AfterCompletion(RecvRun([b, d], 1, 1, []), c);
    assert empty[b.addr := b] - {b.addr} == empty && empty - {d.addr} == empty;
  }
}
