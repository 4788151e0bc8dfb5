/** The registered buffer pool (pkg/buffer/pool.go) and the send pool on top of it
    (pkg/buffer/send_pool.go). */
module BufferPool {
  import opened Wire

  /** A registered buffer: its address, which also identifies it, and its memory region. */
  datatype Buffer = Buffer(addr: nat, mr: nat)

  datatype PoolError = Exhausted | Closed | TooLarge | BadConfig | NoMemory | NotRegistered | NotDeregistered

  datatype Acquired = Got(buf: Buffer) | Failed(error: PoolError)

  function Addrs(bs: seq<Buffer>): (s: seq<nat>)
    ensures |s| == |bs| && forall i | 0 <= i < |bs| :: s[i] == bs[i].addr
  {
    seq(|bs|, i requires 0 <= i < |bs| => bs[i].addr)
  }

  function Regions(bs: seq<Buffer>): (s: seq<nat>)
    ensures |s| == |bs| && forall i | 0 <= i < |bs| :: s[i] == bs[i].mr
  {
    seq(|bs|, i requires 0 <= i < |bs| => bs[i].mr)
  }

  ghost predicate Distinct<T>(s: seq<T>)
  {
    forall i, j | 0 <= i < j < |s| :: s[i] != s[j]
  }

  lemma NoBuffers()
    ensures Addrs([]) == Regions([]) == []
  {
  }

  lemma SameGivenBack(taken: seq<nat>, given: seq<nat>, a: seq<nat>, b: seq<nat>)
    ensures taken + a <= taken + a + b && given <= given + b + a && given + b <= given + b + a
    ensures multiset((given + b + a)[|given|..]) == multiset((taken + a + b)[|taken|..])
    ensures b == [] ==> given + b == given && taken + a + b == taken + a
  {
    assert (given + b + a)[|given|..] == b + a;
    assert (taken + a + b)[|taken|..] == a + b;
  }

  lemma DistinctSnoc<T>(s: seq<T>, x: T)
    requires Distinct(s) && x !in s
    ensures Distinct(s + [x])
  {
  }

  /** The allocator and the verbs device, with a ledger of every call. Allocation and registration
      may fail at any time. */
  class Device {
    ghost var allocs: seq<nat>
    ghost var freed: seq<nat>
    ghost var regs: seq<nat>
    ghost var deregs: seq<nat>
    ghost var failures: nat               // calls that failed
    var nextAddr: nat
    var nextMr: nat

    constructor ()
      ensures Valid() && allocs == regs == freed == deregs == [] && failures == 0
    {
      allocs, regs := [], [];
      freed, deregs := [], [];
      nextAddr, nextMr, failures := 1, 1, 0;
    }

    /** Addresses and regions are handed out once, and only those are ever given back. */
    ghost predicate Valid()
      reads this
    {
      && Distinct(allocs) && Distinct(regs)
      && (forall a | a in allocs :: a < nextAddr)
      && (forall m | m in regs :: m < nextMr)
      && (forall a | a in freed :: a in allocs)
      && (forall m | m in deregs :: m in regs)
    }

    method Allocate(size: nat) returns (ok: bool, addr: nat, data: array<Byte>)
      requires Valid()
      modifies this`allocs, this`nextAddr, this`failures
      ensures failures == old(failures) + (if ok then 0 else 1)
      ensures Valid() && fresh(data) && data.Length == size
      ensures addr !in old(allocs) && addr !in freed
      ensures allocs == if ok then old(allocs) + [addr] else old(allocs)
    {
      data := new Byte[size];
      addr := nextAddr;
      if * {
        ok := false;
        failures := failures + 1;
      } else {
        ok := true;
        nextAddr := nextAddr + 1;
        assert forall i | 0 <= i < |allocs| :: allocs[i] in allocs;
        allocs := allocs + [addr];
      }
    }

    method FreeMemory(addr: nat)
      requires Valid() && addr in allocs
      modifies this`freed
      ensures Valid() && freed == old(freed) + [addr]
    {
      freed := freed + [addr];
    }

    method RegMr() returns (ok: bool, mr: nat)
      requires Valid()
      modifies this`regs, this`nextMr, this`failures
      ensures failures == old(failures) + (if ok then 0 else 1)
      ensures Valid()
      ensures mr !in old(regs) && mr !in deregs
      ensures regs == if ok then old(regs) + [mr] else old(regs)
    {
      mr := nextMr;
      if * {
        ok := false;
        failures := failures + 1;
      } else {
        ok := true;
        nextMr := nextMr + 1;
        assert forall i | 0 <= i < |regs| :: regs[i] in regs;
        regs := regs + [mr];
      }
    }

    method DeregMr(mr: nat) returns (ok: bool)
      requires Valid() && mr in regs
      modifies this`deregs, this`failures
      ensures failures == old(failures) + (if ok then 0 else 1)
      ensures Valid() && deregs == old(deregs) + [mr]
    {
      deregs := deregs + [mr];
      if * {
        ok := false;
        failures := failures + 1;
      } else {
        ok := true;
      }
    }
  }

  class Pool {
    const device: Device
    const bufferSize: nat
    const bufferCount: nat
    var freeCh: seq<Buffer>
    var allBuffers: seq<Buffer>
    var mem: map<nat, array<Byte>>
    var closed: bool

    constructor (device: Device, bufferSize: nat, bufferCount: nat)
      ensures this.device == device && this.bufferSize == bufferSize && this.bufferCount == bufferCount
      ensures freeCh == allBuffers == [] && mem == map[] && !closed
    {
      this.device, this.bufferSize, this.bufferCount := device, bufferSize, bufferCount;
      freeCh, allBuffers, mem, closed := [], [], map[], false;
    }

    /** Every buffer has its own address and its own memory of the configured size. */
    ghost predicate Mapped()
      reads this`allBuffers, this`mem
    {
      && Distinct(Addrs(allBuffers)) && Distinct(Regions(allBuffers))
      && (forall b | b in allBuffers :: b.addr in mem)
      && (forall a | a in mem :: mem[a].Length == bufferSize)
      && (forall a, a' | a in mem && a' in mem && a != a' :: mem[a] != mem[a'])
    }

    /** The buffers are allocated and registered, and nothing was given back yet. */
    ghost predicate Live()
      reads this, device
    {
      && device.Valid()
      && (forall b | b in allBuffers :: b.addr in device.allocs && b.addr !in device.freed)
      && (forall b | b in allBuffers :: b.mr in device.regs && b.mr !in device.deregs)
    }

    /** An open, fully built pool. */
    ghost predicate Open()
      reads this
    {
      !closed && Mapped() && |allBuffers| == bufferCount > 0 && |freeCh| <= bufferCount
    }

    /** Builds the pool or fails. If an allocation or a registration fails at any iteration, every
        allocation made is freed exactly once and every region deregistered exactly once. */
    static method NewPool(device: Device, bufferSize: int, bufferCount: int)
      returns (pool: Pool?, error: PoolError)
      requires device.Valid()
      modifies device
      ensures device.Valid() && old(device.allocs) <= device.allocs && old(device.regs) <= device.regs
      ensures pool != null ==>
        && fresh(pool) && pool.Open() && pool.device == device && pool.Live()
        && pool.bufferSize == bufferSize && pool.bufferCount == bufferCount
        && pool.freeCh == pool.allBuffers
        && (forall a | a in pool.mem :: fresh(pool.mem[a]))
        && device.allocs == old(device.allocs) + Addrs(pool.allBuffers)
        && device.regs == old(device.regs) + Regions(pool.allBuffers)
        && device.freed == old(device.freed) && device.deregs == old(device.deregs)
      ensures pool == null ==>
        && old(device.freed) <= device.freed && old(device.deregs) <= device.deregs
        && multiset(device.freed[|old(device.freed)|..]) == multiset(device.allocs[|old(device.allocs)|..])
        && multiset(device.deregs[|old(device.deregs)|..]) == multiset(device.regs[|old(device.regs)|..])
      ensures pool == null ==>
        && (forall a | a in device.allocs && a !in old(device.allocs) :: multiset(device.freed)[a] == 1)
        && (forall m | m in device.regs && m !in old(device.regs) :: multiset(device.deregs)[m] == 1)
      ensures bufferSize <= 0 || bufferCount <= 0 ==>
        && pool == null && error == BadConfig && device.failures == old(device.failures)
        && device.allocs == old(device.allocs) && device.regs == old(device.regs)
      ensures bufferSize > 0 && bufferCount > 0 ==> (pool == null <==> device.failures > old(device.failures))
      ensures bufferSize > 0 && bufferCount > 0 && pool == null ==>
        var (taken, registered) := (|device.allocs| - |old(device.allocs)|, |device.regs| - |old(device.regs)|);
        error == if taken == registered then NoMemory else NotRegistered
    {
      hide Addrs, Regions;
      error := BadConfig;
      if bufferSize <= 0 || bufferCount <= 0 {
        return null, BadConfig;
      }
      var p := new Pool(device, bufferSize, bufferCount);
      var ok;
      ok, error := p.BuildAll();
      if ok {
        pool := p;
      } else {
        pool := null;
        ghost var a0, f0, r0, d0 := old(device.allocs), old(device.freed), old(device.regs), old(device.deregs);
        forall a | a in device.allocs && a !in a0 ensures multiset(device.freed)[a] == 1 {
          FreedExactlyOnce(device.allocs, a0, device.freed, f0, a);
        }
        forall m | m in device.regs && m !in r0 ensures multiset(device.deregs)[m] == 1 {
          FreedExactlyOnce(device.regs, r0, device.deregs, d0, m);
        }
      }
    }

    /** The construction loop with its failure exits. */
    method BuildAll() returns (ok: bool, error: PoolError)
      requires Building() && allBuffers == [] && mem == map[]
      modifies this`mem, this`allBuffers, this`freeCh, device
      ensures device.Valid() && old(device.allocs) <= device.allocs && old(device.regs) <= device.regs
      ensures device.failures >= old(device.failures) && (ok <==> device.failures == old(device.failures))
      ensures !ok ==>
        var (taken, registered) := (|device.allocs| - |old(device.allocs)|, |device.regs| - |old(device.regs)|);
        error == (if taken == registered then NoMemory else NotRegistered) && taken <= registered + 1
      ensures ok ==>
        && Building() && |allBuffers| == bufferCount
        && (forall a | a in mem :: fresh(mem[a]))
        && Ledger(old(device.allocs), old(device.regs), old(device.freed), old(device.deregs))
      ensures !ok ==>
        && old(device.freed) <= device.freed && old(device.deregs) <= device.deregs
        && multiset(device.freed[|old(device.freed)|..]) == multiset(device.allocs[|old(device.allocs)|..])
        && multiset(device.deregs[|old(device.deregs)|..]) == multiset(device.regs[|old(device.regs)|..])
    {
      hide Distinct, Addrs, Regions;
      NoBuffers();
      ghost var a0, r0, f0, d0 := device.allocs, device.regs, device.freed, device.deregs;
      ok, error := true, NoMemory;
      for i := 0 to bufferCount
        invariant Building() && |allBuffers| == i && ok && device.failures == old(device.failures)
        invariant forall a | a in mem :: fresh(mem[a])
        invariant Ledger(a0, r0, f0, d0)
      {
        ghost var built := allBuffers;
        ghost var orphans;
        ok, error, orphans := Grow(a0, r0, f0, d0);
        if !ok {
          Cleanup();
          SameGivenBack(a0, f0, Addrs(built), orphans);
          SameGivenBack(r0, d0, Regions(built), []);
          return;
        }
      }
    }

    /** Under construction: every buffer is free and nothing was given back. */
    ghost predicate Building()
      reads this, device
    {
      && Mapped() && Live() && !closed && freeCh == allBuffers
      && (forall a | a in mem :: a in device.allocs)
      && (forall m | m in Regions(allBuffers) :: m in device.regs)
    }

    /** Since the ledger read `a0, r0, f0, d0`, exactly the pool's buffers were acquired. */
    ghost predicate Ledger(a0: seq<nat>, r0: seq<nat>, f0: seq<nat>, d0: seq<nat>)
      reads this, device
    {
      && device.allocs == a0 + Addrs(allBuffers) && device.regs == r0 + Regions(allBuffers)
      && device.freed == f0 && device.deregs == d0
    }

    /** One iteration of the construction loop. If the registration fails, the memory just
        allocated is freed. */
    method Grow(ghost a0: seq<nat>, ghost r0: seq<nat>, ghost f0: seq<nat>, ghost d0: seq<nat>)
      returns (ok: bool, error: PoolError, ghost orphans: seq<nat>)
      requires Building() && Ledger(a0, r0, f0, d0)
      modifies this`mem, this`allBuffers, this`freeCh, device
      ensures Mapped() && Live() && device.failures == old(device.failures) + (if ok then 0 else 1)
      ensures !ok ==> |orphans| <= 1 && error == if orphans == [] then NoMemory else NotRegistered
      ensures ok ==>
        && Building() && |allBuffers| == |old(allBuffers)| + 1 && Ledger(a0, r0, f0, d0)
        && (forall a | a in mem :: (a in old(mem) && mem[a] == old(mem)[a]) || fresh(mem[a]))
      ensures !ok ==>
        && allBuffers == old(allBuffers)
        && device.allocs == a0 + Addrs(allBuffers) + orphans && device.freed == f0 + orphans
        && device.regs == r0 + Regions(allBuffers) && device.deregs == d0
    {
      hide Distinct;
      error := NoMemory;
      var haveMemory, addr, data := device.Allocate(bufferSize);
      if !haveMemory {
        return false, NoMemory, [];
      }
      var haveRegion, mr := device.RegMr();
      if !haveRegion {
        device.FreeMemory(addr);
        return false, NotRegistered, [addr];
      }
      Append(Buffer(addr, mr), data);
      ok, orphans := true, [];
    }

    /** Adds one freshly allocated and registered buffer. */
    method Append(buf: Buffer, data: array<Byte>)
      requires Mapped() && Live() && !closed && freeCh == allBuffers
      requires buf.addr in device.allocs && buf.addr !in device.freed
      requires buf.mr in device.regs && buf.mr !in device.deregs
      requires buf.addr !in mem && buf.mr !in Regions(allBuffers)
      requires data.Length == bufferSize && forall a | a in mem :: mem[a] != data
      modifies this`mem, this`allBuffers, this`freeCh
      ensures Mapped() && Live()
      ensures mem == old(mem)[buf.addr := data]
      ensures allBuffers == freeCh == old(allBuffers) + [buf]
      ensures Addrs(allBuffers) == old(Addrs(allBuffers)) + [buf.addr]
      ensures Regions(allBuffers) == old(Regions(allBuffers)) + [buf.mr]
    {
      forall i | 0 <= i < |allBuffers| ensures allBuffers[i].addr != buf.addr {
        assert allBuffers[i] in allBuffers;
      }
      assert buf.addr !in Addrs(allBuffers);
      assert Addrs(allBuffers + [buf]) == Addrs(allBuffers) + [buf.addr];
      assert Regions(allBuffers + [buf]) == Regions(allBuffers) + [buf.mr];
      DistinctSnoc(Addrs(allBuffers), buf.addr);
      DistinctSnoc(Regions(allBuffers), buf.mr);
      mem := mem[buf.addr := data];
      allBuffers := allBuffers + [buf];
      freeCh := freeCh + [buf];
    }

    /** Gives every buffer back to the device, free or not. */
    method ReleaseAll() returns (ok: bool)
      requires Mapped() && Live()
      modifies this`freeCh, this`allBuffers, device`freed, device`deregs, device`failures
      ensures device.Valid() && freeCh == allBuffers == []
      ensures device.failures >= old(device.failures) && (ok <==> device.failures == old(device.failures))
      ensures device.freed == old(device.freed) + Addrs(old(allBuffers))
      ensures device.deregs == old(device.deregs) + Regions(old(allBuffers))
    {
      freeCh := [];
      ok := true;
      ghost var addrs, mrs := Addrs(allBuffers), Regions(allBuffers);
      forall k | 0 <= k < |allBuffers|
        ensures allBuffers[k].addr in device.allocs && allBuffers[k].mr in device.regs
      {
        assert allBuffers[k] in allBuffers;
      }
      var all := allBuffers;
      for i := 0 to |all|
        invariant device.Valid() && freeCh == []
        invariant device.failures >= old(device.failures) && (ok <==> device.failures == old(device.failures))
        invariant forall k | 0 <= k < |all| :: all[k].addr in device.allocs && all[k].mr in device.regs
        invariant device.freed == old(device.freed) + addrs[..i]
        invariant device.deregs == old(device.deregs) + mrs[..i]
      {
        var deregistered := device.DeregMr(all[i].mr);
        ok := ok && deregistered;
        device.FreeMemory(all[i].addr);
        assert addrs[..i + 1] == addrs[..i] + [addrs[i]];
        assert mrs[..i + 1] == mrs[..i] + [mrs[i]];
      }
      assert addrs[..|all|] == addrs && mrs[..|all|] == mrs;
      allBuffers := [];
    }

    method Cleanup()
      requires Mapped() && Live()
      modifies this`freeCh, this`allBuffers, device`freed, device`deregs, device`failures
      ensures device.Valid() && device.failures >= old(device.failures)
      ensures device.freed == old(device.freed) + Addrs(old(allBuffers))
      ensures device.deregs == old(device.deregs) + Regions(old(allBuffers))
    {
      var _ := ReleaseAll();
    }

    /** Closing frees every buffer and deregisters every region exactly once, whatever part of them
        is in flight; closing again changes nothing. */
    method Close() returns (ok: bool)
      requires closed || (Mapped() && Live())
      requires device.Valid()
      modifies this, device`freed, device`deregs, device`failures
      ensures closed && device.Valid() && (ok <==> device.failures == old(device.failures))
      ensures old(closed) ==>
        && ok && freeCh == old(freeCh) && allBuffers == old(allBuffers)
        && device.freed == old(device.freed) && device.deregs == old(device.deregs)
      ensures !old(closed) ==>
        && freeCh == allBuffers == []
        && device.freed == old(device.freed) + Addrs(old(allBuffers))
        && device.deregs == old(device.deregs) + Regions(old(allBuffers))
        && (forall b | b in old(allBuffers) ::
              multiset(device.freed)[b.addr] == 1 && multiset(device.deregs)[b.mr] == 1)
    {
      if closed {
        return true;
      }
      ghost var addrs, mrs := Addrs(allBuffers), Regions(allBuffers);
      closed := true;
      ok := ReleaseAll();
      ghost var freed, deregs := old(device.freed), old(device.deregs);
      forall b | b in old(allBuffers)
        ensures multiset(device.freed)[b.addr] == 1 && multiset(device.deregs)[b.mr] == 1
      {
        AppendedOnce(freed, addrs, b.addr);
        AppendedOnce(deregs, mrs, b.mr);
      }
    }

    method Alloc(size: int) returns (r: Acquired)
      modifies this`freeCh
      ensures r == if closed then Failed(Closed) else if size > bufferSize then Failed(TooLarge)
                   else if old(freeCh) == [] then Failed(Exhausted) else Got(old(freeCh)[0])
      ensures freeCh == if r.Got? then old(freeCh)[1..] else old(freeCh)
    {
      if closed {
        return Failed(Closed);
      }
      if size > bufferSize {
        return Failed(TooLarge);
      }
      if freeCh == [] {
        return Failed(Exhausted);
      }
      r := Got(freeCh[0]);
      freeCh := freeCh[1..];
    }

    /** Returns a buffer; if the free channel is full the buffer is dropped. */
    method Free(buf: Buffer)
      modifies this`freeCh
      ensures freeCh == if !closed && |old(freeCh)| < bufferCount then old(freeCh) + [buf] else old(freeCh)
    {
      if !closed && |freeCh| < bufferCount {
        freeCh := freeCh + [buf];
      }
    }
  }

  lemma {:induction false} DistinctCountsOne<T>(s: seq<T>, i: nat)
    requires Distinct(s) && i < |s|
    ensures multiset(s)[s[i]] == 1
  {
    assert s == s[..i] + [s[i]] + s[i + 1..];
    assert s[i] !in s[..i] && s[i] !in s[i + 1..];
  }

  lemma AppendedOnce(before: seq<nat>, added: seq<nat>, a: nat)
    requires Distinct(added) && a in added && a !in before
    ensures multiset(before + added)[a] == 1
  {
    var i :| 0 <= i < |added| && added[i] == a;
    DistinctCountsOne(added, i);
  }

  /** Since addresses and regions are handed out once, giving back the same multiset as was taken means
      that each one taken was given back exactly once. */
  lemma FreedExactlyOnce(allocs: seq<nat>, allocsBefore: seq<nat>, freed: seq<nat>, freedBefore: seq<nat>, a: nat)
    requires Distinct(allocs) && allocsBefore <= allocs && freedBefore <= freed
    requires forall x | x in freedBefore :: x in allocsBefore
    requires multiset(freed[|freedBefore|..]) == multiset(allocs[|allocsBefore|..])
    requires a in allocs && a !in allocsBefore
    ensures multiset(freed)[a] == 1
  {
    var i :| 0 <= i < |allocs| && allocs[i] == a;
    var added := allocs[|allocsBefore|..];
    DistinctCountsOne(added, i - |allocsBefore|);
    assert added[i - |allocsBefore|] == a;
    assert freed == freedBefore + freed[|freedBefore|..];
  }

  class SendPool {
    const pool: Pool
    var inFlight: set<nat>
    var inFlightN: int

    constructor (pool: Pool)
      ensures this.pool == pool && inFlight == {} && inFlightN == 0
    {
      this.pool := pool;
      inFlight, inFlightN := {}, 0;
    }

    method AcquireForSend() returns (r: Acquired)
      modifies this, pool`freeCh
      ensures r == if pool.closed then Failed(Closed)
                   else if old(pool.freeCh) == [] then Failed(Exhausted) else Got(old(pool.freeCh)[0])
      ensures r.Got? ==>
        && pool.freeCh == old(pool.freeCh)[1..]
        && inFlight == old(inFlight) + {r.buf.addr} && inFlightN == old(inFlightN) + 1
      ensures r.Failed? ==>
        pool.freeCh == old(pool.freeCh) && inFlight == old(inFlight) && inFlightN == old(inFlightN)
    {
      r := pool.Alloc(0);
      if r.Got? {
        inFlight := inFlight + {r.buf.addr};
        inFlightN := inFlightN + 1;
      }
    }

    method CompleteSend(buf: Buffer)
      modifies this, pool`freeCh
      ensures inFlight == old(inFlight) - {buf.addr}
      ensures inFlightN == old(inFlightN) - (if buf.addr in old(inFlight) then 1 else 0)
      ensures pool.freeCh == if !pool.closed && |old(pool.freeCh)| < pool.bufferCount
                             then old(pool.freeCh) + [buf] else old(pool.freeCh)
    {
      if buf.addr in inFlight {
        inFlight := inFlight - {buf.addr};
        inFlightN := inFlightN - 1;
      }
      pool.Free(buf);
    }

    /** At least half of the buffers (and at least one) are in flight. */
    method IsBusy() returns (busy: bool)
      ensures busy <==> inFlightN >= 1 && 2 * inFlightN + 1 >= pool.bufferCount
    {
      var threshold := pool.bufferCount / 2;
      if threshold < 1 {
        threshold := 1;
      }
      busy := inFlightN >= threshold;
    }
  }
}
