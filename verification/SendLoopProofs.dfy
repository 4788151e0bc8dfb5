/** What every call of the send loop keeps, over every run: the buffer partition and the accounts. */
module SendLoopProofs {
  import opened Wire
  import opened BufferPool
  import opened SendLoopSpec

  // ---------------------------------------------------------------- the buffer partition

  /** Free buffers, tracked buffers and the buffers in `out` are all the buffers, each once. */
  ghost predicate Partition(s: Buffers, out: seq<Buffer>)
  {
    && DistinctAddrs(s.all)
    && Distinct(s.free) && Distinct(out)
    && (forall b | b in s.free :: b in s.all)
    && (forall b | b in out :: b in s.all && b !in s.free)
    && (forall w | w in s.tracked :: w <= s.nextWrid)
    && (forall w | w in s.tracked :: s.tracked[w] in s.all && s.tracked[w] !in s.free && s.tracked[w] !in out)
    && (forall w, v | w in s.tracked && v in s.tracked && w != v :: s.tracked[w] != s.tracked[v])
    && |s.free| + |s.tracked| + |out| == |s.all|
    && (forall b | b in s.all :: b.addr in s.inFlight <==> b !in s.free)
    && s.inFlightN == |s.tracked| + |out|
  }

  ghost predicate DistinctAddrs(all: seq<Buffer>)
  {
    forall i, j | 0 <= i < j < |all| :: all[i].addr != all[j].addr
  }

  lemma SameAddr(all: seq<Buffer>, b: Buffer, c: Buffer)
    requires DistinctAddrs(all) && b in all && c in all && b.addr == c.addr
    ensures b == c
  {
  }

  lemma AcquirePartition(s: Buffers, out: seq<Buffer>)
    requires Partition(s, out) && s.free != []
    ensures Partition(s.Acquire(), out + [s.free[0]])
  {
    var b := s.free[0];
    assert s.free == [b] + s.free[1..];
    assert b in s.free;
    forall c | c in s.all && c.addr == b.addr ensures c == b {
      SameAddr(s.all, b, c);
    }
  }

  lemma DistinctInit(out: seq<Buffer>, b: Buffer)
    requires Distinct(out + [b])
    ensures Distinct(out) && b !in out
    ensures b in out + [b] && forall c | c in out :: c in out + [b]
  {
    assert forall i | 0 <= i < |out| :: (out + [b])[i] == out[i];
    assert (out + [b])[|out|] == b;
  }

  /** Giving back a buffer that is out puts it at the end of the free list: the list has room. */
  lemma CompletePartition(s: Buffers, out: seq<Buffer>, b: Buffer)
    requires Partition(s, out + [b])
    ensures s.Complete(b).free == s.free + [b]
    ensures Partition(s.Complete(b), out)
  {
    DistinctInit(out, b);
    forall c | c in s.all && c.addr == b.addr ensures c == b {
      SameAddr(s.all, b, c);
    }
  }

  lemma TrackPartition(s: Buffers, out: seq<Buffer>, b: Buffer)
    requires Partition(s, out + [b])
    ensures |s.Track(b).tracked| == |s.tracked| + 1
    ensures Partition(s.Track(b), out)
  {
    assert s.nextWrid + 1 !in s.tracked;
    DistinctInit(out, b);
  }

  lemma UntrackPartition(s: Buffers, out: seq<Buffer>, w: nat)
    requires Partition(s, out) && w in s.tracked
    ensures |s.Untrack(w).tracked| == |s.tracked| - 1
    ensures Partition(s.Untrack(w), out + [s.tracked[w]])
  {
    assert s.Untrack(w).tracked.Keys == s.tracked.Keys - {w};
  }

  lemma ReleasePartition(s: Buffers, out: seq<Buffer>, w: nat)
    requires Partition(s, out) && w in s.tracked
    ensures |s.Release(w).tracked| == |s.tracked| - 1
    ensures s.Release(w).free == s.free + [s.tracked[w]]
    ensures Partition(s.Release(w), out)
  {
    UntrackPartition(s, out, w);
    CompletePartition(s.Untrack(w), out, s.tracked[w]);
  }

  lemma PartsOfPartition(s: Buffers, out: seq<Buffer>)
    requires Partition(s, out)
    ensures Elements(s.free) !! Elements(out) && (Elements(s.free) + Elements(out)) !! s.tracked.Values
    ensures Elements(s.free) + Elements(out) + s.tracked.Values <= Elements(s.all)
  {
  }

  lemma SizesOfParts(s: Buffers, out: seq<Buffer>)
    requires Partition(s, out)
    ensures |Elements(s.free)| + |Elements(out)| + |s.tracked.Values| == |Elements(s.all)|
  {
    InjectiveValues(s.tracked);
    DistinctSize(s.free);
    DistinctSize(out);
    DistinctSize(s.all);
  }

  /** Free, tracked and outstanding buffers cover the pool: none is missing. */
  lemma PartitionCovers(s: Buffers, out: seq<Buffer>)
    requires Partition(s, out)
    ensures Elements(s.free) + Elements(out) + s.tracked.Values == Elements(s.all)
  {
    hide Partition;
    PartsOfPartition(s, out);
    SizesOfParts(s, out);
    ThreePartsCover(Elements(s.free), Elements(out), s.tracked.Values, Elements(s.all));
  }

  lemma ThreePartsCover<T>(a: set<T>, b: set<T>, c: set<T>, whole: set<T>)
    requires a !! b && (a + b) !! c && a + b + c <= whole
    requires |a| + |b| + |c| == |whole|
    ensures a + b + c == whole
  {
    SubsetOfSameSize(a + b + c, whole);
  }

  ghost function Elements<T>(s: seq<T>): set<T>
  {
    set x | x in s
  }

  lemma {:induction false} DistinctSize<T>(s: seq<T>)
    requires Distinct(s)
    ensures |Elements(s)| == |s|
  {
    if s == [] {
    } else {
      var init, last := s[..|s| - 1], s[|s| - 1];
      DistinctSize(init);
      assert Elements(s) == Elements(init) + {last};
      assert last !in init;
    }
  }

  lemma {:induction false} InjectiveValues(m: map<nat, Buffer>)
    requires forall w, v | w in m && v in m && w != v :: m[w] != m[v]
    ensures |m.Values| == |m|
    decreases |m|
  {
    if m == map[] {
      assert m.Values == {};
    } else {
      var w :| w in m;
      var rest := m - {w};
      assert rest.Keys == m.Keys - {w};
      InjectiveValues(rest);
      forall b | b in m.Values ensures b in rest.Values + {m[w]} {
        var v :| v in m && m[v] == b;
        assert v == w || rest[v] == b;
      }
      assert m.Values == rest.Values + {m[w]};
    }
  }

  lemma SubsetOfSameSize<T>(a: set<T>, b: set<T>)
    requires a <= b && |a| == |b|
    ensures a == b
  {
    assert b == a + (b - a);
    assert |b| == |a| + |b - a|;
  }

  // ---------------------------------------------------------------- the invariant

  /** The counters agree with the buffers that are out. */
  ghost predicate Accounted(s: Loop)
  {
    && Partition(s.bufs, Leaked(s.log)) && s.bufs.all != []
    && s.ongoing == |s.bufs.tracked| + Lost(s)
    && s.pendingSize == FramedSize(s.pending)
  }

  /** The modules agree, and no batch waits without a counted send. */
  ghost predicate Inv(s: Loop)
  {
    Accounted(s) && (s.pending != [] ==> s.ongoing > 0)
  }

  lemma IdleMeansAllFree(s: Loop)
    requires Accounted(s) && s.ongoing == 0
    ensures |s.bufs.free| == |s.bufs.all| > 0
  {
  }

  lemma LogSnoc(log: seq<Attempt>, a: Attempt)
    ensures Leaked(log + [a]) == Leaked(log) + (if a.outcome == NotConnected then [a.buf] else [])
    ensures BatchMessages(log + [a]) == BatchMessages(log) + (if a.batch then a.messages else [])
    ensures SingleCount(log + [a]) == SingleCount(log) + (if a.batch then 0 else 1)
  {
    assert (log + [a])[..|log|] == log;
  }

  /** `t` is `s` after one launch of `ms`. */
  ghost predicate Launched(s: Loop, t: Loop, ms: seq<Payload>, batch: bool, env: Env)
  {
    && t.cfg == s.cfg && t.bufs.all == s.bufs.all && t.connected == s.connected
    && t.pending == s.pending && t.pendingSize == s.pendingSize
    && t.ongoing == s.ongoing + 1 && t.sent == s.sent + |ms|
    && t.flushed == s.flushed + (if batch then 1 else 0)
    && |t.log| == |s.log| + 1 && t.log[..|s.log|] == s.log
    && t.log[|s.log|].bytes == Clipped(Packed(ms, env.now), s.cfg.bufferLength)
    && t.log[|s.log|].messages == ms && t.log[|s.log|].batch == batch
  }

  /** `t` is `s` after the connection was handed `bytes`, packed from `ms`. */
  ghost predicate Handed(s: Loop, t: Loop, bytes: seq<Byte>, ms: seq<Payload>, batch: bool)
  {
    && t == s.(bufs := t.bufs, log := t.log, errorReleases := t.errorReleases)
    && t.bufs.all == s.bufs.all
    && |t.log| == |s.log| + 1 && t.log[..|s.log|] == s.log
    && t.log[|s.log|].bytes == bytes && t.log[|s.log|].messages == ms && t.log[|s.log|].batch == batch
  }

  /** A buffer was acquired and its send counted, but the connection does not have it yet. */
  ghost predicate Holding(s: Loop, b: Buffer)
  {
    && Partition(s.bufs, Leaked(s.log) + [b]) && s.bufs.all != []
    && s.ongoing == |s.bufs.tracked| + Lost(s) + 1
    && s.pendingSize == FramedSize(s.pending)
  }

  lemma TrackKeeps(s: Loop, b: Buffer)
    requires Holding(s, b)
    ensures Accounted(s.(bufs := s.bufs.Track(b))) && Lost(s.(bufs := s.bufs.Track(b))) == Lost(s)
  {
    hide Partition, Leaked, FramedSize;
    TrackPartition(s.bufs, Leaked(s.log), b);
  }

  /** Recording an attempt that the connection did make changes no account. */
  lemma LogKeeps(s: Loop, a: Attempt)
    requires Accounted(s) && a.outcome != NotConnected
    ensures Accounted(s.(log := s.log + [a])) && Lost(s.(log := s.log + [a])) == Lost(s)
  {
    hide Partition, Leaked, FramedSize;
    LogSnoc(s.log, a);
    assert Leaked(s.log) + [] == Leaked(s.log);
  }

  lemma ErrorKeeps(s: Loop, w: nat)
    requires Accounted(s)
    ensures var t := OnError(s, w);
      && Accounted(t) && t == s.(bufs := t.bufs, errorReleases := t.errorReleases) && t.bufs.all == s.bufs.all
      && Lost(t) == Lost(s) + (if w in s.bufs.tracked then 1 else 0)
  {
    hide Partition, Leaked, FramedSize;
    if w in s.bufs.tracked {
      ReleasePartition(s.bufs, Leaked(s.log), w);
    }
  }

  lemma PostedKeeps(s: Loop, b: Buffer, bytes: seq<Byte>, ms: seq<Payload>, batch: bool)
    requires Holding(s, b) && s.connected
    ensures var (t, status) := ConnSend(s, b, bytes, ms, batch, true);
      && Accounted(t) && Handed(s, t, bytes, ms, batch) && Lost(t) == Lost(s)
      && t.log[|s.log|].outcome.Posted? && status == Success
  {
    hide Accounted, Lost, Holding;
    TrackKeeps(s, b);
    LogKeeps(s.(bufs := s.bufs.Track(b)), Attempt(b, bytes, ms, batch, Posted(s.bufs.nextWrid + 1)));
  }

  lemma RejectedKeeps(s: Loop, b: Buffer, bytes: seq<Byte>, ms: seq<Payload>, batch: bool)
    requires Holding(s, b) && s.connected
    ensures var (t, status) := ConnSend(s, b, bytes, ms, batch, false);
      && Accounted(t) && Handed(s, t, bytes, ms, batch) && Lost(t) == Lost(s) + 1
      && t.log[|s.log|].outcome == Rejected && status == PostFailed
  {
    hide Accounted, Lost, Holding, OnError;
    TrackKeeps(s, b);
    var tracked := s.(bufs := s.bufs.Track(b));
    ErrorKeeps(tracked, s.bufs.nextWrid + 1);
    LogKeeps(OnError(tracked, s.bufs.nextWrid + 1), Attempt(b, bytes, ms, batch, Rejected));
  }

  lemma DisconnectedKeeps(s: Loop, b: Buffer, bytes: seq<Byte>, ms: seq<Payload>, batch: bool, accepts: bool)
    requires Holding(s, b) && !s.connected
    ensures var (t, status) := ConnSend(s, b, bytes, ms, batch, accepts);
      Accounted(t) && Handed(s, t, bytes, ms, batch) && Lost(t) == Lost(s) + 1 && status == Disconnected
  {
    hide Partition;
    LogSnoc(s.log, Attempt(b, bytes, ms, batch, NotConnected));
  }

  /** Acquiring and counting leave one buffer in hand. */
  lemma CountHolds(s: Loop, messages: nat, batch: bool)
    requires Accounted(s) && s.bufs.free != []
    ensures var t := Count(s, messages, batch); Holding(t, s.bufs.free[0]) && Lost(t) == Lost(s)
  {
    hide Partition, Leaked, FramedSize;
    AcquirePartition(s.bufs, Leaked(s.log));
  }

  /** A launch keeps the accounting and extends the log by the packed messages. */
  lemma LaunchKeeps(s: Loop, ms: seq<Payload>, batch: bool, env: Env)
    requires Accounted(s) && s.bufs.free != []
    ensures var (t, status) := Launch(s, ms, batch, env);
      && Accounted(t) && Launched(s, t, ms, batch, env)
      && (status == Success <==> s.connected && env.accepts)
      && (status == Success ==> t.log[|s.log|].outcome.Posted?)
      && (s.connected ==> t.log[|s.log|].outcome != NotConnected)
      && status in {Success, PostFailed, Disconnected}
      && Lost(t) == Lost(s) + (if status == Success then 0 else 1)
  {
    hide Accounted, Holding, Lost, Packed, Clipped, ConnSend;
    var b, counted := s.bufs.free[0], Count(s, |ms|, batch);
    var bytes := Clipped(Packed(ms, env.now), s.cfg.bufferLength);
    CountHolds(s, |ms|, batch);
    if !s.connected {
      DisconnectedKeeps(counted, b, bytes, ms, batch, env.accepts);
    } else if env.accepts {
      PostedKeeps(counted, b, bytes, ms, batch);
    } else {
      RejectedKeeps(counted, b, bytes, ms, batch);
    }
  }

  /** The device accepted everything the connection was given. */
  ghost predicate AllPosted(log: seq<Attempt>)
  {
    forall i | 0 <= i < |log| :: log[i].outcome.Posted?
  }

  /** Nothing was sent on a dead connection. */
  ghost predicate NeverDown(log: seq<Attempt>)
  {
    forall i | 0 <= i < |log| :: log[i].outcome != NotConnected
  }

  lemma NeverDownSnoc(before: seq<Attempt>, after: seq<Attempt>)
    requires |after| == |before| + 1 && after[..|before|] == before
    requires NeverDown(before) && after[|before|].outcome != NotConnected
    ensures NeverDown(after)
  {
    assert forall i | 0 <= i < |before| :: after[i] == after[..|before|][i];
  }

  lemma AllPostedSnoc(before: seq<Attempt>, after: seq<Attempt>)
    requires |after| == |before| + 1 && after[..|before|] == before
    requires AllPosted(before) && after[|before|].outcome.Posted?
    ensures AllPosted(after)
  {
    assert forall i | 0 <= i < |before| :: after[i] == after[..|before|][i];
  }

  lemma FlushKeeps(s: Loop, env: Env)
    requires Accounted(s)
    ensures var (t, status) := Flush(s, env);
      && Inv(t) && t.cfg == s.cfg && t.bufs.all == s.bufs.all && t.connected == s.connected
      && (status == NoBuffer <==> s.pending != [] && s.bufs.free == [])
      && (status == NoBuffer ==> t == s) && status != BufferTooSmall
      && (status != NoBuffer ==> t.pending == [])
      && t.ongoing == s.ongoing + (if s.pending != [] && s.bufs.free != [] then 1 else 0)
      && Lost(t) == Lost(s) + (if status in {PostFailed, Disconnected} then 1 else 0)
      && (status in {PostFailed, Disconnected} ==> !(s.connected && env.accepts))
      && (status == Success && AllPosted(s.log) ==> AllPosted(t.log))
      && (s.connected && NeverDown(s.log) ==> NeverDown(t.log))
  {
    hide Partition, Launch, Leaked, AllPosted, NeverDown;
    if s.pending != [] && s.bufs.free != [] {
      LaunchKeeps(s.(pending := [], pendingSize := 0), s.pending, true, env);
      var (t, status) := Flush(s, env);
      if s.connected && NeverDown(s.log) {
        NeverDownSnoc(s.log, t.log);
      }
      if status == Success && AllPosted(s.log) {
        AllPostedSnoc(s.log, t.log);
      }
    } else if s.ongoing == 0 {
      IdleMeansAllFree(s);
    }
  }

  lemma AppendKeeps(s: Loop, data: Payload)
    requires Accounted(s)
    ensures Accounted(Append(s, data))
  {
    FramedSizeConcat(s.pending, [data]);
  }

  lemma AggregateKeeps(s: Loop, data: Payload, env1: Env, env2: Env)
    requires Inv(s)
    ensures var t := AggregateSend(s, data, env1, env2).0; Inv(t) && t.bufs.all == s.bufs.all
  {
    hide Partition, Flush, Lost, Leaked;
    FlushKeeps(s, env1);
    var (roomy, status) := MakeRoom(s, data, env1);
    if status == Success {
      AppendKeeps(roomy, data);
      FlushKeeps(Append(roomy, data), env2);
    }
  }

  lemma ImmediateKeeps(s: Loop, data: Payload, env: Env)
    requires Inv(s)
    ensures var t := ImmediateSend(s, data, env).0; Inv(t) && t.bufs.all == s.bufs.all
  {
    hide Partition, Launch, Leaked;
    if s.bufs.free != [] {
      AcquirePartition(s.bufs, Leaked(s.log));
      CompletePartition(s.bufs.Acquire(), Leaked(s.log), s.bufs.free[0]);
      LaunchKeeps(s, [data], false, env);
    }
  }

  lemma CompletionKeeps(s: Loop, w: nat, env: Env)
    requires Inv(s)
    ensures var t := OnCompletion(s, w, env); Inv(t) && t.bufs.all == s.bufs.all
  {
    hide Partition, Flush, Leaked;
    if w in s.bufs.tracked {
      ReleasePartition(s.bufs, Leaked(s.log), w);
      FlushKeeps(s.(bufs := s.bufs.Release(w), ongoing := s.ongoing - 1), env);
    }
  }

  lemma StepKeeps(s: Loop, op: Op)
    requires Inv(s)
    ensures Inv(Step(s, op)) && Step(s, op).bufs.all == s.bufs.all
  {
    hide Partition, Flush, AggregateSend, ImmediateSend, OnCompletion, OnError, Leaked;
    match op
    case DoSend(data, busy, env1, env2) =>
      AggregateKeeps(s, data, env1, env2);
      ImmediateKeeps(s, data, env1);
    case DoFlush(env) => FlushKeeps(s, env);
    case Completion(w, env) => CompletionKeeps(s, w, env);
    case ErrorCompletion(w) => ErrorKeeps(s, w);
    case SetConnected(_) =>
  }

  lemma StartInv(cfg: Config, all: seq<Buffer>)
    requires all != [] && Distinct(Addrs(all))
    ensures DistinctAddrs(all) && Inv(Start(cfg, all))
  {
    assert forall i | 0 <= i < |all| :: Addrs(all)[i] == all[i].addr;
  }

  /** Every reachable state satisfies the invariant, whatever mix of sends, flushes, failed posts,
      lost connections, and duplicate, unknown, out-of-order or error completions led to it. */
  lemma {:induction false} RunKeeps(cfg: Config, all: seq<Buffer>, ops: seq<Op>)
    requires all != [] && DistinctAddrs(all)
    ensures Inv(Run(Start(cfg, all), ops)) && Run(Start(cfg, all), ops).bufs.all == all
  {
    if ops == [] {
    } else {
      RunKeeps(cfg, all, ops[..|ops| - 1]);
      StepKeeps(Run(Start(cfg, all), ops[..|ops| - 1]), ops[|ops| - 1]);
    }
  }
}
