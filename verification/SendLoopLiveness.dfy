/** Agreement of the aggregator, the handler and the send pool, and when waiting batches get out:
    what is guaranteed without lost sends, and exactly what a lost send breaks. */
module SendLoopLiveness {
  import opened Wire
  import opened BufferPool
  import opened SendLoopSpec
  import opened SendLoopProofs
  import opened SendLoopTheorems

  // ---------------------------------------------------------------- agreement

  /** Every post succeeds, every completion is a success, and the connection stays up. */
  ghost predicate Clean(op: Op)
  {
    match op
    case DoSend(_, _, env1, env2) => env1.accepts && env2.accepts
    case DoFlush(env) => env.accepts
    case Completion(_, env) => env.accepts
    case ErrorCompletion(_) => false
    case SetConnected(c) => c
  }

  /** Connected, with no send lost and every attempt posted. */
  ghost predicate Unharmed(s: Loop)
  {
    s.connected && Lost(s) == 0 && AllPosted(s.log)
  }

  lemma StepClean(s: Loop, op: Op)
    requires Inv(s) && Clean(op) && Unharmed(s)
    ensures Unharmed(Step(s, op))
  {
    hide Accounted, Flush, AggregateSend, ImmediateSend, OnCompletion, Lost, AllPosted;
    match op
    case DoSend(data, busy, env1, env2) =>
      AggregateClean(s, data, env1, env2);
      ImmediateClean(s, data, env1);
    case DoFlush(env) => FlushKeeps(s, env);
    case Completion(w, env) => CompletionClean(s, w, env);
    case SetConnected(c) => ConnectionLosesNone(s, c);
  }

  lemma AggregateClean(s: Loop, data: Payload, env1: Env, env2: Env)
    requires Inv(s) && Unharmed(s) && env1.accepts && env2.accepts
    ensures Unharmed(AggregateSend(s, data, env1, env2).0)
  {
    hide Accounted, Flush, Lost, AllPosted;
    FlushKeeps(s, env1);
    var (roomy, status) := MakeRoom(s, data, env1);
    if status == Success {
      AppendKeeps(roomy, data);
      AppendLosesNone(roomy, data);
      FlushKeeps(Append(roomy, data), env2);
    }
  }

  lemma ImmediateClean(s: Loop, data: Payload, env: Env)
    requires Inv(s) && Unharmed(s) && env.accepts
    ensures Unharmed(ImmediateSend(s, data, env).0)
  {
    hide Accounted, Launch, AllPosted;
    if s.bufs.free != [] {
      LaunchKeeps(s, [data], false, env);
      AllPostedSnoc(s.log, Launch(s, [data], false, env).0.log);
    }
  }

  lemma CompletionClean(s: Loop, w: nat, env: Env)
    requires Inv(s) && Unharmed(s) && env.accepts
    ensures Unharmed(OnCompletion(s, w, env))
  {
    hide Partition, Leaked, Flush, AllPosted;
    if w in s.bufs.tracked {
      ReleasePartition(s.bufs, Leaked(s.log), w);
      FlushKeeps(s.(bufs := s.bufs.Release(w), ongoing := s.ongoing - 1), env);
    }
  }

  /** Over every clean run the three counters are equal, and a waiting batch implies that some WRID
      is still tracked. */
  lemma {:induction false} Agreement(cfg: Config, all: seq<Buffer>, ops: seq<Op>)
    requires all != [] && DistinctAddrs(all) && forall op | op in ops :: Clean(op)
    ensures var s := Run(Start(cfg, all), ops);
      && s.ongoing == |s.bufs.tracked| == s.bufs.inFlightN == |all| - |s.bufs.free|
      && (s.pending != [] ==> s.bufs.tracked != map[])
      && Lost(s) == 0 && s.connected && Inv(s) && s.bufs.all == all && AllPosted(s.log)
  {
    RunKeeps(cfg, all, ops);
    if ops == [] {
    } else {
      var init := ops[..|ops| - 1];
      Agreement(cfg, all, init);
      StepClean(Run(Start(cfg, all), init), ops[|ops| - 1]);
    }
  }

  /** Over every run, clean or not: each buffer is free, tracked, or was sent on a dead connection,
      and is exactly one of these; the aggregator's counter exceeds the handler's by the sends that
      were lost. */
  lemma EveryBufferAccountedFor(cfg: Config, all: seq<Buffer>, ops: seq<Op>)
    requires all != [] && DistinctAddrs(all)
    ensures var s := Run(Start(cfg, all), ops);
      var (free, leaked, tracked) := (Elements(s.bufs.free), Elements(Leaked(s.log)), s.bufs.tracked.Values);
      && Distinct(s.bufs.free) && free !! leaked && (free + leaked) !! tracked
      && free + leaked + tracked == Elements(all)
      && |s.bufs.free| + |s.bufs.tracked| + |Leaked(s.log)| == |all|
      && s.bufs.inFlightN == |s.bufs.tracked| + |Leaked(s.log)|
      && s.ongoing == |s.bufs.tracked| + s.errorReleases + |Leaked(s.log)|
  {
    var s := Run(Start(cfg, all), ops);
    RunKeeps(cfg, all, ops);
    PartsOfPartition(s.bufs, Leaked(s.log));
    PartitionCovers(s.bufs, Leaked(s.log));
  }

  /** In every reachable state, releasing a tracked buffer finds room in the free list: the buffer
      is appended, never dropped. */
  lemma NeverDropped(cfg: Config, all: seq<Buffer>, ops: seq<Op>, w: nat)
    requires all != [] && DistinctAddrs(all) && w in Run(Start(cfg, all), ops).bufs.tracked
    ensures var s := Run(Start(cfg, all), ops);
      s.bufs.Release(w).free == s.bufs.free + [s.bufs.tracked[w]] && |s.bufs.free| < |all|
  {
    RunKeeps(cfg, all, ops);
    var s := Run(Start(cfg, all), ops);
    ReleasePartition(s.bufs, Leaked(s.log), w);
  }

  // ---------------------------------------------------------------- busy

  /** Connected, with nothing sent on a dead connection. */
  ghost predicate Up(s: Loop)
  {
    s.connected && NeverDown(s.log)
  }

  lemma StepStaysUp(s: Loop, op: Op)
    requires Inv(s) && op != SetConnected(false) && Up(s)
    ensures Up(Step(s, op))
  {
    hide Accounted, Flush, AggregateSend, ImmediateSend, OnCompletion, NeverDown;
    match op
    case DoSend(data, busy, env1, env2) =>
      AggregateStaysUp(s, data, env1, env2);
      ImmediateStaysUp(s, data, env1);
    case DoFlush(env) => FlushKeeps(s, env);
    case Completion(w, env) => CompletionStaysUp(s, w, env);
    case ErrorCompletion(w) => ErrorKeeps(s, w);
    case SetConnected(_) =>
  }

  lemma AggregateStaysUp(s: Loop, data: Payload, env1: Env, env2: Env)
    requires Inv(s) && Up(s)
    ensures Up(AggregateSend(s, data, env1, env2).0)
  {
    hide Accounted, Flush, NeverDown;
    FlushKeeps(s, env1);
    var (roomy, status) := MakeRoom(s, data, env1);
    if status == Success {
      AppendKeeps(roomy, data);
      FlushKeeps(Append(roomy, data), env2);
    }
  }

  lemma ImmediateStaysUp(s: Loop, data: Payload, env: Env)
    requires Inv(s) && Up(s)
    ensures Up(ImmediateSend(s, data, env).0)
  {
    hide Accounted, Launch, NeverDown;
    if s.bufs.free != [] {
      LaunchKeeps(s, [data], false, env);
      NeverDownSnoc(s.log, Launch(s, [data], false, env).0.log);
    }
  }

  lemma CompletionStaysUp(s: Loop, w: nat, env: Env)
    requires Inv(s) && Up(s)
    ensures Up(OnCompletion(s, w, env))
  {
    hide Partition, Leaked, Flush, NeverDown;
    if w in s.bufs.tracked {
      ReleasePartition(s.bufs, Leaked(s.log), w);
      FlushKeeps(s.(bufs := s.bufs.Release(w), ongoing := s.ongoing - 1), env);
    }
  }

  lemma {:induction false} NeverDownLeaksNone(log: seq<Attempt>)
    requires NeverDown(log)
    ensures Leaked(log) == []
  {
    if log == [] {
    } else {
      NeverDownLeaksNone(log[..|log| - 1]);
    }
  }

  lemma {:induction false} StaysUp(cfg: Config, all: seq<Buffer>, ops: seq<Op>)
    requires all != [] && DistinctAddrs(all) && SetConnected(false) !in ops
    ensures Up(Run(Start(cfg, all), ops))
  {
    hide Step, Inv;
    if ops == [] {
    } else {
      var init := ops[..|ops| - 1];
      StaysUp(cfg, all, init);
      RunKeeps(cfg, all, init);
      StepStaysUp(Run(Start(cfg, all), init), ops[|ops| - 1]);
    }
  }

  function Max(a: int, b: int): int
  {
    if a > b then a else b
  }

  /** While the connection stays up, over every run with error completions and rejected posts included:
      the buffers in flight are the tracked ones, so the test of `IsBusy` holds exactly when at least
      one send and at least half of the buffers, rounded down, are tracked. */
  lemma BusyIff(cfg: Config, all: seq<Buffer>, ops: seq<Op>)
    requires all != [] && DistinctAddrs(all) && SetConnected(false) !in ops
    ensures var bufs := Run(Start(cfg, all), ops).bufs;
      && bufs.inFlightN == |bufs.tracked| && |bufs.free| + |bufs.tracked| == |all|
      && (bufs.inFlightN >= 1 && 2 * bufs.inFlightN + 1 >= |all| <==> |bufs.tracked| >= Max(1, |all| / 2))
  {
    hide Run;
    RunKeeps(cfg, all, ops);
    StaysUp(cfg, all, ops);
    NeverDownLeaksNone(Run(Start(cfg, all), ops).log);
  }

  // ---------------------------------------------------------------- waiting batches

  /** A flush triggered by idleness never lacks a buffer, on any run: after it nothing waits. */
  lemma IdleFlushFindsBuffer(s: Loop, w: nat, env: Env, data: Payload)
    requires Inv(s)
    ensures w in s.bufs.tracked && s.ongoing == 1 ==> OnCompletion(s, w, env).pending == []
    ensures s.ongoing == 0 ==> AggregateSend(s, data, env, env).0.pending == []
  {
    hide Partition, Launch, Leaked;
    if w in s.bufs.tracked && s.ongoing == 1 {
      ReleasePartition(s.bufs, Leaked(s.log), w);
      FlushKeeps(s.(bufs := s.bufs.Release(w), ongoing := 0), env);
    }
    if s.ongoing == 0 {
      IdleMeansAllFree(s);
      AppendKeeps(s, data);
      FlushKeeps(Append(s, data), env);
    }
  }

  /** With nothing tracked, an aggregated message below the threshold is left waiting iff some
      earlier send was lost: its count keeps the idle trigger from firing. */
  lemma StrandedAtOnceIff(s: Loop, data: Payload, env: Env)
    requires Inv(s) && s.bufs.tracked == map[] && s.pending == []
    requires BatchBytes([data]) <= s.cfg.sendThreshold
    ensures AggregateSend(s, data, env, env).0.pending != [] <==> Lost(s) > 0
    ensures Lost(s) > 0 ==> AggregateSend(s, data, env, env) == (Append(s, data), Success)
  {
    hide Partition, Launch, Leaked;
    OneMessageBytes(data);
    IdleFlushFindsBuffer(s, 0, env, data);
  }

  /** Successful completions of tracked sends, in any order, whatever becomes of the posts they cause. */
  ghost predicate Draining(s: Loop, ops: seq<Op>)
  {
    ops != [] ==>
      var init, last := ops[..|ops| - 1], ops[|ops| - 1];
      Draining(s, init) && last.Completion? && last.wrid in Run(s, init).bufs.tracked
  }

  /** A completion moves the waiting batch iff it is the last one counted and none was lost. */
  lemma CompletionMovesIff(s: Loop, w: nat, env: Env)
    requires Inv(s) && w in s.bufs.tracked
    ensures var t := OnCompletion(s, w, env);
      && Inv(t) && Lost(t) >= Lost(s)
      && (if |s.bufs.tracked| == 1 && Lost(s) == 0 then t.pending == []
          else t.pending == s.pending && t.log == s.log && Lost(t) == Lost(s))
  {
    hide Partition, Launch, Leaked;
    ReleasePartition(s.bufs, Leaked(s.log), w);
    FlushKeeps(s.(bufs := s.bufs.Release(w), ongoing := s.ongoing - 1), env);
    CompletionKeeps(s, w, env);
  }

  lemma {:induction false} DrainingKeeps(s: Loop, ops: seq<Op>)
    requires Inv(s) && Draining(s, ops)
    ensures var t := Run(s, ops);
      && Inv(t) && Lost(t) >= Lost(s)
      && (t.pending == s.pending || t.pending == [])
      && (Lost(s) > 0 ==> t.pending == s.pending)
      && (Lost(t) > Lost(s) ==> t.pending == [])
  {
    hide Inv, Lost;
    if ops == [] {
    } else {
      var init, last := ops[..|ops| - 1], ops[|ops| - 1];
      DrainingKeeps(s, init);
      CompletionMovesIff(Run(s, init), last.wrid, last.env);
    }
  }

  /** From any reachable state, once the sends under way have completed, in any order, the batch that
      waited is no longer waiting iff there was none or no send had been lost: it was flushed, though
      that flush may have failed to post it. */
  lemma StrandedIff(s: Loop, ops: seq<Op>)
    requires Inv(s) && Draining(s, ops)
    ensures Run(s, ops).bufs.tracked == map[] ==> (Run(s, ops).pending == [] <==> s.pending == [] || Lost(s) == 0)
  {
    DrainingKeeps(s, ops);
  }

  lemma StepLosesNone(s: Loop, op: Op)
    requires Inv(s)
    ensures Lost(Step(s, op)) >= Lost(s)
  {
    hide Partition, Flush, Launch, Leaked, Lost, OnError, OnCompletion;
    match op
    case DoSend(data, busy, env1, env2) =>
      FlushKeeps(s, env1);
      var (roomy, status) := MakeRoom(s, data, env1);
      if status == Success {
        AppendKeeps(roomy, data);
        AppendLosesNone(roomy, data);
        FlushKeeps(Append(roomy, data), env2);
      }
      ImmediateLosesNone(s, data, env1);
    case DoFlush(env) => FlushKeeps(s, env);
    case Completion(w, env) =>
      if w in s.bufs.tracked {
        CompletionMovesIff(s, w, env);
      } else {
        UnknownIgnored(s, w, env);
      }
    case ErrorCompletion(w) => ErrorKeeps(s, w);
    case SetConnected(c) => ConnectionLosesNone(s, c);
  }

  lemma UnknownIgnored(s: Loop, w: nat, env: Env)
    requires w !in s.bufs.tracked
    ensures OnCompletion(s, w, env) == s
  {
  }

  lemma ConnectionLosesNone(s: Loop, connected: bool)
    ensures Lost(s.(connected := connected)) == Lost(s)
  {
  }

  /** A lost send is never made good: its count stays, over every run. */
  lemma {:induction false} LostForever(s: Loop, ops: seq<Op>)
    requires Inv(s)
    ensures var t := Run(s, ops); Inv(t) && t.ongoing >= Lost(t) >= Lost(s)
  {
    hide Partition, Leaked, Step;
    if ops == [] {
    } else {
      var init, last := ops[..|ops| - 1], ops[|ops| - 1];
      LostForever(s, init);
      StepKeeps(Run(s, init), last);
      StepLosesNone(Run(s, init), last);
    }
  }

  /** After a loss the idle trigger never fires again: from then on, over every run, no completion
      flushes, and a message aggregated below the threshold with room to spare only waits. */
  lemma IdleTriggerDead(s: Loop, ops: seq<Op>, w: nat, data: Payload, env: Env)
    requires Inv(s) && Lost(s) > 0
    ensures var t := Run(s, ops);
      && OnCompletion(t, w, env).log == t.log && OnCompletion(t, w, env).pending == t.pending
      && (CMD_HEADER_SIZE + t.pendingSize + APP_HEADER_SIZE + |data| <= t.cfg.sendThreshold && !Overflows(t, data)
          ==> AggregateSend(t, data, env, env) == (Append(t, data), Success))
  {
    hide Partition, Leaked, Lost, Flush;
    LostForever(s, ops);
    var t := Run(s, ops);
    if w in t.bufs.tracked {
      CompletionMovesIff(t, w, env);
    }
  }

  /** A batch waiting with nothing tracked stays: no completion, genuine or stray, moves it. */
  lemma {:induction false} StrandedForever(s: Loop, ops: seq<Op>)
    requires s.bufs.tracked == map[]
    requires forall op | op in ops :: op.Completion? || op.ErrorCompletion?
    ensures Run(s, ops) == s
  {
    if ops == [] {
    } else {
      var last := ops[|ops| - 1];
      StrandedForever(s, ops[..|ops| - 1]);
      assert last in ops && Step(s, last) == s;
    }
  }

  lemma RunSnoc(s: Loop, ops: seq<Op>, op: Op)
    ensures Run(s, ops + [op]) == Step(Run(s, ops), op) && Run(s, []) == s && Run(s, [op]) == Step(s, op)
  {
    assert (ops + [op])[..|ops|] == ops && [op][..0] == [];
  }

  /** A single rejected post is enough to lose a send. */
  lemma RejectedPostLoses(b: Buffer, data: Payload, env: Env, cfg: Config)
    requires !env.accepts && BatchBytes([data]) <= cfg.bufferLength
    ensures var s := Run(Start(cfg, [b]), [DoSend(data, false, env, env)]);
      && Lost(s) == 1 && s.bufs.tracked == map[] && s.pending == [] && s.pendingSize == 0 && Inv(s)
      && s.cfg == cfg && |s.bufs.free| == 1
  {
    hide Launch, Leaked;
    var start := Start(cfg, [b]);
    RunSnoc(start, [], DoSend(data, false, env, env));
    RunKeeps(cfg, [b], []);
    RunKeeps(cfg, [b], [DoSend(data, false, env, env)]);
    LostAtStart(cfg, [b]);
    OneMessageBytes(data);
    LaunchKeeps(start, [data], false, env);
    RejectedReturns(start, [data], false, env);
  }

  /** A rejected post puts its buffer at the end of the free list. */
  lemma RejectedReturns(s: Loop, ms: seq<Payload>, batch: bool, env: Env)
    requires Accounted(s) && s.bufs.free != [] && s.connected && !env.accepts
    ensures Launch(s, ms, batch, env).0.bufs.free == s.bufs.free[1..] + [s.bufs.free[0]]
  {
    hide Packed, Leaked, Lost, Distinct;
  }

  /** Concrete run: after one rejected post, a small aggregated message is accepted and waits, with
      nothing tracked and the only buffer free. */
  lemma StrandingRun(b: Buffer, x: Payload, a: Payload, reject: Env, env: Env, cfg: Config)
    requires cfg.enableAggregate && !reject.accepts
    requires BatchBytes([x]) <= cfg.bufferLength && BatchBytes([a]) <= cfg.sendThreshold
    ensures var s := Run(Start(cfg, [b]), [DoSend(x, false, reject, reject), DoSend(a, true, env, env)]);
      s.pending == [a] && s.bufs.tracked == map[] && s.bufs.free == [b] && Lost(s) == 1
  {
    hide Launch, Leaked, Step;
    var first, second := DoSend(x, false, reject, reject), DoSend(a, true, env, env);
    var s := Run(Start(cfg, [b]), [first]);
    RejectedPostLoses(b, x, reject, cfg);
    RunKeeps(cfg, [b], [first]);
    assert s.bufs.free[0] in s.bufs.all;
    assert [first] + [second] == [first, second];
    RunSnoc(Start(cfg, [b]), [first], second);
    OneMessageBytes(a);
    StrandedAtOnceIff(s, a, env);
    AggregatesWhenBusy(s, a, env);
    AppendLosesNone(s, a);
  }

  lemma AggregatesWhenBusy(s: Loop, data: Payload, env: Env)
    requires s.cfg.enableAggregate
    ensures Step(s, DoSend(data, true, env, env)) == AggregateSend(s, data, env, env).0
  {
  }

  lemma AppendLosesNone(s: Loop, data: Payload)
    ensures Lost(Append(s, data)) == Lost(s)
  {
  }

  lemma ImmediateLosesNone(s: Loop, data: Payload, env: Env)
    requires Inv(s)
    ensures Lost(ImmediateSend(s, data, env).0) >= Lost(s)
  {
    hide Partition, Launch, Leaked;
    if s.bufs.free != [] {
      LaunchKeeps(s, [data], false, env);
    }
  }

  lemma LostAtStart(cfg: Config, all: seq<Buffer>)
    ensures Lost(Start(cfg, all)) == 0
  {
  }

  // ---------------------------------------------------------------- quiescence

  /** Completions left before the loop is at rest. */
  ghost function Remaining(s: Loop): nat
  {
    |s.bufs.tracked| + (if s.pending != [] then 1 else 0)
  }

  /** Successful completions of tracked sends, in any order, with accepted posts. */
  ghost predicate Deliverable(s: Loop, ops: seq<Op>)
  {
    ops != [] ==>
      var init, last := ops[..|ops| - 1], ops[|ops| - 1];
      Deliverable(s, init) && last.Completion? && last.env.accepts && last.wrid in Run(s, init).bufs.tracked
  }

  lemma DrainStep(s: Loop, w: nat, env: Env)
    requires Inv(s) && Lost(s) == 0 && s.connected && env.accepts && w in s.bufs.tracked
    ensures var t := OnCompletion(s, w, env);
      Inv(t) && Lost(t) == 0 && t.connected && Remaining(t) == Remaining(s) - 1
  {
    hide Partition, Launch, Leaked;
    ReleasePartition(s.bufs, Leaked(s.log), w);
    FlushKeeps(s.(bufs := s.bufs.Release(w), ongoing := s.ongoing - 1), env);
    CompletionKeeps(s, w, env);
  }

  /** From any state of a clean run, with k sends tracked, delivering their completions in any order
      ends after exactly k of them, or k + 1 if a batch was waiting: until then some send is
      tracked, and then nothing waits and every buffer is free, once. */
  lemma {:induction false} Quiescence(s: Loop, ops: seq<Op>)
    requires Inv(s) && Lost(s) == 0 && s.connected && Deliverable(s, ops)
    ensures var t := Run(s, ops);
      && Inv(t) && Lost(t) == 0 && t.connected
      && |ops| <= Remaining(s) && Remaining(t) == Remaining(s) - |ops|
      && (t.bufs.tracked == map[] <==> |ops| == Remaining(s))
      && (t.bufs.tracked == map[] ==>
            t.pending == [] && Distinct(t.bufs.free) && Elements(t.bufs.free) == Elements(t.bufs.all))
  {
    var t := Run(s, ops);
    if ops == [] {
    } else {
      var init, last := ops[..|ops| - 1], ops[|ops| - 1];
      Quiescence(s, init);
      DrainStep(Run(s, init), last.wrid, last.env);
    }
    if t.bufs.tracked == map[] {
      AllFree(t);
    }
  }

  lemma AllFree(t: Loop)
    requires Inv(t) && Lost(t) == 0 && t.bufs.tracked == map[]
    ensures t.pending == [] && Distinct(t.bufs.free) && Elements(t.bufs.free) == Elements(t.bufs.all)
  {
    PartitionCovers(t.bufs, Leaked(t.log));
  }
}
