/** A goroutine that is not disturbed does what the sequential code does: run alone until it is idle, each
    operation of the interleaving model of `AggregatorRace` has the effect of its function in
    `SendLoopSpec`, with every flush decision the same. */
module RaceRefinement {
  import opened Wire
  import opened AggregatorRace
  import S = SendLoopSpec
  import P = SendLoopProofs
  import U = SendLoopStatus

  /** What both models have: pending messages, counted sends, free buffers, and the batches handed over. */
  datatype View = View(pending: seq<Payload>, ongoing: int, free: nat, batches: seq<seq<Payload>>)

  function RaceView(s: State): View
  {
    View(s.pending, s.ongoing, s.free, s.batches)
  }

  function BatchesOf(log: seq<S.Attempt>): seq<seq<Payload>>
  {
    if log == [] then []
    else
      var last := log[|log| - 1];
      BatchesOf(log[..|log| - 1]) + (if last.batch then [last.messages] else [])
  }

  function SeqView(l: S.Loop): View
  {
    View(l.pending, l.ongoing, |l.bufs.free|, BatchesOf(l.log))
  }

  /** The two models agree, and the connection and the device of the sequential one give no trouble. */
  ghost predicate Matches(s: State, l: S.Loop)
  {
    && RaceView(s) == SeqView(l) && P.Inv(l) && l.connected
    && s.cfg.bufferLength == l.cfg.bufferLength && s.cfg.bufferSize == l.cfg.bufferSize
    && s.cfg.sendThreshold == l.cfg.sendThreshold
  }

  // ---------------------------------------------------------------- the common effect

  /** A flush: all that is pending goes out as one batch if a buffer is free. */
  function Flushed(v: View): View
  {
    if v.pending == [] || v.free == 0 then v
    else View([], v.ongoing + 1, v.free - 1, v.batches + [v.pending])
  }

  ghost predicate Overfull(v: View, bufferSize: nat, m: Payload)
  {
    v.pending != [] && BatchBytes(v.pending) + APP_HEADER_SIZE + |m| > bufferSize
  }

  ghost function Added(v: View, threshold: nat, m: Payload): View
  {
    var w := v.(pending := v.pending + [m]);
    if BatchBytes(w.pending) > threshold || w.ongoing == 0 then Flushed(w) else w
  }

  /** An aggregated send, turned away if its overflow flush finds no buffer. */
  ghost function Aggregated(v: View, bufferSize: nat, threshold: nat, m: Payload): View
  {
    if !Overfull(v, bufferSize, m) then Added(v, threshold, m)
    else if v.free == 0 then v
    else Added(Flushed(v), threshold, m)
  }

  // ---------------------------------------------------------------- the sequential side

  lemma BatchesSnoc(before: seq<S.Attempt>, after: seq<S.Attempt>)
    requires |after| == |before| + 1 && after[..|before|] == before
    ensures BatchesOf(after) == BatchesOf(before) + (if after[|before|].batch then [after[|before|].messages] else [])
  {
  }

  lemma FreeAfterLaunch(l: S.Loop, ms: seq<Payload>, batch: bool, env: S.Env)
    requires l.bufs.free != [] && l.connected && env.accepts
    ensures |S.Launch(l, ms, batch, env).0.bufs.free| == |l.bufs.free| - 1
  {
  }

  lemma SeqFlush(l: S.Loop, env: S.Env)
    requires P.Accounted(l) && l.connected && env.accepts
    ensures SeqView(S.Flush(l, env).0) == Flushed(SeqView(l))
  {
    hide P.Partition, S.Leaked, S.Launch, BatchesOf;
    P.FlushKeeps(l, env);
    if l.pending != [] && l.bufs.free != [] {
      var emptied := l.(pending := [], pendingSize := 0);
      P.LaunchKeeps(emptied, l.pending, true, env);
      FreeAfterLaunch(emptied, l.pending, true, env);
      BatchesSnoc(l.log, S.Flush(l, env).0.log);
    }
  }

  lemma SeqAdd(l: S.Loop, m: Payload, env: S.Env)
    requires P.Accounted(l) && l.connected && env.accepts
    ensures var w := S.Append(l, m);
      && P.Accounted(w)
      && SeqView(if S.FlushDue(w) then S.Flush(w, env).0 else w) == Added(SeqView(l), l.cfg.sendThreshold, m)
  {
    hide P.Accounted, S.Flush, BatchesOf, S.FlushDue;
    P.AppendKeeps(l, m);
    U.AddedMessage(l, m);
    SeqFlush(S.Append(l, m), env);
  }

  lemma SeqAggregate(l: S.Loop, m: Payload, env1: S.Env, env2: S.Env)
    requires P.Inv(l) && l.connected && env1.accepts && env2.accepts
    ensures SeqView(S.AggregateSend(l, m, env1, env2).0)
         == Aggregated(SeqView(l), l.cfg.bufferSize, l.cfg.sendThreshold, m)
    ensures S.MakeRoom(l, m, env1).1 == S.Success <==>
      !(Overfull(SeqView(l), l.cfg.bufferSize, m) && l.bufs.free == [])
  {
    hide P.Accounted, S.Flush, S.MakeRoom, S.FlushDue, S.Append, BatchesOf, Added;
    U.RoomStatus(l, m, env1);
    var (roomy, status) := S.MakeRoom(l, m, env1);
    RoomFlushes(l, m, env1);
    SeqFlush(l, env1);
    if status == S.Success {
      SeqAdd(roomy, m, env2);
    }
  }

  lemma RoomFlushes(l: S.Loop, m: Payload, env: S.Env)
    requires P.Accounted(l)
    ensures S.MakeRoom(l, m, env).0 ==
      if Overfull(SeqView(l), l.cfg.bufferSize, m) then S.Flush(l, env).0 else l
  {
    hide P.Partition, S.Flush, BatchesOf;
    if l.pending != [] {
      assert FramedSize(l.pending) > 0;
    }
  }

  // ---------------------------------------------------------------- the goroutine alone

  /** At most `n` steps of goroutine `t`, until it is idle. */
  function Alone(s: State, t: Tid, n: nat): State
    decreases n
  {
    if n == 0 || t !in s.threads || s.threads[t] == Idle then s
    else Alone(Step(s, t, StartFlush), t, n - 1)
  }

  ghost predicate Leads(s: State, t: Tid, r: State)
  {
    exists n: nat :: Alone(s, t, n) == r
  }

  lemma Here(s: State, t: Tid)
    ensures Leads(s, t, s)
  {
    assert Alone(s, t, 0) == s;
  }

  /** One step first. */
  lemma StepLeads(s: State, t: Tid, r: State)
    requires t in s.threads && s.threads[t] != Idle && Leads(Step(s, t, StartFlush), t, r)
    ensures Leads(s, t, r)
  {
    var n: nat :| Alone(Step(s, t, StartFlush), t, n) == r;
    assert Alone(s, t, n + 1) == r;
  }

  /** Where a goroutine that runs alone ends is determined: being idle, it does not move on. */
  lemma {:induction false} IdleIsFinal(s: State, t: Tid, n: nat, m: nat)
    requires n <= m && (t in Alone(s, t, n).threads ==> Alone(s, t, n).threads[t] == Idle)
    ensures Alone(s, t, m) == Alone(s, t, n)
    decreases n
  {
    hide Step;
    if n == 0 || t !in s.threads || s.threads[t] == Idle {
    } else {
      IdleIsFinal(Step(s, t, StartFlush), t, n - 1, m - 1);
    }
  }

  /** The state with `t` at `pc` and the view `v`. */
  function Moved(s: State, t: Tid, pc: Pc, lock: Lock, v: View): State
    requires |v.batches| >= |s.batches|
  {
    s.(threads := s.threads[t := pc], lock := lock, pending := v.pending, ongoing := v.ongoing, free := v.free,
       batches := v.batches, posted := s.posted + |v.batches| - |s.batches|)
  }

  lemma Unlocks(s: State, t: Tid)
    requires t in s.threads && s.threads[t] == Unlocking
    ensures Leads(s, t, Moved(s, t, Idle, Unlocked, RaceView(s)))
  {
    hide Leads;
    var r := Moved(s, t, Idle, Unlocked, RaceView(s));
    assert Step(s, t, StartFlush) == r;
    Here(r, t);
    StepLeads(s, t, r);
  }

  /** A flush inside the lock, up to where it goes on: if no buffer was free it gives up. */
  lemma FlushLeads(s: State, t: Tid, k: After, r: State)
    requires t in s.threads && s.threads[t] == Taking(k) && s.lock == HeldBy(t)
    requires var gaveUp := s.pending != [] && s.free == 0;
      Leads(Moved(s, t, if gaveUp then Unlocking else Resume(k), s.lock, Flushed(RaceView(s))), t, r)
    ensures Leads(s, t, r)
  {
    hide Leads;
    var s1 := Step(s, t, StartFlush);
    if s.pending == [] {
      assert s1 == Moved(s, t, Resume(k), s.lock, Flushed(RaceView(s)));
    } else {
      AcquireLeads(s1, s, t, k, r);
    }
    StepLeads(s, t, r);
  }

  lemma AcquireLeads(s1: State, s: State, t: Tid, k: After, r: State)
    requires t in s.threads && s.threads[t] == Taking(k) && s.lock == HeldBy(t) && s.pending != []
    requires s1 == Goto(s, t, Acquiring(k, s.pending)).(pending := [])
    requires Leads(Moved(s, t, if s.free == 0 then Unlocking else Resume(k), s.lock, Flushed(RaceView(s))), t, r)
    ensures Leads(s1, t, r)
  {
    hide Leads;
    var s2 := Step(s1, t, StartFlush);
    if s.free == 0 {
      assert s2 == Moved(s, t, Unlocking, s.lock, Flushed(RaceView(s)));
    } else {
      var s3 := Step(s2, t, StartFlush);
      assert Step(s3, t, StartFlush) == Moved(s, t, Resume(k), s.lock, Flushed(RaceView(s)));
      StepLeads(s3, t, r);
      StepLeads(s2, t, r);
    }
    StepLeads(s1, t, r);
  }

  /** A flush at the end of an operation. */
  lemma LastFlush(s: State, t: Tid)
    requires t in s.threads && s.threads[t] == Taking(ThenUnlock) && s.lock == HeldBy(t)
    ensures Leads(s, t, Moved(s, t, Idle, Unlocked, Flushed(RaceView(s))))
  {
    hide Leads;
    var m := Moved(s, t, Unlocking, s.lock, Flushed(RaceView(s)));
    Unlocks(m, t);
    assert Moved(m, t, Idle, Unlocked, RaceView(m)) == Moved(s, t, Idle, Unlocked, Flushed(RaceView(s)));
    FlushLeads(s, t, ThenUnlock, Moved(s, t, Idle, Unlocked, Flushed(RaceView(s))));
  }

  /** From where the message is added. */
  lemma AppendLeads(s: State, t: Tid, m: Payload)
    requires t in s.threads && s.threads[t] == Appending(m) && s.lock == HeldBy(t)
    ensures var v := Added(RaceView(s), s.cfg.sendThreshold, m);
      && |v.batches| >= |s.batches|
      && Leads(s, t, Moved(s, t, Idle, Unlocked, v).(accepted := s.accepted + [m]))
  {
    hide Leads, FramedSize;
    var v := Added(RaceView(s), s.cfg.sendThreshold, m);
    var r := Moved(s, t, Idle, Unlocked, v).(accepted := s.accepted + [m]);
    var s1 := Step(s, t, StartFlush);
    if BatchBytes(s.pending + [m]) > s.cfg.sendThreshold {
      LastFlush(s1, t);
      assert Moved(s1, t, Idle, Unlocked, Flushed(RaceView(s1))) == r;
    } else {
      var s2 := Step(s1, t, StartFlush);
      if s.ongoing == 0 {
        LastFlush(s2, t);
        assert Moved(s2, t, Idle, Unlocked, Flushed(RaceView(s2))) == r;
      } else {
        Unlocks(s2, t);
        assert Moved(s2, t, Idle, Unlocked, RaceView(s2)) == r;
      }
      StepLeads(s1, t, r);
    }
    StepLeads(s, t, r);
  }

  // ---------------------------------------------------------------- refinement

  /** `aggregateSend`: overflow, threshold and idle triggers fire exactly when the sequential ones do, and
      the message is accepted exactly when it is there. */
  lemma AggregateAlone(s: State, t: Tid, m: Payload, l: S.Loop, env1: S.Env, env2: S.Env) returns (r: State)
    requires t in s.threads && s.threads[t] == WantAppend(m) && s.lock == Unlocked
    requires Matches(s, l) && env1.accepts && env2.accepts
    ensures Leads(s, t, r) && r.threads == s.threads[t := Idle] && r.lock == Unlocked
    ensures RaceView(r) == SeqView(S.AggregateSend(l, m, env1, env2).0)
    ensures r.posted - s.posted == |r.batches| - |s.batches|
    ensures r.accepted == s.accepted + (if S.MakeRoom(l, m, env1).1 == S.Success then [m] else [])
  {
    hide Leads, FramedSize, P.Inv, S.AggregateSend, S.MakeRoom, BatchesOf, Added;
    SeqAggregate(l, m, env1, env2);
    var s1 := Step(s, t, StartFlush);
    var s2 := Step(s1, t, StartFlush);
    if !Overfull(RaceView(s), s.cfg.bufferSize, m) {
      AppendLeads(s2, t, m);
      r := Moved(s2, t, Idle, Unlocked, Added(RaceView(s2), s.cfg.sendThreshold, m)).(accepted := s.accepted + [m]);
    } else {
      var f := Moved(s2, t, if s.free == 0 then Unlocking else Appending(m), s2.lock, Flushed(RaceView(s2)));
      if s.free == 0 {
        Unlocks(f, t);
        r := Moved(f, t, Idle, Unlocked, RaceView(f));
      } else {
        AppendLeads(f, t, m);
        r := Moved(f, t, Idle, Unlocked, Added(RaceView(f), s.cfg.sendThreshold, m)).(accepted := s.accepted + [m]);
      }
      FlushLeads(s2, t, ThenAppend(m), r);
    }
    StepLeads(s1, t, r);
    StepLeads(s, t, r);
  }

  /** `Flush` takes whatever is pending. */
  lemma FlushAlone(s: State, t: Tid, l: S.Loop, env: S.Env) returns (r: State)
    requires t in s.threads && s.threads[t] == WantFlush && s.lock == Unlocked
    requires Matches(s, l) && env.accepts
    ensures Leads(s, t, r) && r.threads == s.threads[t := Idle] && r.lock == Unlocked
    ensures RaceView(r) == SeqView(S.Flush(l, env).0) && r.accepted == s.accepted
    ensures r.posted - s.posted == |r.batches| - |s.batches|
  {
    hide Leads, P.Accounted, S.Flush, BatchesOf;
    SeqFlush(l, env);
    var s1 := Step(s, t, StartFlush);
    LastFlush(s1, t);
    r := Moved(s1, t, Idle, Unlocked, Flushed(RaceView(s1)));
    StepLeads(s, t, r);
  }

  /** A completion: the buffer goes back, the count goes down, and reaching zero flushes. */
  lemma CompletionAlone(s: State, t: Tid, w: nat, l: S.Loop, env: S.Env) returns (r: State)
    requires t in s.threads && s.threads[t] == Releasing && s.lock == Unlocked
    requires Matches(s, l) && env.accepts && w in l.bufs.tracked
    ensures Leads(s, t, r) && r.threads == s.threads[t := Idle] && r.lock == Unlocked
    ensures RaceView(r) == SeqView(S.OnCompletion(l, w, env)) && r.accepted == s.accepted
  {
    hide Leads, P.Inv, S.OnCompletion, BatchesOf;
    SeqCompletion(l, w, env);
    var s1 := Step(s, t, StartFlush);
    var s2 := Step(s1, t, StartFlush);
    if s.ongoing - 1 == 0 {
      var s3 := Step(s2, t, StartFlush);
      var s4 := Step(s3, t, StartFlush);
      if s.pending != [] {
        LastFlush(s4, t);
        r := Moved(s4, t, Idle, Unlocked, Flushed(RaceView(s4)));
      } else {
        Unlocks(s4, t);
        r := Moved(s4, t, Idle, Unlocked, RaceView(s4));
      }
      StepLeads(s3, t, r);
      StepLeads(s2, t, r);
    } else {
      r := s2;
      Here(s2, t);
    }
    StepLeads(s1, t, r);
    StepLeads(s, t, r);
  }

  lemma SeqCompletion(l: S.Loop, w: nat, env: S.Env)
    requires P.Inv(l) && w in l.bufs.tracked && l.connected && env.accepts
    ensures var v := SeqView(l);
      var counted := v.(free := v.free + 1, ongoing := v.ongoing - 1);
      SeqView(S.OnCompletion(l, w, env)) == if counted.ongoing == 0 then Flushed(counted) else counted
  {
    hide P.Partition, S.Leaked, S.Flush, BatchesOf;
    P.ReleasePartition(l.bufs, S.Leaked(l.log), w);
    SeqFlush(l.(bufs := l.bufs.Release(w), ongoing := l.ongoing - 1), env);
  }

  /** `immediateSend`: one buffer and one counted send if there is a buffer and the message fits. */
  lemma ImmediateAlone(s: State, t: Tid, m: Payload, l: S.Loop, env: S.Env) returns (r: State)
    requires t in s.threads && s.threads[t] == SingleAcquiring(m) && Matches(s, l) && env.accepts
    ensures Leads(s, t, r) && r.threads == s.threads[t := Idle] && r.lock == s.lock
    ensures RaceView(r) == SeqView(S.ImmediateSend(l, m, env).0) && r.accepted == s.accepted
    ensures r.posted == s.posted + (if S.ImmediateSend(l, m, env).1 == S.Success then 1 else 0)
  {
    hide Leads, P.Inv, S.ImmediateSend, BatchesOf;
    SeqImmediate(l, m, env);
    var s1 := Step(s, t, StartFlush);
    r := s1;
    if s.free == 0 {
      Here(s1, t);
    } else {
      var s2 := Step(s1, t, StartFlush);
      r := s2;
      if Oversize(s.cfg, m) {
        Here(s2, t);
      } else {
        var s3 := Step(s2, t, StartFlush);
        r := Step(s3, t, StartFlush);
        Here(r, t);
        StepLeads(s3, t, r);
        StepLeads(s2, t, r);
      }
      StepLeads(s1, t, r);
    }
    StepLeads(s, t, r);
  }

  lemma SeqImmediate(l: S.Loop, m: Payload, env: S.Env)
    requires P.Inv(l) && l.connected && env.accepts
    ensures var (v, status) := (SeqView(l), S.ImmediateSend(l, m, env).1);
      && SeqView(S.ImmediateSend(l, m, env).0) ==
           (if status == S.Success then v.(ongoing := v.ongoing + 1, free := v.free - 1) else v)
      && (status == S.Success <==>
            v.free > 0 && CMD_HEADER_SIZE + APP_HEADER_SIZE + |m| <= l.cfg.bufferLength)
  {
    hide P.Partition, S.Leaked, S.Launch, BatchesOf;
    if l.bufs.free != [] {
      P.AcquirePartition(l.bufs, S.Leaked(l.log));
      P.CompletePartition(l.bufs.Acquire(), S.Leaked(l.log), l.bufs.free[0]);
      P.LaunchKeeps(l, [m], false, env);
      FreeAfterLaunch(l, [m], false, env);
      BatchesSnoc(l.log, S.Launch(l, [m], false, env).0.log);
    }
  }
}
