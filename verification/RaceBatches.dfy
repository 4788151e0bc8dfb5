/** The size triggers of the aggregator under concurrency: over every schedule, what a batch may hold. */
module RaceBatches {
  import opened Wire
  import opened AggregatorRace

  /** A batch of more than one message keeps to the aggregator's buffer: only a message that alone is too
      long makes a longer one. */
  ghost predicate BatchFits(cfg: Config, ms: seq<Payload>)
  {
    |ms| > 1 ==> BatchBytes(ms) <= cfg.bufferSize
  }

  /** The goroutine about to append has room for its message, or an empty batch. */
  ghost predicate HasRoom(s: State)
  {
    s.lock.HeldBy? && s.lock.owner in s.threads && s.threads[s.lock.owner].Appending? && s.pending != [] ==>
      BatchBytes(s.pending) + APP_HEADER_SIZE + |s.threads[s.lock.owner].m| <= s.cfg.bufferSize
  }

  ghost predicate PostedFit(s: State)
  {
    forall i | 0 <= i < |s.batches| :: BatchFits(s.cfg, s.batches[i])
  }

  ghost predicate Sized(s: State)
  {
    PostedFit(s) && BatchFits(s.cfg, InHand(s)) && BatchFits(s.cfg, s.pending) && HasRoom(s)
  }

  lemma AppendedSize(ms: seq<Payload>, m: Payload)
    ensures BatchBytes(ms + [m]) == BatchBytes(ms) + APP_HEADER_SIZE + |m|
  {
    FramedSizeConcat(ms, [m]);
    assert FramedSize([m]) == APP_HEADER_SIZE + |m| + FramedSize([]);
  }

  lemma InsideSized(s: State, t: Tid)
    requires Safe(s) && Sized(s) && t in s.threads && InLock(s.threads[t])
    ensures Sized(StepInside(s, t))
  {
    hide FramedSize, Accounting, Flatten;
    assert s.lock == HeldBy(t);
    match s.threads[t]
    case Appending(m) => AppendedSize(s.pending, m);
    case Posting(_, hand) => assert InHand(s) == hand;
    case _ =>
  }

  lemma OutsideSized(s: State, t: Tid, start: Start)
    requires Safe(s) && Sized(s) && t in s.threads && !InLock(s.threads[t])
    ensures Sized(StepOutside(s, t, start))
  {
    hide FramedSize, Accounting, Flatten, Oversize;
    assert s.lock != HeldBy(t);
  }

  lemma {:induction false} RunSized(cfg: Config, tids: set<Tid>, sched: Schedule)
    requires cfg.buffers > 0
    ensures Sized(Run(Initial(cfg, tids), sched))
  {
    hide Safe, StepInside, StepOutside, Sized;
    if sched == [] {
      StartSized(cfg, tids);
    } else {
      var init, last := sched[..|sched| - 1], sched[|sched| - 1];
      var s := Run(Initial(cfg, tids), init);
      RunSized(cfg, tids, init);
      RunSafe(cfg, tids, init);
      if last.0 in s.threads {
        if InLock(s.threads[last.0]) {
          InsideSized(s, last.0);
        } else {
          OutsideSized(s, last.0, last.1);
        }
      }
    }
  }

  lemma StartSized(cfg: Config, tids: set<Tid>)
    ensures Sized(Initial(cfg, tids))
  {
  }

  /** Over every schedule: each batch that was posted, is in some goroutine's hand, or is pending, and has
      more than one message, takes at most `bufferSize` bytes. */
  lemma BatchesKeepToBuffer(cfg: Config, tids: set<Tid>, sched: Schedule)
    requires cfg.buffers > 0
    ensures var s := Run(Initial(cfg, tids), sched);
      && (forall i | 0 <= i < |s.batches| && |s.batches[i]| > 1 :: BatchBytes(s.batches[i]) <= cfg.bufferSize)
      && (forall t | t in s.threads && |Hand(s.threads[t])| > 1 :: BatchBytes(Hand(s.threads[t])) <= cfg.bufferSize)
      && (|s.pending| > 1 ==> BatchBytes(s.pending) <= cfg.bufferSize)
  {
    hide Accounting, FramedSize, Run;
    RunSized(cfg, tids, sched);
    RunSafe(cfg, tids, sched);
    var s := Run(Initial(cfg, tids), sched);
    forall t | t in s.threads && |Hand(s.threads[t])| > 1 ensures Hand(s.threads[t]) == InHand(s) {
      assert InLock(s.threads[t]);
    }
  }

  // ---------------------------------------------------------------- the threshold

  /** What is pending is within the threshold, unless the goroutine in the lock is about to flush it. */
  ghost predicate Within(s: State)
  {
    s.pending == [] || BatchBytes(s.pending) <= s.cfg.sendThreshold
    || (s.lock.HeldBy? && s.lock.owner in s.threads && s.threads[s.lock.owner].Taking?)
  }

  lemma InsideWithin(s: State, t: Tid)
    requires Safe(s) && Within(s) && t in s.threads && InLock(s.threads[t]) && !Exhausted(s, t)
    ensures Within(StepInside(s, t))
  {
    hide FramedSize, Accounting, Flatten;
    assert s.lock == HeldBy(t);
  }

  lemma OutsideWithin(s: State, t: Tid, start: Start)
    requires Safe(s) && Within(s) && t in s.threads && !InLock(s.threads[t])
    ensures Within(StepOutside(s, t, start))
  {
    hide FramedSize, Accounting, Flatten, Oversize;
    assert s.lock != HeldBy(t);
  }

  lemma {:induction false} RunWithin(cfg: Config, tids: set<Tid>, sched: Schedule)
    requires cfg.buffers > 0 && NeverExhausted(cfg, tids, sched)
    ensures Within(Run(Initial(cfg, tids), sched))
  {
    hide Safe, StepInside, StepOutside, Within, Exhausted;
    if sched == [] {
      StartWithin(cfg, tids);
    } else {
      var init, last := sched[..|sched| - 1], sched[|sched| - 1];
      assert forall i | 0 <= i < |init| :: init[..i] == sched[..i];
      var s := Run(Initial(cfg, tids), init);
      RunWithin(cfg, tids, init);
      RunSafe(cfg, tids, init);
      assert !Exhausted(Run(Initial(cfg, tids), sched[..|init|]), last.0);
      if last.0 in s.threads {
        if InLock(s.threads[last.0]) {
          InsideWithin(s, last.0);
        } else {
          OutsideWithin(s, last.0, last.1);
        }
      }
    }
  }

  lemma StartWithin(cfg: Config, tids: set<Tid>)
    ensures Within(Initial(cfg, tids))
  {
  }

  /** Over every schedule in which flushes find buffers: whenever the lock is free, what is pending is
      within the threshold. */
  lemma PendingWithinThreshold(cfg: Config, tids: set<Tid>, sched: Schedule)
    requires cfg.buffers > 0 && NeverExhausted(cfg, tids, sched)
    ensures var s := Run(Initial(cfg, tids), sched);
      s.lock == Unlocked ==> s.pending == [] || BatchBytes(s.pending) <= cfg.sendThreshold
  {
    hide Run;
    RunWithin(cfg, tids, sched);
    RunSafe(cfg, tids, sched);
  }
}
