/** The aggregator under concurrency (pkg/message/aggregator.go, pkg/cq/dispatcher.go): any number of
    goroutines send, flush and complete, interleaved at the granularity of the mutex `mu`, the
    atomic `ongoingSends`, the buffer pool and the device.

    The idle trigger reads `ongoingSends` outside the mutex that protects `pending`, and a completion
    decrements it before asking for the mutex. The question is whether a batch can be left with
    nobody to flush it. Posts and completions succeed here; acquiring a buffer may fail. */
module AggregatorRace {
  import opened Wire

  type Tid = nat

  datatype Config = Config(buffers: nat, bufferLength: nat, bufferSize: nat, sendThreshold: nat)

  /** What a flush inside `mu` goes on with: appending the message whose overflow check caused it, or
      releasing the lock. */
  datatype After = ThenAppend(m: Payload) | ThenUnlock

  /** Where a goroutine is. `Checking` to `Unlocking` are inside `mu`. */
  datatype Pc =
    | Idle
    // aggregateSend, Flush, and the tail of OnSendComplete before Lock
    | WantAppend(m: Payload)
    | WantFlush
    | WantIdleFlush                       // OnSendComplete saw its decrement reach zero
    // inside mu
    | Checking(m: Payload)                // overflow check
    | Appending(m: Payload)
    | Loading                             // about to read ongoingSends
    | IdleChecking                        // about to look at pending in OnSendComplete
    | Taking(k: After)                    // flushLocked
    | Acquiring(k: After, hand: seq<Payload>)
    | Counting(k: After, hand: seq<Payload>)
    | Posting(k: After, hand: seq<Payload>)
    | Unlocking
    // immediateSend, outside mu
    | SingleAcquiring(m: Payload)
    | SingleChecking(m: Payload)          // size check, holding a buffer
    | SingleCounting(m: Payload)
    | SinglePosting(m: Payload)
    // completion handling, outside mu
    | Releasing                           // WRID untracked, buffer not yet given back
    | Decrementing

  datatype Lock = Unlocked | HeldBy(owner: Tid)

  datatype State = State(
    cfg: Config,
    threads: map<Tid, Pc>,
    lock: Lock,
    pending: seq<Payload>,
    ongoing: int,
    free: nat,                            // buffers in the pool
    posted: nat,                          // sends the device has not completed
    batches: seq<seq<Payload>>,           // history: batches in posting order
    accepted: seq<Payload>)               // history: messages appended, in order

  /** What an idle goroutine starts next. */
  datatype Start = StartAppend(m: Payload) | StartSingle(m: Payload) | StartFlush | StartCompletion

  function Goto(s: State, t: Tid, pc: Pc): State
  {
    s.(threads := s.threads[t := pc])
  }

  function Enter(s: State, t: Tid, pc: Pc): State
  {
    if s.lock == Unlocked then Goto(s, t, pc).(lock := HeldBy(t)) else s
  }

  function Resume(k: After): Pc
  {
    if k.ThenAppend? then Appending(k.m) else Unlocking
  }

  /** One atomic step of a goroutine that is not inside `mu`. */
  function StepOutside(s: State, t: Tid, start: Start): State
    requires t in s.threads && !InLock(s.threads[t])
  {
    match s.threads[t]
    case Idle => (
      match start
      case StartAppend(m) => Goto(s, t, WantAppend(m))
      case StartSingle(m) => Goto(s, t, SingleAcquiring(m))
      case StartFlush => Goto(s, t, WantFlush)
      case StartCompletion => if s.posted == 0 then s else Goto(s, t, Releasing).(posted := s.posted - 1)
    )
    case WantAppend(m) => Enter(s, t, Checking(m))
    case WantFlush => Enter(s, t, Taking(ThenUnlock))
    case WantIdleFlush => Enter(s, t, IdleChecking)
    case SingleAcquiring(m) =>
      if s.free == 0 then Goto(s, t, Idle) else Goto(s, t, SingleChecking(m)).(free := s.free - 1)
    case SingleChecking(m) =>
      if Oversize(s.cfg, m) then Goto(s, t, Idle).(free := s.free + 1) else Goto(s, t, SingleCounting(m))
    case SingleCounting(m) => Goto(s, t, SinglePosting(m)).(ongoing := s.ongoing + 1)
    case SinglePosting(m) => Goto(s, t, Idle).(posted := s.posted + 1)
    case Releasing => Goto(s, t, Decrementing).(free := s.free + 1)
    case Decrementing =>
      Goto(s, t, if s.ongoing - 1 == 0 then WantIdleFlush else Idle).(ongoing := s.ongoing - 1)
  }

  /** One atomic step of the goroutine inside `mu`. */
  function StepInside(s: State, t: Tid): State
    requires t in s.threads && InLock(s.threads[t])
  {
    match s.threads[t]
    case Checking(m) =>
      if s.pending != [] && BatchBytes(s.pending) + APP_HEADER_SIZE + |m| > s.cfg.bufferSize
      then Goto(s, t, Taking(ThenAppend(m))) else Goto(s, t, Appending(m))
    case Appending(m) =>
      var pending := s.pending + [m];
      var next := if BatchBytes(pending) > s.cfg.sendThreshold then Taking(ThenUnlock) else Loading;
      Goto(s, t, next).(pending := pending, accepted := s.accepted + [m])
    case Loading => if s.ongoing == 0 then Goto(s, t, Taking(ThenUnlock)) else Goto(s, t, Unlocking)
    case IdleChecking => if s.pending != [] then Goto(s, t, Taking(ThenUnlock)) else Goto(s, t, Unlocking)
    case Taking(k) =>
      if s.pending == [] then Goto(s, t, Resume(k))
      else Goto(s, t, Acquiring(k, s.pending)).(pending := [])
    case Acquiring(k, hand) =>
      if s.free == 0 then Goto(s, t, Unlocking).(pending := hand)
      else Goto(s, t, Counting(k, hand)).(free := s.free - 1)
    case Counting(k, hand) => Goto(s, t, Posting(k, hand)).(ongoing := s.ongoing + 1)
    case Posting(k, hand) =>
      Goto(s, t, Resume(k)).(posted := s.posted + 1, batches := s.batches + [hand])
    case Unlocking => Goto(s, t, Idle).(lock := Unlocked)
  }

  /** One atomic step of goroutine `t`. A goroutine that cannot move leaves the state as it is. */
  function Step(s: State, t: Tid, start: Start): State
  {
    if t !in s.threads then s
    else if InLock(s.threads[t]) then StepInside(s, t) else StepOutside(s, t, start)
  }

  predicate Oversize(cfg: Config, m: Payload)
  {
    CMD_HEADER_SIZE + APP_HEADER_SIZE + |m| > cfg.bufferLength
  }

  /** A schedule: which goroutine moves, and what it starts if it is idle. */
  type Schedule = seq<(Tid, Start)>

  function Run(s: State, sched: Schedule): State
  {
    if sched == [] then s
    else
      var last := sched[|sched| - 1];
      Step(Run(s, sched[..|sched| - 1]), last.0, last.1)
  }

  function Initial(cfg: Config, tids: set<Tid>): State
  {
    State(cfg, map t | t in tids :: Idle, Unlocked, [], 0, cfg.buffers, 0, [], [])
  }

  // ---------------------------------------------------------------- who is where

  predicate InLock(pc: Pc)
  {
    pc.Checking? || pc.Appending? || pc.Loading? || pc.IdleChecking? || pc.Taking? || pc.Acquiring?
    || pc.Counting? || pc.Posting? || pc.Unlocking?
  }

  /** Holds a buffer that the device does not have. */
  predicate HoldsBuffer(pc: Pc)
  {
    pc.Counting? || pc.Posting? || pc.SingleChecking? || pc.SingleCounting? || pc.SinglePosting? || pc.Releasing?
  }

  /** Its send is counted in `ongoingSends` but is not with the device. */
  predicate HoldsCount(pc: Pc)
  {
    pc.Posting? || pc.SinglePosting? || pc.Releasing? || pc.Decrementing?
  }

  ghost function Those(threads: map<Tid, Pc>, p: Pc -> bool): set<Tid>
  {
    set t | t in threads && p(threads[t])
  }

  function Bit(b: bool): int
  {
    if b then 1 else 0
  }

  lemma ThoseBut(threads: map<Tid, Pc>, t: Tid, p: Pc -> bool, rest: set<Tid>)
    requires t in threads && t !in rest && forall u | u != t :: u in rest <==> u in threads && p(threads[u])
    ensures |Those(threads, p)| == |rest| + Bit(p(threads[t]))
  {
    assert Those(threads, p) == if p(threads[t]) then rest + {t} else rest;
  }

  lemma ThoseAfter(threads: map<Tid, Pc>, t: Tid, pc: Pc, p: Pc -> bool)
    requires t in threads
    ensures |Those(threads[t := pc], p)| == |Those(threads, p)| - Bit(p(threads[t])) + Bit(p(pc))
  {
    var rest := Those(threads, p) - {t};
    ThoseBut(threads, t, p, rest);
    ThoseBut(threads[t := pc], t, p, rest);
  }

  // ---------------------------------------------------------------- invariant

  /** Somebody will still flush: a send is counted, a goroutine saw the count reach zero and is
      waiting for the lock, or an immediate send has a buffer and is about to be counted. */
  ghost predicate FlushComing(s: State)
  {
    s.ongoing > 0 || exists t :: t in s.threads && Promises(s.cfg, s.threads[t])
  }

  predicate Promises(cfg: Config, pc: Pc)
  {
    pc.WantIdleFlush? || pc.SingleCounting? || (pc.SingleChecking? && !Oversize(cfg, pc.m))
  }

  /** Holds a buffer only to find that its message does not fit. */
  predicate HoldsInVain(cfg: Config, pc: Pc)
  {
    pc.SingleChecking? && Oversize(cfg, pc.m)
  }

  /** A flush asks for a buffer when every buffer is held in vain, no send is counted, and nobody
      waits for the lock to flush. */
  ghost predicate Starved(s: State, t: Tid)
  {
    && t in s.threads && s.threads[t].Acquiring? && s.free == 0 && s.ongoing == 0
    && forall h | h in s.threads ::
         !s.threads[h].WantIdleFlush? && (HoldsBuffer(s.threads[h]) ==> HoldsInVain(s.cfg, s.threads[h]))
  }

  ghost predicate MutualExclusion(s: State)
  {
    && (s.lock.HeldBy? ==> s.lock.owner in s.threads && InLock(s.threads[s.lock.owner]))
    && (forall t | t in s.threads && InLock(s.threads[t]) :: s.lock == HeldBy(t))
  }

  /** Every buffer is in the pool, with a goroutine, or with the device; every counted send is with a
      goroutine or with the device. */
  ghost predicate Accounting(s: State)
  {
    && s.free + s.posted + |Those(s.threads, HoldsBuffer)| == s.cfg.buffers > 0
    && s.ongoing == s.posted + |Those(s.threads, HoldsCount)|
  }

  /** The goroutine in the lock relies on others to flush what is pending. */
  predicate Leaves(pc: Pc)
  {
    pc.Checking? || pc.Appending? || pc.Unlocking?
  }

  function Hand(pc: Pc): seq<Payload>
  {
    match pc
    case Acquiring(_, hand) => hand
    case Counting(_, hand) => hand
    case Posting(_, hand) => hand
    case _ => []
  }

  function InHand(s: State): seq<Payload>
  {
    if s.lock.HeldBy? && s.lock.owner in s.threads then Hand(s.threads[s.lock.owner]) else []
  }

  function Flatten(batches: seq<seq<Payload>>): seq<Payload>
  {
    if batches == [] then [] else Flatten(batches[..|batches| - 1]) + batches[|batches| - 1]
  }

  /** A goroutine has taken the pending messages and not yet posted them or put them back. */
  predicate HandFull(pc: Pc)
  {
    pc.Acquiring? || pc.Counting? || pc.Posting?
  }

  /** The messages in order: posted batches, the batch in hand, and what is pending. */
  ghost predicate Ordered(s: State)
  {
    && Flatten(s.batches) + InHand(s) + s.pending == s.accepted
    && (s.lock.HeldBy? && s.lock.owner in s.threads && HandFull(s.threads[s.lock.owner]) ==>
          s.pending == [] && Hand(s.threads[s.lock.owner]) != [])
  }

  ghost predicate NoneStranded(s: State)
  {
    s.pending != [] && (s.lock == Unlocked || (s.lock.owner in s.threads && Leaves(s.threads[s.lock.owner])))
    ==> FlushComing(s)
  }

  /** No goroutine is sending a single message too large for a buffer. */
  ghost predicate SinglesFit(s: State)
  {
    forall t | t in s.threads && (s.threads[t].SingleAcquiring? || s.threads[t].SingleChecking?) ::
      !Oversize(s.cfg, s.threads[t].m)
  }

  ghost predicate Safe(s: State)
  {
    MutualExclusion(s) && Accounting(s) && Ordered(s)
  }

  ghost predicate Inv(s: State)
  {
    Safe(s) && NoneStranded(s)
  }

  // ---------------------------------------------------------------- one step

  /** Only goroutine `t` moves; buffers and counts go between the pool, it and the device; the lock
      follows it in and out of the critical section. */
  ghost predicate Moved(s: State, s': State, t: Tid)
    requires t in s.threads
  {
    && t in s'.threads && s'.threads == s.threads[t := s'.threads[t]] && s'.cfg == s.cfg
    && s'.free + s'.posted + Bit(HoldsBuffer(s'.threads[t])) == s.free + s.posted + Bit(HoldsBuffer(s.threads[t]))
    && s'.ongoing - s'.posted - Bit(HoldsCount(s'.threads[t])) == s.ongoing - s.posted - Bit(HoldsCount(s.threads[t]))
    && (InLock(s'.threads[t]) ==> s'.lock == HeldBy(t) && (s.lock == HeldBy(t) || s.lock == Unlocked))
    && (!InLock(s'.threads[t]) ==> s'.lock == if InLock(s.threads[t]) then Unlocked else s.lock)
  }

  lemma StayingMoves(s: State, t: Tid)
    requires t in s.threads && (InLock(s.threads[t]) ==> s.lock == HeldBy(t))
    ensures Moved(s, s, t)
  {
    assert s.threads == s.threads[t := s.threads[t]];
  }

  lemma OutsideMoves(s: State, t: Tid, start: Start)
    requires t in s.threads && !InLock(s.threads[t])
    ensures Moved(s, StepOutside(s, t, start), t)
  {
    StayingMoves(s, t);
  }

  lemma InsideMoves(s: State, t: Tid)
    requires t in s.threads && InLock(s.threads[t]) && s.lock == HeldBy(t)
    ensures Moved(s, StepInside(s, t), t)
  {
  }

  lemma StepMoves(s: State, t: Tid, start: Start)
    requires t in s.threads && (InLock(s.threads[t]) ==> s.lock == HeldBy(t))
    ensures Moved(s, Step(s, t, start), t)
  {
    hide StepInside, StepOutside;
    if InLock(s.threads[t]) {
      InsideMoves(s, t);
    } else {
      OutsideMoves(s, t, start);
    }
  }

  lemma StepExcludes(s: State, t: Tid, start: Start)
    requires MutualExclusion(s)
    ensures MutualExclusion(Step(s, t, start))
  {
    if t in s.threads {
      hide Step, InLock, HoldsBuffer, HoldsCount;
      StepMoves(s, t, start);
    }
  }

  lemma StepAccounts(s: State, t: Tid, start: Start)
    requires Accounting(s) && MutualExclusion(s)
    ensures Accounting(Step(s, t, start)) && Step(s, t, start).cfg == s.cfg
  {
    if t in s.threads {
      hide Step, HoldsBuffer, HoldsCount, InLock;
      StepMoves(s, t, start);
      ThoseAfter(s.threads, t, Step(s, t, start).threads[t], HoldsBuffer);
      ThoseAfter(s.threads, t, Step(s, t, start).threads[t], HoldsCount);
    }
  }

  lemma FlattenSnoc(batches: seq<seq<Payload>>, b: seq<Payload>)
    ensures Flatten(batches + [b]) == Flatten(batches) + b
  {
    assert (batches + [b])[..|batches|] == batches;
  }

  lemma OutsideOrders(s: State, t: Tid, start: Start)
    requires MutualExclusion(s) && Ordered(s) && t in s.threads && !InLock(s.threads[t])
    ensures Ordered(StepOutside(s, t, start))
  {
    hide Oversize, Flatten;
    assert s.lock != HeldBy(t);
  }

  lemma InsideOrders(s: State, t: Tid)
    requires s.lock == HeldBy(t) && Ordered(s) && t in s.threads && InLock(s.threads[t])
    ensures Ordered(StepInside(s, t))
  {
    hide FramedSize, Flatten;
    var f, hand := Flatten(s.batches), Hand(s.threads[t]);
    assert s.accepted == f + hand + s.pending;
    assert f + [] == f && f + hand + [] == f + hand;
    match s.threads[t]
    case Appending(m) => assert f + (s.pending + [m]) == f + s.pending + [m];
    case Posting(_, _) => FlattenSnoc(s.batches, hand);
    case _ =>
  }

  lemma SomeoneIn(threads: map<Tid, Pc>, p: Pc -> bool) returns (t: Tid)
    requires |Those(threads, p)| > 0
    ensures t in threads && p(threads[t])
  {
    t :| t in Those(threads, p);
  }

  lemma CountedMeansOngoing(s: State, t: Tid)
    requires Accounting(s) && t in s.threads && HoldsCount(s.threads[t])
    ensures s.ongoing > 0
  {
    assert t in Those(s.threads, HoldsCount);
  }

  /** If no buffer is free, whoever has them will cause a flush, unless all are held in vain. */
  lemma ExhaustedMeansComing(s: State, t: Tid)
    requires Accounting(s) && MutualExclusion(s) && s.free == 0
    requires t in s.threads && s.threads[t].Acquiring? && !Starved(s, t)
    ensures FlushComing(s)
  {
    if s.ongoing <= 0 {
      var h :| h in s.threads && (s.threads[h].WantIdleFlush?
                                  || (HoldsBuffer(s.threads[h]) && !HoldsInVain(s.cfg, s.threads[h])));
      assert h != t && !InLock(s.threads[h]);
      if HoldsCount(s.threads[h]) {
        CountedMeansOngoing(s, h);
      } else {
        assert Promises(s.cfg, s.threads[h]);
      }
    }
  }

  /** A goroutine outside the lock keeps a flush coming; only the one that saw zero may stop
      promising, by taking the lock. */
  lemma StepKeepsComing(s: State, t: Tid, start: Start)
    requires Accounting(s) && MutualExclusion(s) && FlushComing(s)
    requires t in s.threads && !(s.threads[t].WantIdleFlush? && s.lock == Unlocked)
    ensures FlushComing(Step(s, t, start))
  {
    hide Oversize;
    var s' := Step(s, t, start);
    StepAccounts(s, t, start);
    StepMoves(s, t, start);
    if s.ongoing > 0 {
      if s'.ongoing <= 0 {
        assert Promises(s'.cfg, s'.threads[t]);
      }
    } else {
      var w :| w in s.threads && Promises(s.cfg, s.threads[w]);
      if w != t {
        assert Promises(s'.cfg, s'.threads[w]);
      } else if s'.ongoing <= 0 {
        assert Promises(s'.cfg, s'.threads[t]);
      }
    }
  }

  lemma OutsideStrandsNone(s: State, t: Tid, start: Start)
    requires Inv(s) && t in s.threads && !InLock(s.threads[t])
    ensures NoneStranded(StepOutside(s, t, start))
  {
    hide Ordered, Oversize;
    assert s.lock != HeldBy(t);
    StepMoves(s, t, start);
    if FlushComing(s) && !(s.threads[t].WantIdleFlush? && s.lock == Unlocked) {
      StepKeepsComing(s, t, start);
    }
  }

  lemma InsideStrandsNone(s: State, t: Tid)
    requires Inv(s) && t in s.threads && InLock(s.threads[t]) && !Starved(s, t)
    ensures NoneStranded(StepInside(s, t))
  {
    hide FramedSize, Flatten, Oversize;
    StepMoves(s, t, StartFlush);
    if FlushComing(s) {
      StepKeepsComing(s, t, StartFlush);
    }
    if s.threads[t].Acquiring? && s.free == 0 {
      ExhaustedMeansComing(s, t);
    }
  }

  lemma StarvedStrands(s: State, t: Tid, start: Start)
    requires Safe(s) && Starved(s, t)
    ensures !NoneStranded(Step(s, t, start))
  {
    hide FramedSize, Flatten, Oversize;
  }

  lemma StepSafe(s: State, t: Tid, start: Start)
    requires Safe(s)
    ensures Safe(Step(s, t, start)) && Step(s, t, start).cfg == s.cfg
  {
    hide StepInside, StepOutside;
    StepExcludes(s, t, start);
    StepAccounts(s, t, start);
    if t in s.threads {
      if InLock(s.threads[t]) {
        InsideOrders(s, t);
      } else {
        OutsideOrders(s, t, start);
      }
    }
  }

  /** Exactly one event strands a batch: a flush that asks for a buffer while every buffer is held in
      vain, nothing is counted and nobody waits to flush. */
  lemma StrandsIff(s: State, t: Tid, start: Start)
    requires Inv(s)
    ensures NoneStranded(Step(s, t, start)) <==> !Starved(s, t)
  {
    hide StepInside, StepOutside, Starved, NoneStranded, Safe;
    if Starved(s, t) {
      StarvedStrands(s, t, start);
    } else if t in s.threads {
      if InLock(s.threads[t]) {
        InsideStrandsNone(s, t);
      } else {
        OutsideStrandsNone(s, t, start);
      }
    }
  }

  lemma StepFits(s: State, t: Tid, start: Start)
    requires Safe(s) && SinglesFit(s) && (start.StartSingle? ==> !Oversize(s.cfg, start.m))
    ensures SinglesFit(Step(s, t, start))
  {
    hide Oversize, Ordered, Accounting;
    if t in s.threads {
      StepMoves(s, t, start);
      if InLock(s.threads[t]) {
        hide StepOutside, Oversize;
      } else {
        hide StepInside, Oversize;
      }
    }
  }

  // ---------------------------------------------------------------- while buffers last

  /** A send is counted, or a goroutine saw the count reach zero and is waiting for the lock. */
  ghost predicate FlushSure(s: State)
  {
    s.ongoing > 0 || exists t :: t in s.threads && s.threads[t].WantIdleFlush?
  }

  ghost predicate NoneUnsure(s: State)
  {
    s.pending != [] && (s.lock == Unlocked || (s.lock.owner in s.threads && Leaves(s.threads[s.lock.owner])))
    ==> FlushSure(s)
  }

  /** A flush asks for a buffer and finds none. */
  predicate Exhausted(s: State, t: Tid)
  {
    t in s.threads && s.threads[t].Acquiring? && s.free == 0
  }

  lemma StepKeepsSure(s: State, t: Tid, start: Start)
    requires Accounting(s) && MutualExclusion(s) && FlushSure(s)
    requires t in s.threads && !(s.threads[t].WantIdleFlush? && s.lock == Unlocked)
    ensures FlushSure(Step(s, t, start))
  {
    hide Oversize;
    var s' := Step(s, t, start);
    StepAccounts(s, t, start);
    StepMoves(s, t, start);
    if s.ongoing > 0 {
      assert s'.ongoing <= 0 ==> s'.threads[t].WantIdleFlush?;
    } else {
      var w :| w in s.threads && s.threads[w].WantIdleFlush?;
      assert s'.ongoing <= 0 ==> s'.threads[w].WantIdleFlush?;
    }
  }

  lemma StepLeavesNoneUnsure(s: State, t: Tid, start: Start)
    requires Safe(s) && NoneUnsure(s) && !Exhausted(s, t)
    ensures NoneUnsure(Step(s, t, start))
  {
    if t in s.threads {
      hide Flatten, Oversize, FramedSize;
      StepMoves(s, t, start);
      if FlushSure(s) && !(s.threads[t].WantIdleFlush? && s.lock == Unlocked) {
        StepKeepsSure(s, t, start);
      }
    }
  }

  /** Every flush in the run finds a buffer. */
  ghost predicate NeverExhausted(cfg: Config, tids: set<Tid>, sched: Schedule)
  {
    forall i | 0 <= i < |sched| :: !Exhausted(Run(Initial(cfg, tids), sched[..i]), sched[i].0)
  }

  lemma {:induction false} RunLeavesNoneUnsure(cfg: Config, tids: set<Tid>, sched: Schedule)
    requires cfg.buffers > 0 && NeverExhausted(cfg, tids, sched)
    ensures NoneUnsure(Run(Initial(cfg, tids), sched))
  {
    hide Safe, Step, Exhausted;
    if sched == [] {
    } else {
      var init, last := sched[..|sched| - 1], sched[|sched| - 1];
      assert forall i | 0 <= i < |init| :: init[..i] == sched[..i];
      RunLeavesNoneUnsure(cfg, tids, init);
      RunSafe(cfg, tids, init);
      StepLeavesNoneUnsure(Run(Initial(cfg, tids), init), last.0, last.1);
    }
  }

  /** No batch is stranded while flushes find buffers, oversize sends or not: whenever the lock is
      free and messages are pending, a counted send is under way, or a completion has already seen
      zero and is waiting for the lock. */
  lemma NoStrandedBatchWithBuffers(cfg: Config, tids: set<Tid>, sched: Schedule)
    requires cfg.buffers > 0 && NeverExhausted(cfg, tids, sched)
    ensures var s := Run(Initial(cfg, tids), sched);
      s.lock == Unlocked && s.pending != [] ==>
        s.ongoing > 0 || exists t :: t in s.threads && s.threads[t].WantIdleFlush?
  {
    RunLeavesNoneUnsure(cfg, tids, sched);
  }

  // ---------------------------------------------------------------- every interleaving

  lemma InitialInv(cfg: Config, tids: set<Tid>)
    requires cfg.buffers > 0
    ensures Inv(Initial(cfg, tids)) && SinglesFit(Initial(cfg, tids))
  {
    var s := Initial(cfg, tids);
    assert Those(s.threads, HoldsBuffer) == {} && Those(s.threads, HoldsCount) == {};
  }

  lemma {:induction false} RunSafe(cfg: Config, tids: set<Tid>, sched: Schedule)
    requires cfg.buffers > 0
    ensures var s := Run(Initial(cfg, tids), sched); Safe(s) && s.cfg == cfg
  {
    hide Safe, Step;
    if sched == [] {
      InitialInv(cfg, tids);
    } else {
      var init, last := sched[..|sched| - 1], sched[|sched| - 1];
      RunSafe(cfg, tids, init);
      StepSafe(Run(Initial(cfg, tids), init), last.0, last.1);
    }
  }

  /** No flush in the run asks for a buffer while all are held in vain. */
  ghost predicate NeverStarved(cfg: Config, tids: set<Tid>, sched: Schedule)
  {
    forall i | 0 <= i < |sched| :: !Starved(Run(Initial(cfg, tids), sched[..i]), sched[i].0)
  }

  lemma {:induction false} RunKeeps(cfg: Config, tids: set<Tid>, sched: Schedule)
    requires cfg.buffers > 0 && NeverStarved(cfg, tids, sched)
    ensures Inv(Run(Initial(cfg, tids), sched))
  {
    hide Safe, NoneStranded, Step, Starved;
    if sched == [] {
      InitialInv(cfg, tids);
    } else {
      var init, last := sched[..|sched| - 1], sched[|sched| - 1];
      assert forall i | 0 <= i < |init| :: init[..i] == sched[..i];
      RunKeeps(cfg, tids, init);
      StepSafe(Run(Initial(cfg, tids), init), last.0, last.1);
      StrandsIff(Run(Initial(cfg, tids), init), last.0, last.1);
    }
  }

  /** No goroutine ever starts a single send that is too large for a buffer. */
  ghost predicate Fitting(cfg: Config, sched: Schedule)
  {
    forall i | 0 <= i < |sched| && sched[i].1.StartSingle? :: !Oversize(cfg, sched[i].1.m)
  }

  lemma {:induction false} RunFits(cfg: Config, tids: set<Tid>, sched: Schedule)
    requires cfg.buffers > 0 && Fitting(cfg, sched)
    ensures SinglesFit(Run(Initial(cfg, tids), sched))
  {
    hide Safe, SinglesFit, Step;
    if sched == [] {
      InitialInv(cfg, tids);
    } else {
      var init, last := sched[..|sched| - 1], sched[|sched| - 1];
      RunFits(cfg, tids, init);
      RunSafe(cfg, tids, init);
      StepFits(Run(Initial(cfg, tids), init), last.0, last.1);
    }
  }

  /** When all single sends fit, nobody is ever starved. */
  lemma FittingNeverStarves(cfg: Config, tids: set<Tid>, sched: Schedule)
    requires cfg.buffers > 0 && Fitting(cfg, sched)
    ensures NeverStarved(cfg, tids, sched)
  {
    hide Run, Starved;
    forall i | 0 <= i < |sched|
      ensures !Starved(Run(Initial(cfg, tids), sched[..i]), sched[i].0)
    {
      RunSafe(cfg, tids, sched[..i]);
      RunFits(cfg, tids, sched[..i]);
      FitNotStarved(Run(Initial(cfg, tids), sched[..i]), sched[i].0);
    }
  }

  lemma FitNotStarved(s: State, t: Tid)
    requires Safe(s) && SinglesFit(s)
    ensures !Starved(s, t)
  {
    if Starved(s, t) {
      var _ := SomeoneIn(s.threads, HoldsBuffer);
      assert false;
    }
  }

  /** No batch is stranded, under any interleaving of any number of goroutines and whether or not
      flushes find a free buffer: whenever the lock is free and messages are pending, a counted
      send is under way, or a completion has already seen zero and is waiting for the lock, or an
      immediate send holds a buffer and is about to be counted. */
  lemma NoStrandedBatch(cfg: Config, tids: set<Tid>, sched: Schedule)
    requires cfg.buffers > 0 && (Fitting(cfg, sched) || NeverStarved(cfg, tids, sched))
    ensures var s := Run(Initial(cfg, tids), sched);
      s.lock == Unlocked && s.pending != [] ==> FlushComing(s)
  {
    if Fitting(cfg, sched) {
      FittingNeverStarves(cfg, tids, sched);
    }
    RunKeeps(cfg, tids, sched);
  }

  /** When every goroutine is idle and the device has completed every send, nothing is pending, every
      buffer is back, and the posted batches are the accepted messages in order. */
  lemma AtRest(cfg: Config, tids: set<Tid>, sched: Schedule)
    requires cfg.buffers > 0 && NeverStarved(cfg, tids, sched)
    requires var s := Run(Initial(cfg, tids), sched);
      s.posted == 0 && forall t | t in s.threads :: s.threads[t] == Idle
    ensures var s := Run(Initial(cfg, tids), sched);
      s.pending == [] && s.ongoing == 0 && s.free == cfg.buffers && Flatten(s.batches) == s.accepted
  {
    RunKeeps(cfg, tids, sched);
    RunSafe(cfg, tids, sched);
    var s := Run(Initial(cfg, tids), sched);
    assert Those(s.threads, HoldsBuffer) == {} && Those(s.threads, HoldsCount) == {};
    assert s.lock == Unlocked;
    assert Flatten(s.batches) + [] + [] == Flatten(s.batches);
  }

  /** Under every interleaving, oversize sends included, at most one goroutine is inside the lock,
      every buffer is with the pool, the device or a goroutine, the counter counts exactly the sends
      with the device or a goroutine, and the batches posted, the batch in hand and the pending
      messages are the accepted messages in order. */
  lemma Interleavings(cfg: Config, tids: set<Tid>, sched: Schedule)
    requires cfg.buffers > 0
    ensures var s := Run(Initial(cfg, tids), sched);
      && (forall t, u | t in s.threads && u in s.threads && InLock(s.threads[t]) && InLock(s.threads[u]) :: t == u)
      && s.free + s.posted + |Those(s.threads, HoldsBuffer)| == cfg.buffers
      && s.ongoing == s.posted + |Those(s.threads, HoldsCount)|
      && Flatten(s.batches) + InHand(s) + s.pending == s.accepted
  {
    RunSafe(cfg, tids, sched);
  }

  // ---------------------------------------------------------------- eventual delivery

  /** Steps a goroutine still needs until it is idle, not counting what its message may cause. */
  function Rank(pc: Pc): nat
  {
    match pc
    case Idle => 0
    case WantAppend(_) => 13
    case WantFlush => 6
    case WantIdleFlush => 7
    case Checking(_) => 12
    case Appending(_) => 7
    case Loading => 6
    case IdleChecking => 6
    case Taking(k) => RankAfter(k) + 4
    case Acquiring(k, _) => RankAfter(k) + 3
    case Counting(k, _) => RankAfter(k) + 2
    case Posting(k, _) => RankAfter(k) + 1
    case Unlocking => 1
    case SingleAcquiring(_) => 14
    case SingleChecking(_) => 13
    case SingleCounting(_) => 12
    case SinglePosting(_) => 11
    case Releasing => 9
    case Decrementing => 8
  }

  function RankAfter(k: After): nat
  {
    if k.ThenAppend? then 7 else 1
  }

  /** Messages a goroutine has that may still be posted in a batch. */
  function Carried(pc: Pc): nat
  {
    match pc
    case WantAppend(_) => 1
    case Checking(_) => 1
    case Appending(_) => 1
    case Taking(k) => Bit(k.ThenAppend?)
    case Acquiring(k, hand) => Bit(k.ThenAppend?) + |hand|
    case Counting(k, hand) => Bit(k.ThenAppend?) + |hand|
    case Posting(k, hand) => Bit(k.ThenAppend?) + |hand|
    case _ => 0
  }

  /** Ten steps pay for a send with the device: those of its completion, and one to start that. */
  function Weight(pc: Pc): nat
  {
    Rank(pc) + 10 * Carried(pc)
  }

  ghost function Total(threads: map<Tid, Pc>): (n: nat)
    decreases |threads|
  {
    if threads == map[] then 0
    else
      var t :| t in threads;
      assert |threads - {t}| < |threads| by { Removed(threads, t); }
      Weight(threads[t]) + Total(threads - {t})
  }

  lemma Removed(threads: map<Tid, Pc>, t: Tid)
    requires t in threads
    ensures |threads - {t}| == |threads| - 1
  {
    assert (threads - {t}).Keys == threads.Keys - {t};
  }

  /** Any goroutine may be taken out of the sum first. */
  lemma {:induction false} TotalWithout(threads: map<Tid, Pc>, t: Tid)
    requires t in threads
    ensures Total(threads) == Weight(threads[t]) + Total(threads - {t})
    decreases |threads|
  {
    hide Weight;
    var u :| u in threads && Total(threads) == Weight(threads[u]) + Total(threads - {u});
    if u != t {
      Removed(threads, u);
      Removed(threads, t);
      TotalWithout(threads - {u}, t);
      TotalWithout(threads - {t}, u);
      assert threads - {u} - {t} == threads - {t} - {u};
    }
  }

  /** Work left: a bound on the effective steps until everything is at rest. */
  ghost function Work(s: State): nat
  {
    Total(s.threads) + 10 * |s.pending| + 10 * s.posted
  }

  /** Without new sends and flushes, every step that does anything lowers the work left. */
  lemma StepWorks(s: State, t: Tid)
    requires Safe(s)
    ensures Step(s, t, StartCompletion) == s || Work(Step(s, t, StartCompletion)) < Work(s)
  {
    var s' := Step(s, t, StartCompletion);
    if t in s.threads {
      StepMoves(s, t, StartCompletion);
      TotalWithout(s.threads, t);
      TotalWithout(s'.threads, t);
      assert s'.threads - {t} == s.threads - {t};
      if InLock(s.threads[t]) {
        InsideWorks(s, t);
      } else {
        OutsideWorks(s, t);
      }
    }
  }

  /** The mover's weight and the shared work. */
  ghost function Share(s: State, t: Tid): nat
    requires t in s.threads
  {
    Weight(s.threads[t]) + 10 * |s.pending| + 10 * s.posted
  }

  lemma InsideWorks(s: State, t: Tid)
    requires s.lock == HeldBy(t) && Ordered(s) && t in s.threads && InLock(s.threads[t])
    ensures t in StepInside(s, t).threads && Share(StepInside(s, t), t) < Share(s, t)
  {
    hide FramedSize, Flatten, Oversize;
  }

  lemma OutsideWorks(s: State, t: Tid)
    requires t in s.threads && !InLock(s.threads[t])
    ensures var s' := StepOutside(s, t, StartCompletion);
      t in s'.threads && (s' == s || Share(s', t) < Share(s, t))
  {
    hide Oversize;
  }

  ghost predicate Resting(s: State)
  {
    s.posted == 0 && forall t | t in s.threads :: s.threads[t] == Idle
  }

  /** Until everything is at rest, somebody can move: no goroutine waits for ever. */
  lemma SomeoneCanMove(s: State)
    requires MutualExclusion(s) && s.threads != map[]
    ensures Resting(s) || exists t :: Step(s, t, StartCompletion) != s
  {
    if !Resting(s) {
      var t :| t in s.threads
        && (s.threads[t] == Idle ==> s.posted > 0 && forall u | u in s.threads :: s.threads[u] == Idle);
      var mover := if s.lock.HeldBy? then s.lock.owner else t;
      MoverMoves(s, mover);
    }
  }

  lemma MoverMoves(s: State, t: Tid)
    requires t in s.threads && (s.threads[t] == Idle ==> s.posted > 0)
    requires InLock(s.threads[t]) || s.lock == Unlocked
    ensures Step(s, t, StartCompletion) != s
  {
    hide Oversize, FramedSize;
    assert Step(s, t, StartCompletion).threads[t] != s.threads[t];
  }

  /** The goroutines finish what they have begun, in any order; idle ones only handle completions. */
  function Finish(s: State, movers: seq<Tid>): State
  {
    if movers == [] then s
    else Step(Finish(s, movers[..|movers| - 1]), movers[|movers| - 1], StartCompletion)
  }

  function Finishing(movers: seq<Tid>): (sched: Schedule)
    ensures |sched| == |movers| && forall i | 0 <= i < |sched| :: sched[i].1 == StartCompletion
  {
    if movers == [] then [] else Finishing(movers[..|movers| - 1]) + [(movers[|movers| - 1], StartCompletion)]
  }

  lemma {:induction false} FinishIsRun(s: State, sched: Schedule, movers: seq<Tid>)
    ensures Run(s, sched + Finishing(movers)) == Finish(Run(s, sched), movers)
  {
    if movers == [] {
      assert sched + [] == sched;
    } else {
      var init := movers[..|movers| - 1];
      var last := (movers[|movers| - 1], StartCompletion);
      FinishIsRun(s, sched, init);
      assert sched + (Finishing(init) + [last]) == sched + Finishing(init) + [last];
      assert (sched + Finishing(init) + [last])[..|sched + Finishing(init)|] == sched + Finishing(init);
    }
  }

  /** Steps of `movers` that changed the state. */
  ghost function Effective(s: State, movers: seq<Tid>): (n: nat)
  {
    if movers == [] then 0
    else
      var init := movers[..|movers| - 1];
      Effective(s, init) + (if Finish(s, movers) == Finish(s, init) then 0 else 1)
  }

  /** Under every schedule, the effective steps are at most the work there was. */
  lemma {:induction false} FinishBounded(s: State, movers: seq<Tid>)
    requires Safe(s)
    ensures Safe(Finish(s, movers)) && Effective(s, movers) + Work(Finish(s, movers)) <= Work(s)
  {
    hide Safe, Step, Work;
    if movers == [] {
    } else {
      var init, last := movers[..|movers| - 1], movers[|movers| - 1];
      FinishBounded(s, init);
      StepSafe(Finish(s, init), last, StartCompletion);
      StepWorks(Finish(s, init), last);
    }
  }

  /** Eventual delivery: let any run be followed by any schedule without new sends. It has at most as
      many effective steps as there was work; and once no step is effective any more, which until then
      some step is, everything is at rest, with nothing pending, every buffer back, and every accepted
      message posted, in order. */
  lemma EventualDelivery(cfg: Config, tids: set<Tid>, sched: Schedule, movers: seq<Tid>)
    requires cfg.buffers > 0 && tids != {}
    requires Fitting(cfg, sched) || NeverStarved(cfg, tids, sched + Finishing(movers))
    ensures var s := Run(Initial(cfg, tids), sched);
      var t := Finish(s, movers);
      && t == Run(Initial(cfg, tids), sched + Finishing(movers))
      && Effective(s, movers) + Work(t) <= Work(s)
      && (Resting(t) || exists u :: Step(t, u, StartCompletion) != t)
      && (Resting(t) ==>
            t.pending == [] && t.ongoing == 0 && t.free == cfg.buffers && Flatten(t.batches) == t.accepted)
  {
    hide Run, Step, Safe, Work, NeverStarved, Flatten;
    if Fitting(cfg, sched) {
      FittingNeverStarves(cfg, tids, sched + Finishing(movers));
    }
    var s0 := Initial(cfg, tids);
    var s := Run(s0, sched);
    var t := Finish(s, movers);
    FinishIsRun(s0, sched, movers);
    RunSafe(cfg, tids, sched);
    FinishBounded(s, movers);
    SameThreads(cfg, tids, sched + Finishing(movers));
    SafeExcludes(t);
    SomeoneCanMove(t);
    if Resting(t) {
      AtRest(cfg, tids, sched + Finishing(movers));
    }
  }

  lemma SafeExcludes(s: State)
    requires Safe(s)
    ensures MutualExclusion(s)
  {
  }

  lemma {:induction false} SameThreads(cfg: Config, tids: set<Tid>, sched: Schedule)
    requires cfg.buffers > 0
    ensures Run(Initial(cfg, tids), sched).threads.Keys == tids
  {
    hide Step, Safe;
    if sched == [] {
    } else {
      var init, last := sched[..|sched| - 1], sched[|sched| - 1];
      SameThreads(cfg, tids, init);
      RunSafe(cfg, tids, init);
      StepKeepsThreads(Run(Initial(cfg, tids), init), last.0, last.1);
    }
  }

  lemma StepKeepsThreads(s: State, t: Tid, start: Start)
    requires Safe(s)
    ensures Step(s, t, start).threads.Keys == s.threads.Keys
  {
    if t in s.threads {
      hide Step;
      StepMoves(s, t, start);
    } else {
      assert Step(s, t, start) == s;
    }
  }

  // ---------------------------------------------------------------- what an oversize send breaks

  ghost predicate Reaches(s: State, s': State)
  {
    exists sched :: Run(s, sched) == s'
  }

  lemma StartReached(s: State)
    ensures Reaches(s, s)
  {
    assert Run(s, []) == s;
  }

  lemma Go(s: State, s1: State, t: Tid, start: Start, s2: State)
    requires Reaches(s, s1) && Step(s1, t, start) == s2
    ensures Reaches(s, s2)
  {
    var sched :| Run(s, sched) == s1;
    assert (sched + [(t, start)])[..|sched|] == sched;
    assert Run(s, sched + [(t, start)]) == s2;
  }

  /** Three goroutines at the given places. */
  function At(cfg: Config, p0: Pc, p1: Pc, p2: Pc, lock: Lock, pending: seq<Payload>,
              ongoing: int, free: nat, posted: nat): State
  {
    State(cfg, map[0 := p0, 1 := p1, 2 := p2], lock, pending, ongoing, free, posted, [], pending)
  }

  /** Goroutine 0 acquires a buffer for a small message. */
  lemma SmallSendAcquired(cfg: Config, s0: State, x: Payload)
    requires cfg.buffers == 1 && s0 == Initial(cfg, {0, 1, 2})
    ensures Reaches(s0, At(cfg, SingleChecking(x), Idle, Idle, Unlocked, [], 0, 0, 0))
  {
    hide Reaches, Oversize;
    StartReached(s0);
    assert s0 == At(cfg, Idle, Idle, Idle, Unlocked, [], 0, 1, 0);
    var s1 := At(cfg, SingleAcquiring(x), Idle, Idle, Unlocked, [], 0, 1, 0);
    Go(s0, s0, 0, StartSingle(x), s1);
    Go(s0, s1, 0, StartFlush, At(cfg, SingleChecking(x), Idle, Idle, Unlocked, [], 0, 0, 0));
  }

  /** It fits, and is counted. */
  lemma SmallSendCounted(cfg: Config, s0: State, x: Payload)
    requires !Oversize(cfg, x) && Reaches(s0, At(cfg, SingleChecking(x), Idle, Idle, Unlocked, [], 0, 0, 0))
    ensures Reaches(s0, At(cfg, SinglePosting(x), Idle, Idle, Unlocked, [], 1, 0, 0))
  {
    hide Reaches, Oversize;
    var s2 := At(cfg, SingleChecking(x), Idle, Idle, Unlocked, [], 0, 0, 0);
    var s3 := At(cfg, SingleCounting(x), Idle, Idle, Unlocked, [], 0, 0, 0);
    Go(s0, s2, 0, StartFlush, s3);
    Go(s0, s3, 0, StartFlush, At(cfg, SinglePosting(x), Idle, Idle, Unlocked, [], 1, 0, 0));
  }

  /** It goes out; the device has the only buffer. Goroutine 0 then starts to aggregate a message. */
  lemma SmallSendOut(cfg: Config, s0: State, x: Payload, a: Payload)
    requires Reaches(s0, At(cfg, SinglePosting(x), Idle, Idle, Unlocked, [], 1, 0, 0))
    ensures Reaches(s0, At(cfg, WantAppend(a), Idle, Idle, Unlocked, [], 1, 0, 1))
  {
    hide Reaches, FramedSize, Oversize;
    var s4 := At(cfg, SinglePosting(x), Idle, Idle, Unlocked, [], 1, 0, 0);
    var s5 := At(cfg, Idle, Idle, Idle, Unlocked, [], 1, 0, 1);
    Go(s0, s4, 0, StartFlush, s5);
    Go(s0, s5, 0, StartAppend(a), At(cfg, WantAppend(a), Idle, Idle, Unlocked, [], 1, 0, 1));
  }

  /** The overflow check passes. */
  lemma MessageChecked(cfg: Config, s0: State, a: Payload)
    requires Reaches(s0, At(cfg, WantAppend(a), Idle, Idle, Unlocked, [], 1, 0, 1))
    ensures Reaches(s0, At(cfg, Appending(a), Idle, Idle, HeldBy(0), [], 1, 0, 1))
  {
    hide Reaches, FramedSize, Oversize;
    var s1 := At(cfg, WantAppend(a), Idle, Idle, Unlocked, [], 1, 0, 1);
    var s2 := At(cfg, Checking(a), Idle, Idle, HeldBy(0), [], 1, 0, 1);
    Go(s0, s1, 0, StartFlush, s2);
    Go(s0, s2, 0, StartFlush, At(cfg, Appending(a), Idle, Idle, HeldBy(0), [], 1, 0, 1));
  }

  /** The message is appended. */
  lemma MessageAppended(cfg: Config, s0: State, a: Payload)
    requires BatchBytes([a]) <= cfg.sendThreshold
    requires Reaches(s0, At(cfg, Appending(a), Idle, Idle, HeldBy(0), [], 1, 0, 1))
    ensures Reaches(s0, At(cfg, Loading, Idle, Idle, HeldBy(0), [a], 1, 0, 1))
  {
    hide Reaches, FramedSize, Oversize;
    assert [] + [a] == [a];
    var s3 := At(cfg, Appending(a), Idle, Idle, HeldBy(0), [], 1, 0, 1);
    Go(s0, s3, 0, StartFlush, At(cfg, Loading, Idle, Idle, HeldBy(0), [a], 1, 0, 1));
  }

  /** It waits behind the small send. */
  lemma MessageWaits(cfg: Config, s0: State, a: Payload)
    requires Reaches(s0, At(cfg, Loading, Idle, Idle, HeldBy(0), [a], 1, 0, 1))
    ensures Reaches(s0, At(cfg, Idle, Idle, Idle, Unlocked, [a], 1, 0, 1))
  {
    hide Reaches, FramedSize, Oversize;
    var s4 := At(cfg, Loading, Idle, Idle, HeldBy(0), [a], 1, 0, 1);
    var s5 := At(cfg, Unlocking, Idle, Idle, HeldBy(0), [a], 1, 0, 1);
    Go(s0, s4, 0, StartFlush, s5);
    Go(s0, s5, 0, StartFlush, At(cfg, Idle, Idle, Idle, Unlocked, [a], 1, 0, 1));
  }

  /** The send completes in goroutine 1 and its buffer is back. */
  lemma BufferBack(cfg: Config, s0: State, a: Payload)
    requires Reaches(s0, At(cfg, Idle, Idle, Idle, Unlocked, [a], 1, 0, 1))
    ensures Reaches(s0, At(cfg, Idle, Decrementing, Idle, Unlocked, [a], 1, 1, 0))
  {
    hide Reaches, FramedSize, Oversize;
    var s := At(cfg, Idle, Idle, Idle, Unlocked, [a], 1, 0, 1);
    var s1 := At(cfg, Idle, Releasing, Idle, Unlocked, [a], 1, 0, 0);
    Go(s0, s, 1, StartCompletion, s1);
    Go(s0, s1, 1, StartFlush, At(cfg, Idle, Decrementing, Idle, Unlocked, [a], 1, 1, 0));
  }

  /** Before it counts down, goroutine 2 takes the buffer for an oversize send. */
  lemma BufferStolen(cfg: Config, s0: State, a: Payload, big: Payload)
    requires Reaches(s0, At(cfg, Idle, Decrementing, Idle, Unlocked, [a], 1, 1, 0))
    ensures Reaches(s0, At(cfg, Idle, Decrementing, SingleChecking(big), Unlocked, [a], 1, 0, 0))
  {
    hide Reaches, FramedSize, Oversize;
    var s2 := At(cfg, Idle, Decrementing, Idle, Unlocked, [a], 1, 1, 0);
    var s3 := At(cfg, Idle, Decrementing, SingleAcquiring(big), Unlocked, [a], 1, 1, 0);
    Go(s0, s2, 2, StartSingle(big), s3);
    Go(s0, s3, 2, StartFlush, At(cfg, Idle, Decrementing, SingleChecking(big), Unlocked, [a], 1, 0, 0));
  }

  /** Now goroutine 1 counts down to zero. */
  lemma CountedDown(cfg: Config, s0: State, a: Payload, big: Payload)
    requires Reaches(s0, At(cfg, Idle, Decrementing, SingleChecking(big), Unlocked, [a], 1, 0, 0))
    ensures Reaches(s0, At(cfg, Idle, WantIdleFlush, SingleChecking(big), Unlocked, [a], 0, 0, 0))
  {
    hide Reaches, FramedSize, Oversize;
    var s4 := At(cfg, Idle, Decrementing, SingleChecking(big), Unlocked, [a], 1, 0, 0);
    Go(s0, s4, 1, StartFlush, At(cfg, Idle, WantIdleFlush, SingleChecking(big), Unlocked, [a], 0, 0, 0));
  }

  /** The idle flush enters the lock. */
  lemma IdleFlushEnters(cfg: Config, s0: State, a: Payload, big: Payload)
    requires Reaches(s0, At(cfg, Idle, WantIdleFlush, SingleChecking(big), Unlocked, [a], 0, 0, 0))
    ensures Reaches(s0, At(cfg, Idle, Taking(ThenUnlock), SingleChecking(big), HeldBy(1), [a], 0, 0, 0))
  {
    hide Reaches, FramedSize, Oversize;
    var s := At(cfg, Idle, WantIdleFlush, SingleChecking(big), Unlocked, [a], 0, 0, 0);
    var s1 := At(cfg, Idle, IdleChecking, SingleChecking(big), HeldBy(1), [a], 0, 0, 0);
    Go(s0, s, 1, StartFlush, s1);
    Go(s0, s1, 1, StartFlush, At(cfg, Idle, Taking(ThenUnlock), SingleChecking(big), HeldBy(1), [a], 0, 0, 0));
  }

  /** It takes the message, finds no buffer, and puts the message back. */
  lemma FlushFindsNothing(cfg: Config, s0: State, a: Payload, big: Payload)
    requires Reaches(s0, At(cfg, Idle, Taking(ThenUnlock), SingleChecking(big), HeldBy(1), [a], 0, 0, 0))
    ensures Reaches(s0, At(cfg, Idle, Unlocking, SingleChecking(big), HeldBy(1), [a], 0, 0, 0))
  {
    hide Reaches, FramedSize, Oversize;
    var p2 := SingleChecking(big);
    var s2 := At(cfg, Idle, Taking(ThenUnlock), p2, HeldBy(1), [a], 0, 0, 0);
    var s3 := At(cfg, Idle, Acquiring(ThenUnlock, [a]), p2, HeldBy(1), [a], 0, 0, 0).(pending := []);
    Go(s0, s2, 1, StartFlush, s3);
    Go(s0, s3, 1, StartFlush, At(cfg, Idle, Unlocking, p2, HeldBy(1), [a], 0, 0, 0));
  }

  /** The lock is released, and the oversize send gives up. */
  lemma SendGivesUp(cfg: Config, s0: State, a: Payload, big: Payload)
    requires Oversize(cfg, big)
    requires Reaches(s0, At(cfg, Idle, Unlocking, SingleChecking(big), HeldBy(1), [a], 0, 0, 0))
    ensures Reaches(s0, At(cfg, Idle, Idle, Idle, Unlocked, [a], 0, 1, 0))
  {
    hide Reaches, Oversize;
    var s4 := At(cfg, Idle, Unlocking, SingleChecking(big), HeldBy(1), [a], 0, 0, 0);
    var s5 := At(cfg, Idle, Idle, SingleChecking(big), Unlocked, [a], 0, 0, 0);
    Go(s0, s4, 1, StartFlush, s5);
    Go(s0, s5, 2, StartFlush, At(cfg, Idle, Idle, Idle, Unlocked, [a], 0, 1, 0));
  }

  lemma StrandedReached(cfg: Config, x: Payload, a: Payload, big: Payload)
    requires cfg.buffers == 1 && !Oversize(cfg, x) && Oversize(cfg, big) && BatchBytes([a]) <= cfg.sendThreshold
    ensures Reaches(Initial(cfg, {0, 1, 2}), At(cfg, Idle, Idle, Idle, Unlocked, [a], 0, 1, 0))
  {
    hide Reaches, Oversize, FramedSize, Initial, At;
    var s0 := Initial(cfg, {0, 1, 2});
    SmallSendAcquired(cfg, s0, x);
    SmallSendCounted(cfg, s0, x);
    SmallSendOut(cfg, s0, x, a);
    MessageChecked(cfg, s0, a);
    MessageAppended(cfg, s0, a);
    MessageWaits(cfg, s0, a);
    BufferBack(cfg, s0, a);
    BufferStolen(cfg, s0, a, big);
    CountedDown(cfg, s0, a, big);
    IdleFlushEnters(cfg, s0, a, big);
    FlushFindsNothing(cfg, s0, a, big);
    SendGivesUp(cfg, s0, a, big);
  }

  /** The condition on single sends is needed: an oversize one can hold the only buffer just while
      the idle flush asks for it, and then give it back uncounted. Everything is then at rest, with
      a message pending that nobody will flush. */
  lemma OversizeStrands(cfg: Config, x: Payload, a: Payload, big: Payload)
    requires cfg.buffers == 1 && !Oversize(cfg, x) && Oversize(cfg, big) && BatchBytes([a]) <= cfg.sendThreshold
    ensures exists sched ::
      var s := Run(Initial(cfg, {0, 1, 2}), sched);
      && s.pending == [a] && s.lock == Unlocked && !FlushComing(s)
      && s.posted == 0 && s.free == 1 && forall t | t in s.threads :: s.threads[t] == Idle
  {
    hide Oversize, FramedSize, Run, Initial;
    StrandedReached(cfg, x, a, big);
    var sched :| Run(Initial(cfg, {0, 1, 2}), sched) == At(cfg, Idle, Idle, Idle, Unlocked, [a], 0, 1, 0);
  }
}
