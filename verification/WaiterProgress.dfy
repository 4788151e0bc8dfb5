/** Progress of the two waiters: an event wakes them, and with the device quiet they dispatch all that
    waits and park. Safety is in `EventWaiter` and `SmartWaiter`. */
module EventWaiterProgress {
  import opened CompletionQueue
  import opened EventWaiter

  /** The waiter's turns in a row, with what its polls report. */
  function Turns(polls: seq<Poll>): (actions: seq<Action>)
    ensures |actions| == |polls| && forall i | 0 <= i < |polls| :: actions[i] == Waiter(polls[i])
  {
    seq(|polls|, i requires 0 <= i < |polls| => Waiter(polls[i]))
  }

  function Alone(s: State, polls: seq<Poll>, max: nat): State
  {
    if polls == [] then s else Step(Alone(s, polls[..|polls| - 1], max), Waiter(polls[|polls| - 1]), max)
  }

  /** The waiter has nothing to do: it is parked and no event is pending. */
  ghost predicate Settled(s: State)
  {
    s.pc == Parked && s.cq.events == 0
  }

  function Rank(pc: Pc): nat
  {
    match pc
    case Parked => 0
    case DrainingArmed => 1
    case Arming => 2
    case DrainingWoken => 3
    case Acking => 4
  }

  /** Each pending event pays for one round from the wake to the next park. */
  function Work(s: State): nat
  {
    |s.cq.queue| + 5 * s.cq.events + Rank(s.pc)
  }

  /** Every turn of the waiter that does anything lowers the work left. */
  lemma TurnWorks(s: State, poll: Poll, max: nat)
    ensures var t := Step(s, Waiter(poll), max); t == s || Work(t) < Work(s)
  {
  }

  /** Until it is parked with no event pending, the waiter can take a turn that does something, with a poll
      that does not fail. In particular a pending event wakes it. */
  lemma CanMove(s: State, max: nat) returns (poll: Poll)
    requires max > 0 && !Settled(s)
    ensures poll != Failed && Possible(s.cq, poll, max) && Step(s, Waiter(poll), max) != s
  {
    poll := if s.cq.queue == [] then Nothing else Took(1);
  }

  /** It does something at every turn whose poll reports what it may. */
  lemma EveryTurnCounts(s: State, poll: Poll, max: nat)
    requires !Settled(s) && Possible(s.cq, poll, max)
    ensures Step(s, Waiter(poll), max) != s
  {
  }

  ghost function Effective(s: State, polls: seq<Poll>, max: nat): (n: nat)
  {
    if polls == [] then 0
    else
      var init := polls[..|polls| - 1];
      Effective(s, init, max) + (if Alone(s, polls, max) == Alone(s, init, max) then 0 else 1)
  }

  lemma {:induction false} AloneWorks(s: State, polls: seq<Poll>, max: nat)
    ensures Effective(s, polls, max) + Work(Alone(s, polls, max)) <= Work(s)
  {
    hide Step, Work;
    if polls == [] {
    } else {
      var init := polls[..|polls| - 1];
      AloneWorks(s, init, max);
      TurnWorks(Alone(s, init, max), polls[|polls| - 1], max);
    }
  }

  lemma {:induction false} AloneIsRun(actions: seq<Action>, polls: seq<Poll>, max: nat)
    ensures Run(actions + Turns(polls), max) == Alone(Run(actions, max), polls, max)
  {
    hide Step, Turns;
    if polls == [] {
      assert actions + Turns(polls) == actions;
    } else {
      var init := polls[..|polls| - 1];
      AloneIsRun(actions, init, max);
      TurnsSnoc(actions, polls);
      RunSnoc(actions + Turns(init), Waiter(polls[|polls| - 1]), max);
    }
  }

  lemma TurnsSnoc(actions: seq<Action>, polls: seq<Poll>)
    requires polls != []
    ensures actions + Turns(polls) == actions + Turns(polls[..|polls| - 1]) + [Waiter(polls[|polls| - 1])]
  {
  }

  lemma RunSnoc(actions: seq<Action>, a: Action, max: nat)
    ensures Run(actions + [a], max) == Step(Run(actions, max), a, max)
  {
    assert (actions + [a])[..|actions|] == actions;
  }

  /** After any run, with the device quiet: the waiter's effective turns are bounded by the work there is;
      until it is parked with no event pending, some turn is effective; and there, all that the device
      ever added was dispatched, in order, iff the poll before parking left nothing, which holds whenever
      no poll fails. */
  lemma Progress(actions: seq<Action>, polls: seq<Poll>, max: nat)
    requires max > 0
    ensures var s := Run(actions, max);
      var t := Alone(s, polls, max);
      && Effective(s, polls, max) + Work(t) <= Work(s)
      && (Settled(t) || exists poll :: poll != Failed && Step(t, Waiter(poll), max) != t)
      && (Settled(t) ==> t.acks == t.wakes && (t.cq.dispatched == t.cq.enqueued <==> t.left == 0))
      && (Settled(t) && PollsSucceed(actions) && Failed !in polls ==> t.cq.dispatched == t.cq.enqueued)
  {
    hide Work;
    var s := Run(actions, max);
    var t := Alone(s, polls, max);
    AloneWorks(s, polls, max);
    AloneIsRun(actions, polls, max);
    RunKeeps(actions + Turns(polls), max);
    if !Settled(t) {
      var poll := CanMove(t, max);
    } else {
      assert |t.cq.enqueued| == |t.cq.dispatched| + |t.cq.queue|;
      assert t.cq.queue == [] ==> t.cq.dispatched + t.cq.queue == t.cq.dispatched;
      if PollsSucceed(actions) && Failed !in polls {
        assert PollsSucceed(actions + Turns(polls));
        NothingLeft(actions + Turns(polls), max);
      }
    }
  }

  /** The waiter goes on to arm or to park only when nothing is left to take or a poll failed. */
  lemma DrainsEmpty(s: State, poll: Poll, max: nat)
    ensures var t := Step(s, Waiter(poll), max);
      t.pc != s.pc && (t.pc == Arming || t.pc == Parked) ==> s.cq.queue == [] || poll == Failed
  {
  }
}

module SmartWaiterProgress {
  import opened CompletionQueue
  import opened SmartWaiter

  function Turns(polls: seq<Poll>): (actions: seq<Action>)
    ensures |actions| == |polls| && forall i | 0 <= i < |polls| :: actions[i] == Waiter(polls[i])
  {
    seq(|polls|, i requires 0 <= i < |polls| => Waiter(polls[i]))
  }

  function Alone(s: State, polls: seq<Poll>, cfg: Config): State
  {
    if polls == [] then s else Step(Alone(s, polls[..|polls| - 1], cfg), Waiter(polls[|polls| - 1]), cfg)
  }

  ghost predicate Settled(s: State)
  {
    s.pc == Parked && s.cq.events == 0
  }

  /** Turns until the next park if nothing more is found and no event comes. */
  function Rank(s: State, spinCount: nat): int
  {
    match s.pc
    case Parked => 0
    case PollingArmed => 1
    case Arming => 2
    case BusyPolling => 2 + spinCount - s.emptyRuns
    case Draining => 3 + spinCount
    case Acking => 4 + spinCount
  }

  function Times(k: nat, n: nat): (m: nat)
  {
    if n == 0 then 0 else Times(k, n - 1) + k
  }

  lemma {:induction false} TimesLess(k: nat, n: nat, m: nat)
    requires m < n
    ensures Times(k, m) + k <= Times(k, n)
    decreases n
  {
    if m == n - 1 {
    } else {
      TimesLess(k, n - 1, m);
    }
  }

  /** A waiting completion pays for starting to spin again, a pending event for a round from the wake to
      the next park. */
  function Work(s: State, spinCount: nat): int
  {
    Times(spinCount + 3, |s.cq.queue|) + Times(spinCount + 5, s.cq.events) + Rank(s, spinCount)
  }

  /** What the goroutine keeps of its counter. */
  ghost predicate Spinning(s: State, cfg: Config)
  {
    s.pc == BusyPolling ==> s.emptyRuns < cfg.spinCount
  }

  lemma TurnWorks(s: State, poll: Poll, cfg: Config)
    requires Spinning(s, cfg) && cfg.spinCount > 0
    ensures var t := Step(s, Waiter(poll), cfg); t == s || Work(t, cfg.spinCount) < Work(s, cfg.spinCount)
  {
    if Possible(s.cq, poll, cfg.max) && poll.Took? {
      TimesLess(cfg.spinCount + 3, |s.cq.queue|, |s.cq.queue| - poll.k);
    }
    if s.cq.events > 0 {
      TimesLess(cfg.spinCount + 5, s.cq.events, s.cq.events - 1);
    }
  }

  lemma WorkNonNegative(s: State, cfg: Config)
    requires Spinning(s, cfg)
    ensures Work(s, cfg.spinCount) >= 0
  {
  }

  lemma CanMove(s: State, cfg: Config) returns (poll: Poll)
    requires cfg.max > 0 && !Settled(s)
    ensures poll != Failed && Possible(s.cq, poll, cfg.max) && Step(s, Waiter(poll), cfg) != s
  {
    poll := if s.cq.queue == [] then Nothing else Took(1);
  }

  ghost function Effective(s: State, polls: seq<Poll>, cfg: Config): (n: nat)
  {
    if polls == [] then 0
    else
      var init := polls[..|polls| - 1];
      Effective(s, init, cfg) + (if Alone(s, polls, cfg) == Alone(s, init, cfg) then 0 else 1)
  }

  lemma {:induction false} AloneIsRun(actions: seq<Action>, polls: seq<Poll>, cfg: Config)
    ensures Run(actions + Turns(polls), cfg) == Alone(Run(actions, cfg), polls, cfg)
  {
    hide Step, Turns;
    if polls == [] {
      assert actions + Turns(polls) == actions;
    } else {
      var init := polls[..|polls| - 1];
      AloneIsRun(actions, init, cfg);
      TurnsSnoc(actions, polls);
      RunSnoc(actions + Turns(init), Waiter(polls[|polls| - 1]), cfg);
    }
  }

  lemma TurnsSnoc(actions: seq<Action>, polls: seq<Poll>)
    requires polls != []
    ensures actions + Turns(polls) == actions + Turns(polls[..|polls| - 1]) + [Waiter(polls[|polls| - 1])]
  {
  }

  lemma RunSnoc(actions: seq<Action>, a: Action, cfg: Config)
    ensures Run(actions + [a], cfg) == Step(Run(actions, cfg), a, cfg)
  {
    assert (actions + [a])[..|actions|] == actions;
  }

  lemma RunSpins(actions: seq<Action>, cfg: Config)
    requires cfg.spinCount > 0
    ensures Spinning(Run(actions, cfg), cfg)
  {
    RunKeeps(actions, cfg);
  }

  lemma {:induction false} AloneWorks(actions: seq<Action>, polls: seq<Poll>, cfg: Config)
    requires cfg.spinCount > 0
    ensures var s := Run(actions, cfg);
      Effective(s, polls, cfg) + Work(Alone(s, polls, cfg), cfg.spinCount) <= Work(s, cfg.spinCount)
  {
    hide Step, Work, Run;
    if polls == [] {
    } else {
      var init := polls[..|polls| - 1];
      AloneWorks(actions, init, cfg);
      AloneIsRun(actions, init, cfg);
      RunSpins(actions + Turns(init), cfg);
      TurnWorks(Alone(Run(actions, cfg), init, cfg), polls[|polls| - 1], cfg);
    }
  }

  /** The guarantee of `EventWaiterProgress.Progress` in smart mode. */
  lemma Progress(actions: seq<Action>, polls: seq<Poll>, cfg: Config)
    requires cfg.max > 0 && cfg.spinCount > 0
    ensures var s := Run(actions, cfg);
      var t := Alone(s, polls, cfg);
      && 0 <= Work(t, cfg.spinCount)
      && Effective(s, polls, cfg) + Work(t, cfg.spinCount) <= Work(s, cfg.spinCount)
      && (Settled(t) || exists poll :: poll != Failed && Step(t, Waiter(poll), cfg) != t)
      && (Settled(t) ==> t.acks == t.wakes && (t.cq.dispatched == t.cq.enqueued <==> t.left == 0))
      && (Settled(t) && PollsSucceed(actions) && Failed !in polls ==> t.cq.dispatched == t.cq.enqueued)
  {
    hide Work;
    var s := Run(actions, cfg);
    var t := Alone(s, polls, cfg);
    AloneWorks(actions, polls, cfg);
    AloneIsRun(actions, polls, cfg);
    RunKeeps(actions + Turns(polls), cfg);
    WorkNonNegative(t, cfg);
    if !Settled(t) {
      var poll := CanMove(t, cfg);
    } else {
      assert |t.cq.enqueued| == |t.cq.dispatched| + |t.cq.queue|;
      assert t.cq.queue == [] ==> t.cq.dispatched + t.cq.queue == t.cq.dispatched;
      if PollsSucceed(actions) && Failed !in polls {
        assert PollsSucceed(actions + Turns(polls));
        NothingLeft(actions + Turns(polls), cfg);
      }
    }
  }

  /** The goroutine spins on: n polls in a row that find nothing leave it busy-polling while the empty
      ones are fewer than SpinCount, and lead to arming as soon as they are that many. */
  lemma {:induction false} SpinsThenArms(s: State, polls: seq<Poll>, cfg: Config)
    requires s.pc == BusyPolling && s.emptyRuns < cfg.spinCount && s.cq.queue == []
    requires s.emptyRuns + |polls| <= cfg.spinCount && forall p | p in polls :: !p.Took?
    ensures var t := Alone(s, polls, cfg);
      && t.cq == s.cq && t.emptyRuns == s.emptyRuns + |polls|
      && t.pc == if t.emptyRuns < cfg.spinCount then BusyPolling else Arming
  {
    if polls == [] {
    } else {
      assert polls[|polls| - 1] in polls;
      SpinsThenArms(s, polls[..|polls| - 1], cfg);
    }
  }

  /** A poll that finds something starts the count again; and after a wake the goroutine spins again only
      when nothing is left to take or a poll failed. */
  lemma FindingResets(s: State, poll: Poll, cfg: Config)
    requires Possible(s.cq, poll, cfg.max) && cfg.spinCount > 0
    ensures var t := Step(s, Waiter(poll), cfg);
      && (poll.Took? && (s.pc == BusyPolling || s.pc == PollingArmed) ==> t.pc == BusyPolling && t.emptyRuns == 0)
      && (t.pc == BusyPolling && s.pc != BusyPolling ==> t.emptyRuns == 0)
      && (t.pc == BusyPolling && s.pc != BusyPolling && s.pc != PollingArmed ==>
            s.cq.queue == [] || poll == Failed)
  {
  }
}
