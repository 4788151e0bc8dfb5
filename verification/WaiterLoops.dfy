/** The two waiter loops of pkg/cq/poller.go as loops. A schedule says who moves next, the device or
    the goroutine, and what each poll reports; each loop is proved to go through exactly the states
    of its step system, so that what holds over all runs of that holds at every point of the loop.
    The loop ends where its schedule ends, as it does when its context is cancelled. */
module EventWaiterLoop {
  import opened CompletionQueue
  import opened EventWaiter

  class Waiter {
    const script: seq<Action>
    const max: nat
    var t: nat                            // turns taken
    var cq: Cq
    var wakes: nat
    var acks: nat
    ghost var left: nat

    constructor (script: seq<Action>, max: nat)
      ensures this.script == script && this.max == max && At(Arming)
    {
      this.script, this.max := script, max;
      t, cq, wakes, acks, left := 0, EMPTY_CQ, 0, 0, 0;
    }

    /** The goroutine is at `pc` and its variables are those of the step system. */
    ghost predicate At(pc: Pc)
      reads this
    {
      t <= |script| && Run(script[..t], max) == State(cq, pc, wakes, acks, left)
    }

    lemma NextTurn(pc: Pc)
      requires At(pc) && t < |script|
      ensures Run(script[..t + 1], max) == Step(State(cq, pc, wakes, acks, left), script[t], max)
    {
      assert script[..t + 1][..t] == script[..t];
    }

    /** The device acts until it is the goroutine's turn, if there is one. */
    method Turn(ghost pc: Pc) returns (mine: bool, poll: Poll)
      requires At(pc)
      modifies this`t, this`cq
      ensures At(pc) && old(t) <= t
      ensures if mine then t < |script| && script[t] == Action.Waiter(poll) else t == |script|
    {
      while t < |script| && script[t].Device?
        invariant At(pc) && old(t) <= t
        decreases |script| - t
      {
        NextTurn(pc);
        cq := cq.Add(script[t].c);
        t := t + 1;
      }
      mine := t < |script|;
      poll := if mine then script[t].poll else Nothing;
    }

    /** One poll, in either drain loop. */
    method PollSingleCQ(ghost pc: Pc) returns (running: bool, found: nat)
      requires At(pc) && (pc == DrainingArmed || pc == DrainingWoken)
      modifies this`t, this`cq, this`left
      ensures if !running then At(pc) && t == |script| else old(t) < t
      ensures running ==> At(if found > 0 then pc else if pc == DrainingArmed then Parked else Arming)
    {
      hide Run;
      var mine, poll := Turn(pc);
      while mine && !Possible(cq, poll, max)
        invariant At(pc) && old(t) <= t
        invariant if mine then t < |script| && script[t] == Action.Waiter(poll) else t == |script|
        decreases |script| - t
      {
        NextTurn(pc);
        t := t + 1;
        mine, poll := Turn(pc);
      }
      if !mine {
        return false, 0;
      }
      NextTurn(pc);
      t := t + 1;
      if poll.Took? {
        cq := cq.Take(poll.k);
        return true, poll.k;
      }
      if pc == DrainingArmed {
        left := |cq.queue|;
      }
      return true, 0;
    }

    method Drain(ghost pc: Pc) returns (running: bool)
      requires At(pc) && (pc == DrainingArmed || pc == DrainingWoken)
      modifies this`t, this`cq, this`left
      ensures if running then At(if pc == DrainingArmed then Parked else Arming) && old(t) < t
              else At(pc) && t == |script|
    {
      var found;
      running, found := PollSingleCQ(pc);
      while running && found > 0
        invariant if !running then At(pc) && t == |script| else old(t) < t
        invariant running ==> At(if found > 0 then pc else if pc == DrainingArmed then Parked else Arming)
        decreases |script| - t, running
      {
        running, found := PollSingleCQ(pc);
      }
    }

    /** Blocks until an event can be read. */
    method Park() returns (running: bool)
      requires At(Parked)
      modifies this`t, this`cq, this`wakes
      ensures old(t) <= t && if running then At(Acking) else At(Parked) && t == |script|
    {
      hide Run;
      var mine, poll := Turn(Parked);
      while mine && cq.events == 0
        invariant At(Parked) && old(t) <= t
        invariant if mine then t < |script| && script[t].Waiter? else t == |script|
        decreases |script| - t
      {
        NextTurn(Parked);
        t := t + 1;
        mine, poll := Turn(Parked);
      }
      running := mine;
      if mine {
        NextTurn(Parked);
        t, cq, wakes := t + 1, cq.ReadEvent(), wakes + 1;
      }
    }

    method ReqNotify() returns (running: bool)
      requires At(Arming)
      modifies this`t, this`cq
      ensures if running then At(DrainingArmed) && old(t) < t else At(Arming) && t == |script|
    {
      var mine, _ := Turn(Arming);
      running := mine;
      if running {
        NextTurn(Arming);
        t, cq := t + 1, cq.Arm();
      }
    }

    method AckEvents() returns (running: bool)
      requires At(Acking)
      modifies this`t, this`cq, this`acks
      ensures old(t) <= t && if running then At(DrainingWoken) else At(Acking) && t == |script|
    {
      var mine, _ := Turn(Acking);
      running := mine;
      if running {
        NextTurn(Acking);
        t, acks := t + 1, acks + 1;
      }
    }

    /** Arm, drain, park, acknowledge, drain, and again. */
    method EventWaiterLoop() returns (ghost pc: Pc)
      requires At(Arming)
      modifies this`t, this`cq, this`wakes, this`acks, this`left
      ensures t == |script| && Run(script, max) == State(cq, pc, wakes, acks, left)
    {
      hide Run;
      assert script[..|script|] == script;
      while true
        invariant At(Arming)
        decreases |script| - t
      {
        var running := ReqNotify();
        if !running {
          return Arming;
        }
        running := Drain(DrainingArmed);
        if !running {
          return DrainingArmed;
        }
        running := Park();
        if !running {
          return Parked;
        }
        running := AckEvents();
        if !running {
          return Acking;
        }
        running := Drain(DrainingWoken);
        if !running {
          return DrainingWoken;
        }
      }
    }
  }
}

module SmartWaiterLoop {
  import opened CompletionQueue
  import opened SmartWaiter

  class Waiter {
    const script: seq<Action>
    const cfg: Config
    var t: nat
    var cq: Cq
    var emptyRuns: nat
    var wakes: nat
    var acks: nat
    ghost var left: nat
    ghost var idle: nat

    constructor (script: seq<Action>, cfg: Config)
      ensures this.script == script && this.cfg == cfg && At(BusyPolling)
    {
      this.script, this.cfg := script, cfg;
      t, cq, emptyRuns, wakes, acks, left, idle := 0, EMPTY_CQ, 0, 0, 0, 0, 0;
    }

    ghost predicate At(pc: Pc)
      reads this
    {
      t <= |script| && Run(script[..t], cfg) == State(cq, pc, emptyRuns, wakes, acks, left, idle)
    }

    lemma NextTurn(pc: Pc)
      requires At(pc) && t < |script|
      ensures Run(script[..t + 1], cfg) == Step(State(cq, pc, emptyRuns, wakes, acks, left, idle), script[t], cfg)
    {
      assert script[..t + 1][..t] == script[..t];
    }

    method Turn(ghost pc: Pc) returns (mine: bool, poll: Poll)
      requires At(pc)
      modifies this`t, this`cq
      ensures At(pc) && old(t) <= t
      ensures if mine then t < |script| && script[t] == Action.Waiter(poll) else t == |script|
    {
      while t < |script| && script[t].Device?
        invariant At(pc) && old(t) <= t
        decreases |script| - t
      {
        NextTurn(pc);
        cq := cq.Add(script[t].c);
        t := t + 1;
      }
      mine := t < |script|;
      poll := if mine then script[t].poll else Nothing;
    }

    /** Waits for a poll that reports what it may; the goroutine's own updates follow in the caller. */
    method PollSingleCQ(ghost pc: Pc) returns (running: bool, poll: Poll)
      requires At(pc) && (pc == BusyPolling || pc == PollingArmed || pc == Draining)
      modifies this`t, this`cq
      ensures At(pc) && old(t) <= t
      ensures if running then t < |script| && script[t] == Action.Waiter(poll) && Possible(cq, poll, cfg.max)
              else t == |script|
    {
      hide Run;
      running, poll := Turn(pc);
      while running && !Possible(cq, poll, cfg.max)
        invariant At(pc) && old(t) <= t
        invariant if running then t < |script| && script[t] == Action.Waiter(poll) else t == |script|
        decreases |script| - t
      {
        NextTurn(pc);
        t := t + 1;
        running, poll := Turn(pc);
      }
    }

    /** Takes what the poll found. */
    method Dispatch(poll: Poll) returns (found: nat)
      requires t < |script| && Possible(cq, poll, cfg.max)
      modifies this`t, this`cq
      ensures t == old(t) + 1 && cq == Polled(old(cq), poll) && (found > 0 <==> poll.Took?)
    {
      t := t + 1;
      found := 0;
      if poll.Took? {
        cq := cq.Take(poll.k);
        found := poll.k;
      }
    }

    method Park() returns (running: bool)
      requires At(Parked)
      modifies this`t, this`cq, this`wakes
      ensures old(t) <= t && if running then At(Acking) else At(Parked) && t == |script|
    {
      hide Run;
      var mine, poll := Turn(Parked);
      while mine && cq.events == 0
        invariant At(Parked) && old(t) <= t
        invariant if mine then t < |script| && script[t].Waiter? else t == |script|
        decreases |script| - t
      {
        NextTurn(Parked);
        t := t + 1;
        mine, poll := Turn(Parked);
      }
      running := mine;
      if mine {
        NextTurn(Parked);
        t, cq, wakes := t + 1, cq.ReadEvent(), wakes + 1;
      }
    }

    method ReqNotify() returns (running: bool)
      requires At(Arming)
      modifies this`t, this`cq
      ensures if running then At(PollingArmed) && old(t) < t else At(Arming) && t == |script|
    {
      var mine, _ := Turn(Arming);
      running := mine;
      if running {
        NextTurn(Arming);
        t, cq := t + 1, cq.Arm();
      }
    }

    method AckEvents() returns (running: bool)
      requires At(Acking)
      modifies this`t, this`cq, this`acks, this`idle
      ensures old(t) <= t && if running then At(Draining) else At(Acking) && t == |script|
    {
      var mine, _ := Turn(Acking);
      running := mine;
      if running {
        NextTurn(Acking);
        t, acks, idle := t + 1, acks + 1, 0;
      }
    }

    /** The drain after a wake; it ends with `emptyRuns` reset. */
    method Drain() returns (running: bool)
      requires At(Draining)
      modifies this`t, this`cq, this`emptyRuns, this`idle
      ensures if running then At(BusyPolling) && old(t) < t else At(Draining) && t == |script|
    {
      hide Run;
      while true
        invariant At(Draining) && old(t) <= t
        decreases |script| - t
      {
        var poll;
        running, poll := PollSingleCQ(Draining);
        if !running {
          return;
        }
        NextTurn(Draining);
        var found := Dispatch(poll);
        if found == 0 {
          emptyRuns, idle := 0, idle + 1;
          return;
        }
        idle := 0;
      }
    }

    /** The busy-poll phase: polls until enough polls in a row found nothing. */
    method BusyPoll() returns (running: bool)
      requires At(BusyPolling)
      modifies this`t, this`cq, this`emptyRuns, this`idle
      ensures if running then At(Arming) && old(t) < t else At(BusyPolling) && t == |script|
    {
      hide Run;
      while true
        invariant At(BusyPolling) && old(t) <= t
        decreases |script| - t
      {
        var poll;
        running, poll := PollSingleCQ(BusyPolling);
        if !running {
          return;
        }
        NextTurn(BusyPolling);
        var found := Dispatch(poll);
        if found > 0 {
          emptyRuns, idle := 0, 0;
        } else {
          emptyRuns, idle := emptyRuns + 1, idle + 1;
          if emptyRuns >= cfg.spinCount {
            return;
          }
        }
      }
    }

    /** The single poll after arming. */
    method PollOnce() returns (running: bool, found: nat)
      requires At(PollingArmed)
      modifies this`t, this`cq, this`emptyRuns, this`idle, this`left
      ensures if running then At(if found > 0 then BusyPolling else Parked) && old(t) < t
              else At(PollingArmed) && t == |script|
    {
      hide Run;
      found := 0;
      var poll;
      running, poll := PollSingleCQ(PollingArmed);
      if running {
        NextTurn(PollingArmed);
        found := Dispatch(poll);
        if found > 0 {
          emptyRuns, idle := 0, 0;
        } else {
          left, idle := |cq.queue|, idle + 1;
        }
      }
    }

    method SmartWaiterLoop() returns (ghost pc: Pc)
      requires At(BusyPolling)
      modifies this`t, this`cq, this`emptyRuns, this`wakes, this`acks, this`left, this`idle
      ensures t == |script|
      ensures Run(script, cfg) == State(cq, pc, emptyRuns, wakes, acks, left, idle)
    {
      hide Run;
      assert script[..|script|] == script;
      while true
        invariant At(BusyPolling)
        decreases |script| - t
      {
        var running := BusyPoll();
        if !running {
          return BusyPolling;
        }
        running := ReqNotify();
        if !running {
          return Arming;
        }
        var found;
        running, found := PollOnce();
        if !running {
          return PollingArmed;
        }
        if found == 0 {
          running := Park();
          if !running {
            return Parked;
          }
          running := AckEvents();
          if !running {
            return Acking;
          }
          running := Drain();
          if !running {
            return Draining;
          }
        }
      }
    }
  }
}
