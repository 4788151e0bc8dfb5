/** A completion queue with its event channel, as the device presents it. Notification follows
    section 11.4.2.2 (Request Completion Notification) of the InfiniBand Architecture Specification,
    Volume 1: only a completion added after the queue was armed raises an event, and it disarms the
    queue. */
module CompletionQueue {

  datatype WorkCompletion = WorkCompletion(wrid: nat, success: bool)

  datatype Cq = Cq(
    queue: seq<WorkCompletion>,
    armed: bool,
    events: nat,                          // events not yet read from the channel
    enqueued: seq<WorkCompletion>,        // history: every completion the device added
    dispatched: seq<WorkCompletion>)      // history: every completion handed to the handler
  {
    /** The device adds a completion. */
    function Add(c: WorkCompletion): Cq
    {
      this.(queue := queue + [c], enqueued := enqueued + [c], armed := false,
            events := if armed then events + 1 else events)
    }

    function Arm(): Cq
    {
      this.(armed := true)
    }

    function ReadEvent(): Cq
      requires events > 0
    {
      this.(events := events - 1)
    }

    /** A poll takes some completions from the front, and they are dispatched. */
    function Take(k: nat): Cq
      requires k <= |queue|
    {
      this.(queue := queue[k..], dispatched := dispatched + queue[..k])
    }

    /** Dispatched completions are an in-order, exactly-once prefix of those added. */
    ghost predicate Exact()
    {
      dispatched + queue == enqueued
    }
  }

  const EMPTY_CQ := Cq([], false, 0, [], [])

  /** What a poll of up to `max` completions may report: it finds nothing only if the queue is empty;
      or it fails. */
  datatype Poll = Took(k: nat) | Nothing | Failed

  predicate Possible(cq: Cq, poll: Poll, max: nat)
  {
    match poll
    case Took(k) => 0 < k <= |cq.queue| && k <= max
    case Nothing => cq.queue == []
    case Failed => true
  }

  function Polled(cq: Cq, poll: Poll): Cq
    requires poll.Took? ==> poll.k <= |cq.queue|
  {
    if poll.Took? then cq.Take(poll.k) else cq
  }

  lemma AddExact(cq: Cq, c: WorkCompletion)
    requires cq.Exact()
    ensures cq.Add(c).Exact()
  {
    assert cq.dispatched + (cq.queue + [c]) == (cq.dispatched + cq.queue) + [c];
  }

  lemma PollExact(cq: Cq, poll: Poll, max: nat)
    requires cq.Exact() && Possible(cq, poll, max)
    ensures Polled(cq, poll).Exact()
  {
    if poll.Took? {
      var k := poll.k;
      assert cq.queue == cq.queue[..k] + cq.queue[k..];
      assert (cq.dispatched + cq.queue[..k]) + cq.queue[k..] == cq.dispatched + cq.queue;
    }
  }

  // ---------------------------------------------------------------- dispatch

  /** A call of a completion handler. */
  datatype Call = Completed(wc: WorkCompletion) | Errored(wc: WorkCompletion) | PollErrored

  function CallFor(wc: WorkCompletion): Call
  {
    if wc.success then Completed(wc) else Errored(wc)
  }

  function Calls(wcs: seq<WorkCompletion>): (calls: seq<Call>)
    ensures |calls| == |wcs| && forall i | 0 <= i < |wcs| :: calls[i] == CallFor(wcs[i])
  {
    seq(|wcs|, i requires 0 <= i < |wcs| => CallFor(wcs[i]))
  }

  function Successes(wcs: seq<WorkCompletion>): (n: nat)
    ensures n <= |wcs|
  {
    if wcs == [] then 0
    else Successes(wcs[..|wcs| - 1]) + (if wcs[|wcs| - 1].success then 1 else 0)
  }

  /** The completions counted as such are exactly the successful ones. */
  lemma {:induction false} SuccessesAreThose(wcs: seq<WorkCompletion>)
    ensures Successes(wcs) == |set i | 0 <= i < |wcs| && wcs[i].success|
  {
    var those := set i | 0 <= i < |wcs| && wcs[i].success;
    if wcs == [] {
      assert those == {};
    } else {
      var last := |wcs| - 1;
      SuccessesAreThose(wcs[..last]);
      var before := set i | 0 <= i < |wcs[..last]| && wcs[..last][i].success;
      assert those == if wcs[last].success then before + {last} else before;
    }
  }

  /** The dispatch side of a poller: counters, and the handler calls made. */
  class Dispatcher {
    var completions: nat
    var errors: nat
    ghost var calls: seq<Call>

    constructor ()
      ensures completions == errors == 0 && calls == []
    {
      completions, errors, calls := 0, 0, [];
    }

    /** Hands every polled completion to the handler, in order, successes and failures to their own
        entry; a failed poll is reported and counts as finding nothing. */
    method PollSingleCQ(failed: bool, wcs: seq<WorkCompletion>) returns (found: nat)
      modifies this
      ensures found == if failed then 0 else |wcs|
      ensures failed ==>
        completions == old(completions) && errors == old(errors) + 1 && calls == old(calls) + [PollErrored]
      ensures !failed ==>
        && calls == old(calls) + Calls(wcs)
        && completions == old(completions) + Successes(wcs)
        && errors == old(errors) + |wcs| - Successes(wcs)
      ensures !failed ==>
        && |calls| == |old(calls)| + |wcs| && calls[..|old(calls)|] == old(calls)
        && (forall i | 0 <= i < |wcs| ::
              calls[|old(calls)| + i] == if wcs[i].success then Completed(wcs[i]) else Errored(wcs[i]))
    {
      hide Calls, Successes, CallFor;
      found := 0;
      if failed {
        errors := errors + 1;
        calls := calls + [PollErrored];
        return;
      }
      NoneDispatched(old(calls), wcs);
      for i := 0 to |wcs|
        invariant found == i
        invariant calls == old(calls) + Calls(wcs[..i])
        invariant completions == old(completions) + Successes(wcs[..i])
        invariant errors == old(errors) + i - Successes(wcs[..i])
      {
        OneDispatched(old(calls), wcs, i);
        if wcs[i].success {
          completions := completions + 1;
          calls := calls + [Completed(wcs[i])];
        } else {
          errors := errors + 1;
          calls := calls + [Errored(wcs[i])];
        }
        found := found + 1;
      }
      AllDispatched(old(calls), wcs);
    }
  }

  lemma NoneDispatched(calls: seq<Call>, wcs: seq<WorkCompletion>)
    ensures calls + Calls(wcs[..0]) == calls && Successes(wcs[..0]) == 0
  {
  }

  lemma OneDispatched(calls: seq<Call>, wcs: seq<WorkCompletion>, i: nat)
    requires i < |wcs|
    ensures var call := if wcs[i].success then Completed(wcs[i]) else Errored(wcs[i]);
      calls + Calls(wcs[..i + 1]) == calls + Calls(wcs[..i]) + [call]
    ensures Successes(wcs[..i + 1]) == Successes(wcs[..i]) + (if wcs[i].success then 1 else 0)
  {
    assert wcs[..i + 1][..i] == wcs[..i];
    assert Calls(wcs[..i + 1]) == Calls(wcs[..i]) + [CallFor(wcs[i])];
  }

  /** Index by index, each completion went to its own entry. */
  lemma AllDispatched(calls: seq<Call>, wcs: seq<WorkCompletion>)
    ensures wcs[..|wcs|] == wcs
    ensures var after := calls + Calls(wcs);
      && |after| == |calls| + |wcs| && after[..|calls|] == calls
      && (forall i | 0 <= i < |wcs| ::
            after[|calls| + i] == if wcs[i].success then Completed(wcs[i]) else Errored(wcs[i]))
  {
  }
}

/** The per-queue goroutine of event mode (pkg/cq/poller.go, eventWaiterLoop). */
module EventWaiter {
  import opened CompletionQueue

  datatype Pc = Arming | DrainingArmed | Parked | Acking | DrainingWoken

  datatype State = State(
    cq: Cq,
    pc: Pc,
    wakes: nat,                           // successful reads of the event channel
    acks: nat,                            // events acknowledged
    left: nat)                            // history: completions the poll before parking left behind

  const INITIAL := State(EMPTY_CQ, Arming, 0, 0, 0)

  /** Either the device adds a completion, or the goroutine moves; `poll` is what its poll reports. */
  datatype Action = Device(c: WorkCompletion) | Waiter(poll: Poll)

  function Step(s: State, a: Action, max: nat): State
  {
    match a
    case Device(c) => s.(cq := s.cq.Add(c))
    case Waiter(poll) =>
      match s.pc
      case Arming => s.(cq := s.cq.Arm(), pc := DrainingArmed)
      case DrainingArmed =>
        if !Possible(s.cq, poll, max) then s
        else if poll.Took? then s.(cq := s.cq.Take(poll.k))
        else s.(pc := Parked, left := |s.cq.queue|)
      case Parked =>
        if s.cq.events == 0 then s else s.(cq := s.cq.ReadEvent(), wakes := s.wakes + 1, pc := Acking)
      case Acking => s.(acks := s.acks + 1, pc := DrainingWoken)
      case DrainingWoken =>
        if !Possible(s.cq, poll, max) then s
        else if poll.Took? then s.(cq := s.cq.Take(poll.k))
        else s.(pc := Arming)
  }

  function Run(actions: seq<Action>, max: nat): State
  {
    if actions == [] then INITIAL
    else Step(Run(actions[..|actions| - 1], max), actions[|actions| - 1], max)
  }

  /** Blocked in the read while completions wait and no event will wake it. */
  ghost predicate Stuck(s: State)
  {
    s.pc == Parked && s.cq.queue != [] && s.cq.events == 0
  }

  ghost predicate Inv(s: State)
  {
    && s.cq.Exact()
    && s.wakes == s.acks + (if s.pc == Acking then 1 else 0)
    && (s.pc == DrainingArmed || s.pc == Parked ==> s.cq.armed || s.cq.events > 0)
    && (s.pc == Parked && s.cq.events == 0 ==> |s.cq.queue| == s.left)
  }

  lemma StepKeeps(s: State, a: Action, max: nat)
    requires Inv(s)
    ensures Inv(Step(s, a, max))
  {
    match a
    case Device(c) => AddExact(s.cq, c);
    case Waiter(poll) =>
      if Possible(s.cq, poll, max) {
        PollExact(s.cq, poll, max);
      }
  }

  lemma {:induction false} RunKeeps(actions: seq<Action>, max: nat)
    ensures Inv(Run(actions, max))
  {
    if actions == [] {
    } else {
      RunKeeps(actions[..|actions| - 1], max);
      StepKeeps(Run(actions[..|actions| - 1], max), actions[|actions| - 1], max);
    }
  }

  ghost predicate PollsSucceed(actions: seq<Action>)
  {
    forall i | 0 <= i < |actions| && actions[i].Waiter? :: actions[i].poll != Failed
  }

  lemma {:induction false} NothingLeft(actions: seq<Action>, max: nat)
    requires PollsSucceed(actions)
    ensures Run(actions, max).left == 0
  {
    if actions == [] {
    } else {
      NothingLeft(actions[..|actions| - 1], max);
    }
  }

  /** No completion is lost while polls succeed: a parked waiter with completions waiting has an
      event to read, and is armed or has an event in any case. Over every run, dispatched
      completions are an exactly-once, in-order prefix of those added, and every event read is
      acknowledged. */
  lemma NoLostCompletion(actions: seq<Action>, max: nat)
    ensures var s := Run(actions, max);
      && s.cq.dispatched + s.cq.queue == s.cq.enqueued
      && (s.pc == Parked ==> s.cq.armed || s.cq.events > 0)
      && s.acks <= s.wakes <= s.acks + 1 && (s.pc == Arming ==> s.acks == s.wakes)
      && (PollsSucceed(actions) ==> !Stuck(s))
  {
    RunKeeps(actions, max);
    if PollsSucceed(actions) {
      NothingLeft(actions, max);
    }
  }

  /** Exactly one event puts the waiter to sleep on waiting completions: a poll that fails in the
      drain after arming, when completions are there already and no event is pending. */
  lemma BecomesStuckIff(s: State, a: Action, max: nat)
    requires Inv(s) && !Stuck(s)
    ensures Stuck(Step(s, a, max)) <==>
      s.pc == DrainingArmed && a == Waiter(Failed) && s.cq.queue != [] && s.cq.events == 0
  {
  }

  /** Over all runs, failed polls included: a parked waiter is stuck iff no event is pending and the
      poll that ended its drain left completions behind. */
  lemma StuckIff(actions: seq<Action>, max: nat)
    requires Run(actions, max).pc == Parked
    ensures var s := Run(actions, max); Stuck(s) <==> s.cq.events == 0 && s.left > 0
  {
    RunKeeps(actions, max);
  }

  /** One failed poll after arming is enough; and the next completion wakes the waiter. */
  lemma FailedPollSticks(c: WorkCompletion, d: WorkCompletion, max: nat)
    ensures var s := Run([Device(c), Waiter(Failed), Waiter(Failed)], max);
      Stuck(s) && !Stuck(Step(s, Device(d), max))
  {
    var actions := [Device(c), Waiter(Failed), Waiter(Failed)];
    assert actions[..2] == [Device(c), Waiter(Failed)];
    assert actions[..2][..1] == [Device(c)];
    assert actions[..1][..0] == [];
    assert Run([Device(c)], max) == Step(INITIAL, Device(c), max);
    assert Run(actions[..2], max) == Step(Run([Device(c)], max), Waiter(Failed), max);
  }
}

/** The per-queue goroutine of smart mode (pkg/cq/poller.go, smartWaiterLoop). */
module SmartWaiter {
  import opened CompletionQueue

  datatype Pc = BusyPolling | Arming | PollingArmed | Parked | Acking | Draining

  datatype State = State(
    cq: Cq,
    pc: Pc,
    emptyRuns: nat,
    wakes: nat,
    acks: nat,
    left: nat,                            // history: completions the poll before parking left behind
    idle: nat)                            // history: polls that found nothing since the last that did, or the last wake

  const INITIAL := State(EMPTY_CQ, BusyPolling, 0, 0, 0, 0, 0)

  datatype Config = Config(max: nat, spinCount: nat)

  datatype Action = Device(c: WorkCompletion) | Waiter(poll: Poll)

  function Step(s: State, a: Action, cfg: Config): State
  {
    match a
    case Device(c) => s.(cq := s.cq.Add(c))
    case Waiter(poll) =>
      match s.pc
      case BusyPolling =>
        if !Possible(s.cq, poll, cfg.max) then s
        else if poll.Took? then s.(cq := s.cq.Take(poll.k), emptyRuns := 0, idle := 0)
        else s.(emptyRuns := s.emptyRuns + 1, idle := s.idle + 1,
                pc := if s.emptyRuns + 1 < cfg.spinCount then BusyPolling else Arming)
      case Arming => s.(cq := s.cq.Arm(), pc := PollingArmed)
      case PollingArmed =>
        if !Possible(s.cq, poll, cfg.max) then s
        else if poll.Took? then s.(cq := s.cq.Take(poll.k), emptyRuns := 0, idle := 0, pc := BusyPolling)
        else s.(pc := Parked, left := |s.cq.queue|, idle := s.idle + 1)
      case Parked =>
        if s.cq.events == 0 then s else s.(cq := s.cq.ReadEvent(), wakes := s.wakes + 1, pc := Acking)
      case Acking => s.(acks := s.acks + 1, idle := 0, pc := Draining)
      case Draining =>
        if !Possible(s.cq, poll, cfg.max) then s
        else if poll.Took? then s.(cq := s.cq.Take(poll.k), idle := 0)
        else s.(pc := BusyPolling, emptyRuns := 0, idle := s.idle + 1)
  }

  function Run(actions: seq<Action>, cfg: Config): State
  {
    if actions == [] then INITIAL
    else Step(Run(actions[..|actions| - 1], cfg), actions[|actions| - 1], cfg)
  }

  ghost predicate Stuck(s: State)
  {
    s.pc == Parked && s.cq.queue != [] && s.cq.events == 0
  }

  ghost predicate Inv(s: State, cfg: Config)
  {
    && s.cq.Exact()
    && s.wakes == s.acks + (if s.pc == Acking then 1 else 0)
    && (s.pc == PollingArmed || s.pc == Parked ==> s.cq.armed || s.cq.events > 0)
    && (s.pc == Parked && s.cq.events == 0 ==> |s.cq.queue| == s.left)
    && (s.pc == BusyPolling ==> s.emptyRuns < cfg.spinCount && s.emptyRuns <= s.idle <= s.emptyRuns + 1)
    && (s.pc == Arming || s.pc == PollingArmed ==> cfg.spinCount <= s.idle <= cfg.spinCount + 1)
    && (s.pc == Parked ==> cfg.spinCount + 1 <= s.idle <= cfg.spinCount + 2)
    && (s.pc == Draining ==> s.idle == 0)
  }

  lemma StepKeeps(s: State, a: Action, cfg: Config)
    requires Inv(s, cfg) && cfg.spinCount > 0
    ensures Inv(Step(s, a, cfg), cfg)
  {
    match a
    case Device(c) => AddExact(s.cq, c);
    case Waiter(poll) =>
      if Possible(s.cq, poll, cfg.max) {
        PollExact(s.cq, poll, cfg.max);
      }
  }

  lemma {:induction false} RunKeeps(actions: seq<Action>, cfg: Config)
    requires cfg.spinCount > 0
    ensures Inv(Run(actions, cfg), cfg)
  {
    if actions == [] {
    } else {
      RunKeeps(actions[..|actions| - 1], cfg);
      StepKeeps(Run(actions[..|actions| - 1], cfg), actions[|actions| - 1], cfg);
    }
  }

  /** As in event mode, with the single poll after arming. */
  lemma BecomesStuckIff(s: State, a: Action, cfg: Config)
    requires Inv(s, cfg) && !Stuck(s)
    ensures Stuck(Step(s, a, cfg)) <==>
      s.pc == PollingArmed && a == Waiter(Failed) && s.cq.queue != [] && s.cq.events == 0
  {
  }

  ghost predicate PollsSucceed(actions: seq<Action>)
  {
    forall i | 0 <= i < |actions| && actions[i].Waiter? :: actions[i].poll != Failed
  }

  lemma {:induction false} NothingLeft(actions: seq<Action>, cfg: Config)
    requires PollsSucceed(actions)
    ensures Run(actions, cfg).left == 0
  {
    if actions == [] {
    } else {
      NothingLeft(actions[..|actions| - 1], cfg);
    }
  }

  /** The guarantee of event mode, with a single poll after arming and with stale events that an
      earlier arming may have left; and the goroutine parks only after more than `spinCount` polls
      in a row found nothing since the last one that did or the last wake. */
  lemma NoLostCompletion(actions: seq<Action>, cfg: Config)
    requires cfg.spinCount > 0
    ensures var s := Run(actions, cfg);
      && s.cq.dispatched + s.cq.queue == s.cq.enqueued
      && (s.pc == Parked ==> s.cq.armed || s.cq.events > 0)
      && (s.pc == Parked ==> s.idle >= cfg.spinCount + 1)
      && (s.pc == BusyPolling ==> s.acks == s.wakes)
      && (PollsSucceed(actions) ==> !Stuck(s))
      && (s.pc == Parked ==> (Stuck(s) <==> s.cq.events == 0 && s.left > 0))
  {
    RunKeeps(actions, cfg);
    if PollsSucceed(actions) {
      NothingLeft(actions, cfg);
    }
  }
}
