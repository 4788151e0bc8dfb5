/** The pool of completion-queue pollers (pkg/cq/pool.go and the registry of pkg/cq/poller.go):
    least-loaded assignment, and the index from queues to pollers. A poller is named by its position
    in the pool, a queue by a number. */
module CqPool {

  datatype Pool = Pool(entries: seq<set<nat>>, cqMap: map<nat, nat>)

  function Empty(k: nat): Pool
  {
    Pool(seq(k, _ => {}), map[])
  }

  /** The first poller among the first `n` with the fewest queues. */
  function LeastLoaded(entries: seq<set<nat>>, n: nat): (i: nat)
    requires 0 < n <= |entries|
    ensures i < n
    ensures forall j | 0 <= j < n :: |entries[i]| <= |entries[j]|
    ensures forall j | 0 <= j < i :: |entries[i]| < |entries[j]|
  {
    if n == 1 then 0
    else
      var i := LeastLoaded(entries, n - 1);
      if |entries[n - 1]| < |entries[i]| then n - 1 else i
  }

  lemma LeastNext(entries: seq<set<nat>>, n: nat)
    requires 0 < n <= |entries|
    ensures LeastLoaded(entries, n) ==
      if n == 1 then 0
      else if |entries[n - 1]| < |entries[LeastLoaded(entries, n - 1)]| then n - 1
      else LeastLoaded(entries, n - 1)
  {
  }

  /** `Assign` records the poller for a new queue; registering it there is up to the caller. */
  function Assigned(p: Pool, cq: nat): Pool
    requires p.entries != []
  {
    p.(cqMap := p.cqMap[cq := LeastLoaded(p.entries, |p.entries|)])
  }

  function Registered(p: Pool, cq: nat, i: nat): Pool
  {
    if i < |p.entries| && cq !in p.entries[i] then p.(entries := p.entries[i := p.entries[i] + {cq}]) else p
  }

  function Released(p: Pool, cq: nat): Pool
  {
    if cq in p.cqMap then
      var i := p.cqMap[cq];
      p.(cqMap := p.cqMap - {cq},
         entries := if i < |p.entries| then p.entries[i := p.entries[i] - {cq}] else p.entries)
    else p
  }

  // ---------------------------------------------------------------- classes

  class Poller {
    var entries: set<nat>

    constructor ()
      ensures entries == {}
    {
      entries := {};
    }

    method AddCQ(cq: nat) returns (ok: bool)
      modifies this
      ensures ok <==> cq !in old(entries)
      ensures entries == old(entries) + {cq}
    {
      ok := cq !in entries;
      if ok {
        entries := entries + {cq};
      }
    }

    method RemoveCQ(cq: nat) returns (ok: bool)
      modifies this
      ensures ok <==> cq in old(entries)
      ensures entries == old(entries) - {cq}
    {
      ok := cq in entries;
      if ok {
        entries := entries - {cq};
      }
    }

    method NumCQs() returns (n: nat)
      ensures n == |entries|
    {
      n := |entries|;
    }
  }

  ghost function EntriesOf(pollers: seq<Poller>): (s: seq<set<nat>>)
    reads pollers
    ensures |s| == |pollers| && forall i | 0 <= i < |s| :: s[i] == pollers[i].entries
  {
    if pollers == [] then [] else EntriesOf(pollers[..|pollers| - 1]) + [pollers[|pollers| - 1].entries]
  }

  class PollerPool {
    const pollers: seq<Poller>
    var cqMap: map<nat, nat>
    var nextCq: nat
    var closed: bool

    constructor (pollers: seq<Poller>)
      requires pollers != []
      requires forall i, j | 0 <= i < j < |pollers| :: pollers[i] != pollers[j]
      requires forall i | 0 <= i < |pollers| :: pollers[i].entries == {}
      ensures this.pollers == pollers && !closed && Valid()
      ensures View() == Empty(|pollers|)
    {
      this.pollers := pollers;
      cqMap, nextCq, closed := map[], 0, false;
    }

    /** Distinct pollers; queues known to the pool were created by it. */
    ghost predicate Valid()
      reads this, pollers
    {
      && pollers != []
      && (forall i, j | 0 <= i < j < |pollers| :: pollers[i] != pollers[j])
      && (forall cq | cq in cqMap :: cq < nextCq && cqMap[cq] < |pollers|)
    }

    ghost function View(): Pool
      reads this, pollers
    {
      Pool(EntriesOf(pollers), cqMap)
    }

    /** Searches for the poller with the fewest queues and creates a queue for it; the device may
        refuse to create one. */
    method Assign(creates: bool) returns (ok: bool, index: nat, cq: nat)
      requires Valid()
      modifies this
      ensures Valid() && closed == old(closed) && (ok <==> !old(closed) && creates)
      ensures ok ==>
        && cq == old(nextCq) && cq !in old(cqMap)
        && View() == Assigned(old(View()), cq)
        && index == LeastLoaded(old(View()).entries, |pollers|)
      ensures !ok ==> View() == old(View())
    {
      hide LeastLoaded, EntriesOf;
      index, cq := 0, nextCq;
      if closed {
        return false, index, cq;
      }
      ghost var entries := View().entries;
      LeastNext(entries, 1);
      var minCount := pollers[0].NumCQs();
      for i := 1 to |pollers|
        modifies {}
        invariant index == LeastLoaded(entries, i) && minCount == |entries[index]|
      {
        LeastNext(entries, i + 1);
        var count := pollers[i].NumCQs();
        if count < minCount {
          minCount := count;
          index := i;
        }
      }
      if !creates {
        return false, index, cq;
      }
      nextCq := nextCq + 1;
      cqMap := cqMap[cq := index];
      ok := true;
    }

    method Release(cq: nat) returns (ok: bool)
      requires Valid()
      modifies this, pollers
      ensures Valid() && closed == old(closed) && (ok <==> cq in old(cqMap))
      ensures View() == Released(old(View()), cq)
    {
      if cq !in cqMap {
        return false;
      }
      ghost var before := View();
      var _ := pollers[cqMap[cq]].RemoveCQ(cq);
      assert View().entries == before.entries[cqMap[cq] := before.entries[cqMap[cq]] - {cq}];
      cqMap := cqMap - {cq};
      ok := true;
    }
  }

  // ---------------------------------------------------------------- balance

  /** `n` rounds of assigning a queue and registering it with the poller returned. */
  function Rounds(k: nat, n: nat): (p: Pool)
    requires k > 0
    ensures |p.entries| == k
  {
    if n == 0 then Empty(k)
    else
      var before := Rounds(k, n - 1);
      Registered(Assigned(before, n - 1), n - 1, LeastLoaded(before.entries, k))
  }

  /** The first `r` pollers have `q + 1` queues and the others `q`. */
  ghost predicate Levelled(p: Pool, q: nat, r: nat)
  {
    && r < |p.entries|
    && forall i | 0 <= i < |p.entries| :: |p.entries[i]| == q + (if i < r then 1 else 0)
  }

  ghost predicate OnlyBelow(p: Pool, n: nat)
  {
    forall i, cq | 0 <= i < |p.entries| && cq in p.entries[i] :: cq < n
  }

  lemma LeastOfLevelled(p: Pool, q: nat, r: nat)
    requires Levelled(p, q, r)
    ensures r < |p.entries| && LeastLoaded(p.entries, |p.entries|) == r
  {
    var i := LeastLoaded(p.entries, |p.entries|);
    assert |p.entries[i]| <= |p.entries[r]|;
  }

  /** One more round fills the next poller, and starts a new level when it was the last. */
  lemma RoundLevels(before: Pool, after: Pool, cq: nat, q: nat, r: nat)
    requires Levelled(before, q, r) && cq !in before.entries[r]
    requires after.entries == before.entries[r := before.entries[r] + {cq}]
    ensures if r + 1 == |before.entries| then Levelled(after, q + 1, 0) else Levelled(after, q, r + 1)
  {
    forall i | 0 <= i < |after.entries| && i != r ensures after.entries[i] == before.entries[i] {
    }
  }

  lemma {:induction false} RoundsLevel(k: nat, n: nat) returns (q: nat, r: nat)
    requires k > 0
    ensures n == q * k + r && Levelled(Rounds(k, n), q, r) && OnlyBelow(Rounds(k, n), n)
  {
    hide LeastLoaded, Levelled, OnlyBelow, Rounds;
    if n == 0 {
      q, r := 0, 0;
      NoneYet(k);
    } else {
      q, r := RoundsLevel(k, n - 1);
      LeastOfLevelled(Rounds(k, n - 1), q, r);
      RoundAdds(k, n - 1, r);
      RoundLevels(Rounds(k, n - 1), Rounds(k, n), n - 1, q, r);
      if r + 1 == k {
        assert (q + 1) * k == q * k + k;
        q, r := q + 1, 0;
      } else {
        r := r + 1;
      }
    }
  }

  lemma RoundAdds(k: nat, n: nat, r: nat)
    requires k > 0 && OnlyBelow(Rounds(k, n), n) && r == LeastLoaded(Rounds(k, n).entries, k)
    ensures n !in Rounds(k, n).entries[r] && OnlyBelow(Rounds(k, n + 1), n + 1)
    ensures Rounds(k, n + 1).entries == Rounds(k, n).entries[r := Rounds(k, n).entries[r] + {n}]
  {
  }

  lemma NoneYet(k: nat)
    requires k > 0
    ensures Levelled(Rounds(k, 0), 0, 0) && OnlyBelow(Rounds(k, 0), 0)
  {
  }

  /** From a fresh pool of k pollers, after n rounds every poller has the floor or the ceiling of n/k
      queues: precisely, the first n mod k pollers have one more than the others. */
  lemma Balance(k: nat, n: nat)
    requires k > 0
    ensures forall i | 0 <= i < k :: |Rounds(k, n).entries[i]| == n / k + (if i < n % k then 1 else 0)
  {
    hide Rounds;
    var q, r := RoundsLevel(k, n);
    Quotient(n, k, q, r);
  }

  lemma Quotient(n: nat, k: nat, q: nat, r: nat)
    requires k > 0 && n == q * k + r && r < k
    ensures n / k == q && n % k == r
  {
    var q', r' := n / k, n % k;
    assert n == q' * k + r';
    if q < q' {
      AtLeastNext(q, q', k);
    } else if q' < q {
      AtLeastNext(q', q, k);
    }
  }

  lemma AtLeastNext(a: nat, b: nat, k: nat)
    requires a < b
    ensures b * k >= a * k + k
  {
    var d := b - a - 1;
    assert b * k == (a + 1 + d) * k == a * k + k + d * k;
  }

  // ---------------------------------------------------------------- agreement

  /** What callers do with the pool. A caller registers a queue with the poller it was assigned, but
      possibly late. */
  datatype Op = DoAssign | DoAdd(cq: nat, poller: nat) | DoRelease(cq: nat)

  /** A pool, the number of queues created so far, and which poller each was assigned. */
  datatype State = State(pool: Pool, created: nat, given: map<nat, nat>)

  function Step(s: State, op: Op): State
    requires s.pool.entries != []
  {
    match op
    case DoAssign =>
      var i := LeastLoaded(s.pool.entries, |s.pool.entries|);
      State(Assigned(s.pool, s.created), s.created + 1, s.given[s.created := i])
    case DoAdd(cq, i) =>
      if cq in s.given && s.given[cq] == i then s.(pool := Registered(s.pool, cq, i)) else s
    case DoRelease(cq) => s.(pool := Released(s.pool, cq))
  }

  /** Each registered queue is registered with exactly the poller the index names. */
  ghost predicate Agrees(p: Pool)
  {
    forall i, cq | 0 <= i < |p.entries| && cq in p.entries[i] :: cq in p.cqMap && p.cqMap[cq] == i
  }

  ghost predicate Tracks(s: State)
  {
    && s.pool.entries != []
    && (forall cq | cq in s.given :: cq < s.created && s.given[cq] < |s.pool.entries|)
    && (forall cq | cq in s.pool.cqMap :: cq in s.given && s.given[cq] == s.pool.cqMap[cq])
    && (forall i, cq | 0 <= i < |s.pool.entries| && cq in s.pool.entries[i] :: cq in s.given && s.given[cq] == i)
  }

  lemma StepTracks(s: State, op: Op)
    requires Tracks(s)
    ensures Tracks(Step(s, op)) && |Step(s, op).pool.entries| == |s.pool.entries|
  {
    match op
    case DoAssign => assert s.created !in s.given;
    case DoAdd(_, _) =>
    case DoRelease(_) =>
  }

  /** A queue that was released is registered after all, with the poller it was assigned. */
  ghost predicate LateAdd(s: State, op: Op)
  {
    op.DoAdd? && op.cq in s.given && s.given[op.cq] == op.poller && op.cq !in s.pool.cqMap
  }

  /** Agreement survives every operation except one: registering, with the poller it was assigned, a
      queue that was released in the meantime. */
  lemma AgreementKeptIff(s: State, op: Op)
    requires Tracks(s) && Agrees(s.pool)
    ensures Agrees(Step(s, op).pool) <==> !LateAdd(s, op)
  {
    match op
    case DoAssign => assert s.created !in s.given;
    case DoAdd(cq, i) =>
      if cq in s.given && s.given[cq] == i && cq !in s.pool.cqMap {
        assert cq in Step(s, op).pool.entries[i];
      }
    case DoRelease(_) =>
  }

  /** A released queue is forgotten by the index and by every poller, and nothing else changes. */
  lemma ReleaseForgets(s: State, cq: nat)
    requires Tracks(s) && Agrees(s.pool)
    ensures var p := Step(s, DoRelease(cq)).pool;
      && cq !in p.cqMap && (forall i | 0 <= i < |p.entries| :: cq !in p.entries[i])
      && (forall c | c != cq :: c in p.cqMap <==> c in s.pool.cqMap)
      && (forall c | c in p.cqMap :: p.cqMap[c] == s.pool.cqMap[c])
      && (forall i, c | 0 <= i < |p.entries| && c != cq :: c in p.entries[i] <==> c in s.pool.entries[i])
  {
  }

  function Run(k: nat, ops: seq<Op>): (s: State)
    requires k > 0
    ensures |s.pool.entries| == k
  {
    if ops == [] then State(Empty(k), 0, map[])
    else Step(Run(k, ops[..|ops| - 1]), ops[|ops| - 1])
  }

  /** No registration comes after the release of its queue. */
  ghost predicate NoLateAdd(k: nat, ops: seq<Op>)
    requires k > 0
  {
    forall n | 0 <= n < |ops| && ops[n].DoAdd? :: !LateAdd(Run(k, ops[..n]), ops[n])
  }

  lemma {:induction false} Agreement(k: nat, ops: seq<Op>)
    requires k > 0 && NoLateAdd(k, ops)
    ensures Tracks(Run(k, ops)) && Agrees(Run(k, ops).pool)
  {
    if ops == [] {
    } else {
      var init, last := ops[..|ops| - 1], ops[|ops| - 1];
      assert forall n | 0 <= n < |init| :: init[..n] == ops[..n];
      Agreement(k, init);
      StepTracks(Run(k, init), last);
      AgreementKeptIff(Run(k, init), last);
    }
  }

  /** Concrete run: a queue assigned, released, and only then registered is registered without being
      in the index. */
  lemma LateAddRun(k: nat)
    requires k > 0
    ensures var s := Run(k, [DoAssign, DoRelease(0), DoAdd(0, 0)]);
      0 in s.pool.entries[0] && 0 !in s.pool.cqMap && !Agrees(s.pool)
  {
    var ops := [DoAssign, DoRelease(0), DoAdd(0, 0)];
    assert ops[..2] == [DoAssign, DoRelease(0)] && ops[..2][..1] == [DoAssign] && [DoAssign][..0] == [];
    var s0, s1, s2 := Run(k, []), Run(k, [DoAssign]), Run(k, ops[..2]);
    FreshLeast(k);
    assert s1 == Step(s0, DoAssign) && s1.given[0] == 0;
    assert s2 == Step(s1, DoRelease(0)) && 0 !in s2.pool.cqMap && s2.given == s1.given;
    assert Run(k, ops) == Step(s2, DoAdd(0, 0));
    assert 0 in Registered(s2.pool, 0, 0).entries[0];
  }

  lemma FreshLeast(k: nat)
    requires k > 0
    ensures LeastLoaded(Empty(k).entries, k) == 0
  {
    assert |Empty(k).entries[0]| == 0;
  }
}
