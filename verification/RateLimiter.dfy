/** The token bucket of the benchmark (cmd/golinker-bench/ratelimit/limiter.go), over the reals and
    with the clock readings as inputs. */
module RateLimiter {

  datatype Bucket = Bucket(rate: real, maxBurst: real, tokens: real, lastTime: real)

  function Full(rate: int, burst: int, now: real): Bucket
  {
    var size := (if burst <= 0 then 1 else burst) as real;
    Bucket(rate as real, size, size, now)
  }

  function Min(a: real, b: real): real
  {
    if a <= b then a else b
  }

  function Cost(granted: bool): real
  {
    if granted then 1.0 else 0.0
  }

  /** What the rate adds between two clock readings. */
  function Earned(rate: real, from: real, to: real): real
  {
    (to - from) * rate
  }

  lemma EarnedSplit(rate: real, x: real, y: real, z: real)
    ensures Earned(rate, x, z) == Earned(rate, x, y) + Earned(rate, y, z) && Earned(rate, x, x) == 0.0
  {
    assert (z - x) * rate == (y - x) * rate + (z - y) * rate;
  }

  lemma EarnedNonNegative(rate: real, x: real, y: real)
    requires rate >= 0.0 && x <= y
    ensures Earned(rate, x, y) >= 0.0
  {
  }

  /** The bucket after it was topped up at `now`. */
  function Refill(b: Bucket, now: real): Bucket
  {
    b.(tokens := Min(b.maxBurst, b.tokens + Earned(b.rate, b.lastTime, now)), lastTime := now)
  }

  /** One attempt: top up, and take a token if there is one. */
  function Attempt(b: Bucket, now: real): (Bucket, bool)
  {
    var full := Refill(b, now);
    if full.tokens >= 1.0 then (full.(tokens := full.tokens - 1.0), true) else (full, false)
  }

  /** The attempts at the given times: the bucket after them and which were granted. */
  function Attempts(b: Bucket, times: seq<real>): (r: (Bucket, seq<bool>))
    ensures |r.1| == |times|
  {
    if times == [] then (b, [])
    else
      var (before, grants) := Attempts(b, times[..|times| - 1]);
      var (after, granted) := Attempt(before, times[|times| - 1]);
      (after, grants + [granted])
  }

  class Limiter {
    var bucket: Bucket

    constructor (rate: int, burst: int, now: real)
      ensures bucket == Full(rate, burst, now)
    {
      bucket := Full(rate, burst, now);
    }

    /** With rate zero the limiter is unlimited: always granted, nothing counted. */
    method TryWait(now: real) returns (granted: bool)
      modifies this
      ensures old(bucket).rate == 0.0 ==> granted && bucket == old(bucket)
      ensures old(bucket).rate != 0.0 ==> (bucket, granted) == Attempt(old(bucket), now)
    {
      if bucket.rate == 0.0 {
        return true;
      }
      var tokens := bucket.tokens + Earned(bucket.rate, bucket.lastTime, now);
      if tokens > bucket.maxBurst {
        tokens := bucket.maxBurst;
      }
      granted := tokens >= 1.0;
      if granted {
        tokens := tokens - 1.0;
      }
      bucket := bucket.(tokens := tokens, lastTime := now);
    }

    /** Attempts at successive clock readings until one is granted; `used` of them were made. If the
        readings run out the caller is still waiting. */
    method Wait(readings: seq<real>) returns (granted: bool, used: nat)
      modifies this
      ensures old(bucket).rate == 0.0 ==> granted && used == 0 && bucket == old(bucket)
      ensures used <= |readings|
      ensures old(bucket).rate != 0.0 ==>
        var (after, grants) := Attempts(old(bucket), readings[..used]);
        && bucket == after
        && (forall i | 0 <= i < used :: grants[i] <==> granted && i == used - 1)
        && (granted ==> used > 0) && (!granted ==> used == |readings|)
    {
      if bucket.rate == 0.0 {
        return true, 0;
      }
      used := 0;
      granted := false;
      assert readings[..0] == [];
      while used < |readings| && !granted
        invariant used <= |readings| && bucket.rate == old(bucket).rate
        invariant bucket == Attempts(old(bucket), readings[..used]).0
        invariant forall i | 0 <= i < used ::
          Attempts(old(bucket), readings[..used]).1[i] <==> granted && i == used - 1
        invariant granted ==> used > 0
      {
        assert readings[..used + 1][..used] == readings[..used];
        granted := TryWait(readings[used]);
        used := used + 1;
      }
    }
  }

  // ---------------------------------------------------------------- windows

  /** Clock readings that do not go backwards, starting no earlier than `from`. */
  ghost predicate Monotone(from: real, times: seq<real>)
  {
    && (forall i | 0 <= i < |times| :: from <= times[i])
    && (forall i, j | 0 <= i <= j < |times| :: times[i] <= times[j])
  }

  function Granted(grants: seq<bool>, i: nat, j: nat): (n: nat)
    requires i <= j <= |grants|
    decreases j
  {
    if i == j then 0 else Granted(grants, i, j - 1) + (if grants[j - 1] then 1 else 0)
  }

  lemma {:induction false} GrantedInit(grants: seq<bool>, g: bool, i: nat, j: nat)
    requires i <= j <= |grants|
    ensures Granted(grants + [g], i, j) == Granted(grants, i, j)
    decreases j
  {
    if i == j {
    } else {
      GrantedInit(grants, g, i, j - 1);
    }
  }

  /** What the window from attempt `i` to attempt `j` still allows before attempt `j` is decided: the
      burst, plus what the rate adds over the window, less what was granted in it. */
  function Allowance(b: Bucket, times: seq<real>, grants: seq<bool>, i: nat, j: nat): real
    requires i <= j < |times| && j <= |grants|
  {
    b.maxBurst + Earned(b.rate, times[i], times[j]) - Granted(grants, i, j) as real
  }

  /** Tokens in the bucket when attempt `j` is decided. */
  function Available(b: Bucket, times: seq<real>, j: nat): real
    requires j < |times|
  {
    Refill(Attempts(b, times[..j]).0, times[j]).tokens
  }

  lemma AttemptsSnoc(b: Bucket, times: seq<real>, j: nat)
    requires j < |times|
    ensures Attempts(b, times[..j + 1]) ==
      (var (before, grants) := Attempts(b, times[..j]);
       var (after, granted) := Attempt(before, times[j]);
       (after, grants + [granted]))
  {
    assert times[..j + 1][..j] == times[..j];
  }

  lemma {:induction false} SameRates(b: Bucket, times: seq<real>)
    ensures var r := Attempts(b, times).0;
      && r.rate == b.rate && r.maxBurst == b.maxBurst
      && r.lastTime == if times == [] then b.lastTime else times[|times| - 1]
  {
    if times == [] {
    } else {
      SameRates(b, times[..|times| - 1]);
    }
  }

  /** One more attempt: every window grows by it. */
  lemma AllowanceGrows(b: Bucket, times: seq<real>, grants: seq<bool>, g: bool, i: nat, j: nat)
    requires i <= j < |times| - 1 && |grants| == j
    ensures Allowance(b, times, grants + [g], i, j + 1)
         == Allowance(b, times, grants, i, j) + Earned(b.rate, times[j], times[j + 1]) - Cost(g)
  {
    hide Earned;
    GrantedInit(grants, g, i, j);
    EarnedSplit(b.rate, times[i], times[j], times[j + 1]);
  }

  /** Two attempts in a row, seen from the bucket before them. */
  lemma NextRefill(b: Bucket, first: real, second: real)
    ensures Refill(Attempt(b, first).0, second).tokens
         == Min(b.maxBurst, Refill(b, first).tokens + Earned(b.rate, first, second) - Cost(Attempt(b, first).1))
  {
    hide Earned;
  }

  lemma AvailableCarriesOver(b: Bucket, times: seq<real>, j: nat, before: Bucket, after: Bucket)
    requires j < |times| - 1
    requires before == Attempts(b, times[..j]).0 && after == Attempts(b, times[..j + 1]).0
    ensures Refill(after, times[j + 1]).tokens
         == Min(b.maxBurst, Refill(before, times[j]).tokens + Earned(b.rate, times[j], times[j + 1])
                              - Cost(Attempt(before, times[j]).1))
  {
    hide Earned, Attempts, Attempt, Refill, Min, Cost;
    AttemptsSnoc(b, times, j);
    SameRates(b, times[..j]);
    NextRefill(before, times[j], times[j + 1]);
  }

  /** `a` is the least allowance of the windows ending in attempt `j`. */
  ghost predicate Least(b: Bucket, times: seq<real>, grants: seq<bool>, j: nat, a: real)
    requires j < |times| && j <= |grants|
  {
    && (forall i | 0 <= i <= j :: a <= Allowance(b, times, grants, i, j))
    && (exists i :: 0 <= i <= j && a == Allowance(b, times, grants, i, j))
  }

  lemma LeastGrows(b: Bucket, times: seq<real>, grants: seq<bool>, g: bool, j: nat, a: real)
    requires j < |times| - 1 && |grants| == j && Least(b, times, grants, j, a)
    ensures Least(b, times, grants + [g], j + 1,
                  Min(b.maxBurst, a + Earned(b.rate, times[j], times[j + 1]) - Cost(g)))
  {
    hide Earned, Allowance;
    var gs, carried := grants + [g], a + Earned(b.rate, times[j], times[j + 1]) - Cost(g);
    forall i | 0 <= i <= j
      ensures Allowance(b, times, gs, i, j + 1)
           == Allowance(b, times, grants, i, j) + Earned(b.rate, times[j], times[j + 1]) - Cost(g)
    {
      AllowanceGrows(b, times, grants, g, i, j);
    }
    WholeBurst(b, times, gs, j + 1);
    if carried <= b.maxBurst {
      var i :| 0 <= i <= j && a == Allowance(b, times, grants, i, j);
      assert carried == Allowance(b, times, gs, i, j + 1);
    } else {
      assert b.maxBurst == Allowance(b, times, gs, j + 1, j + 1);
    }
    var least, j1 := Min(b.maxBurst, carried), j + 1;
    forall i | 0 <= i <= j + 1
      ensures least <= Allowance(b, times, gs, i, j1)
    {
      if i <= j {
        assert a <= Allowance(b, times, grants, i, j);
      }
    }
  }

  lemma WholeBurst(b: Bucket, times: seq<real>, grants: seq<bool>, j: nat)
    requires j < |times| && j <= |grants|
    ensures Allowance(b, times, grants, j, j) == b.maxBurst
  {
    EarnedSplit(b.rate, times[j], times[j], times[j]);
  }

  /** The tokens available to an attempt are exactly the least allowance over all windows that end
      in it: a bound for each of them, reached by one. */
  lemma {:induction false} AvailableIsLeastAllowance(b: Bucket, times: seq<real>, j: nat)
    requires b.rate > 0.0 && b.tokens == b.maxBurst && Monotone(b.lastTime, times) && j < |times|
    ensures Least(b, times, Attempts(b, times[..j]).1, j, Available(b, times, j))
  {
    hide Earned, Allowance, Attempt;
    if j == 0 {
      assert times[..0] == [];
      EarnedNonNegative(b.rate, b.lastTime, times[0]);
      WholeBurst(b, times, [], 0);
      assert Available(b, times, 0) == b.maxBurst == Allowance(b, times, [], 0, 0);
    } else {
      AvailableIsLeastAllowance(b, times, j - 1);
      AttemptsSnoc(b, times, j - 1);
      var before := Attempts(b, times[..j - 1]).0;
      AvailableCarriesOver(b, times, j - 1, before, Attempts(b, times[..j]).0);
      var g := Attempt(before, times[j - 1]).1;
      LeastGrows(b, times, Attempts(b, times[..j - 1]).1, g, j - 1, Available(b, times, j - 1));
    }
  }

  /** The limiter is the most generous one that respects the limit: an attempt is granted iff with it
      every window ending there stays within the burst plus the rate times its length. */
  lemma GrantedIffWithinEveryWindow(b: Bucket, times: seq<real>, j: nat)
    requires b.rate > 0.0 && b.tokens == b.maxBurst && Monotone(b.lastTime, times) && j < |times|
    ensures var grants := Attempts(b, times).1;
      grants[j] <==> forall i | 0 <= i <= j ::
        (Granted(grants, i, j) + 1) as real <= b.maxBurst + Earned(b.rate, times[i], times[j])
  {
    hide Earned, Attempts, Granted;
    var grants, grants0, a := Attempts(b, times).1, Attempts(b, times[..j]).1, Available(b, times, j);
    AvailableIsLeastAllowance(b, times, j);
    GrantIffAvailable(b, times, j);
    forall i | 0 <= i <= j
      ensures (Granted(grants, i, j) + 1) as real <= b.maxBurst + Earned(b.rate, times[i], times[j])
         <==> 1.0 <= Allowance(b, times, grants0, i, j)
    {
      PrefixOfAttempts(b, times, j);
      GrantedPrefix(grants, grants0, i, j);
    }
    if !grants[j] {
      var i :| 0 <= i <= j && a == Allowance(b, times, grants0, i, j);
    }
  }

  lemma GrantIffAvailable(b: Bucket, times: seq<real>, j: nat)
    requires j < |times|
    ensures Attempts(b, times).1[j] <==> Available(b, times, j) >= 1.0
  {
    hide Earned, Attempts;
    AttemptsSnoc(b, times, j);
    PrefixOfAttempts(b, times, j + 1);
  }

  lemma {:induction false} PrefixOfAttempts(b: Bucket, times: seq<real>, j: nat)
    requires j <= |times|
    ensures Attempts(b, times[..j]).1 == Attempts(b, times).1[..j]
    decreases |times| - j
  {
    if j < |times| {
      PrefixOfAttempts(b, times, j + 1);
      AttemptsSnoc(b, times, j);
    } else {
      assert times[..j] == times;
    }
  }

  lemma {:induction false} GrantedPrefix(grants: seq<bool>, prefix: seq<bool>, i: nat, j: nat)
    requires i <= j <= |prefix| && prefix <= grants
    ensures Granted(grants, i, j) == Granted(prefix, i, j)
    decreases j
  {
    if i == j {
    } else {
      GrantedPrefix(grants, prefix, i, j - 1);
    }
  }

  lemma {:induction false} TokensInRange(b: Bucket, times: seq<real>)
    requires b.rate >= 0.0 && 0.0 <= b.tokens <= b.maxBurst && Monotone(b.lastTime, times)
    ensures 0.0 <= Attempts(b, times).0.tokens <= b.maxBurst
  {
    hide Earned;
    if times == [] {
    } else {
      var init, now := times[..|times| - 1], times[|times| - 1];
      TokensInRange(b, init);
      SameRates(b, init);
      EarnedNonNegative(b.rate, Attempts(b, init).0.lastTime, now);
    }
  }

  /** Between any two attempts, both included, no more is granted than the burst plus the rate times
      the time between them. */
  lemma WindowBound(b: Bucket, times: seq<real>, i: nat, j: nat)
    requires b.rate > 0.0 && b.tokens == b.maxBurst >= 0.0 && Monotone(b.lastTime, times) && i <= j < |times|
    ensures Granted(Attempts(b, times).1, i, j + 1) as real <= b.maxBurst + Earned(b.rate, times[i], times[j])
  {
    hide Earned, Attempts;
    GrantedIffWithinEveryWindow(b, times, j);
    AvailableIsLeastAllowance(b, times, j);
    PrefixOfAttempts(b, times, j);
    GrantedPrefix(Attempts(b, times).1, Attempts(b, times[..j]).1, i, j);
    AvailableNonNegative(b, times, j);
    assert Available(b, times, j) <= Allowance(b, times, Attempts(b, times[..j]).1, i, j);
    assert Attempts(b, times).1[j] ==>
      (Granted(Attempts(b, times).1, i, j) + 1) as real <= b.maxBurst + Earned(b.rate, times[i], times[j]);
  }

  lemma {:induction false} GrantedAtMost(grants: seq<bool>, i: nat, j: nat)
    requires i <= j <= |grants|
    ensures Granted(grants, i, j) <= j - i
    decreases j
  {
    if i == j {
    } else {
      GrantedAtMost(grants, i, j - 1);
    }
  }

  /** A constructed limiter grants the first calls up to the burst, and at least one, however fast they
      come; and in every window no more than the burst plus the rate times its length. */
  lemma ConstructedLimiter(rate: int, burst: int, start: real, times: seq<real>)
    requires rate > 0 && Monotone(start, times)
    ensures var grants := Attempts(Full(rate, burst, start), times).1;
      && (forall j | 0 <= j < |times| && (j < 1 || j < burst) :: grants[j])
      && (forall i, j | 0 <= i <= j < |times| ::
            Granted(grants, i, j + 1) as real <=
              (if burst <= 0 then 1 else burst) as real + (times[j] - times[i]) * (rate as real))
  {
    hide Attempts, Granted;
    var b := Full(rate, burst, start);
    var grants := Attempts(b, times).1;
    forall j | 0 <= j < |times| && (j < 1 || j < burst) ensures grants[j] {
      GrantedIffWithinEveryWindow(b, times, j);
      forall i | 0 <= i <= j
        ensures (Granted(grants, i, j) + 1) as real <= b.maxBurst + Earned(b.rate, times[i], times[j])
      {
        GrantedAtMost(grants, i, j);
        EarnedNonNegative(b.rate, times[i], times[j]);
      }
    }
    forall i, j | 0 <= i <= j < |times|
      ensures Granted(grants, i, j + 1) as real <= b.maxBurst + Earned(b.rate, times[i], times[j])
    {
      WindowBound(b, times, i, j);
    }
  }

  lemma AvailableNonNegative(b: Bucket, times: seq<real>, j: nat)
    requires b.rate > 0.0 && b.tokens == b.maxBurst >= 0.0 && Monotone(b.lastTime, times) && j < |times|
    ensures Available(b, times, j) >= 0.0
  {
    hide Earned, Attempts;
    TokensInRange(b, times[..j]);
    SameRates(b, times[..j]);
    EarnedNonNegative(b.rate, Attempts(b, times[..j]).0.lastTime, times[j]);
  }

  /** Over every run of calls the tokens stay non-negative iff the rate is not negative, which the
      constructor does not check. */
  lemma NeverNegativeIff(rate: int, burst: int, start: real)
    ensures (forall times | Monotone(start, times) :: Attempts(Full(rate, burst, start), times).0.tokens >= 0.0)
      <==> rate >= 0
  {
    var b := Full(rate, burst, start);
    if rate >= 0 {
      forall times | Monotone(start, times) ensures Attempts(b, times).0.tokens >= 0.0 {
        TokensInRange(b, times);
      }
    } else {
      var d := b.maxBurst + 1.0;
      var times := [start + d];
      NegativeRateLoses(b.rate, start, d);
      assert times[..0] == [];
      assert Attempts(b, times[..0]).0 == b;
      assert Monotone(start, times) && Attempts(b, times).0.tokens < 0.0;
    }
  }

  /** Concrete run: rate -1 and burst 1, called once after three seconds. */
  lemma NegativeRun()
    ensures Attempts(Full(-1, 1, 0.0), [3.0]) == (Bucket(-1.0, 1.0, -2.0, 3.0), [false])
  {
    var b := Full(-1, 1, 0.0);
    assert Earned(-1.0, 0.0, 3.0) == -3.0;
    assert Attempt(b, 3.0) == (Bucket(-1.0, 1.0, -2.0, 3.0), false);
    AttemptsSnoc(b, [3.0], 0);
    assert [3.0][..1] == [3.0] && [3.0][..0] == [];
    assert [] + [false] == [false];
  }

  lemma NegativeRateLoses(rate: real, start: real, d: real)
    requires rate <= -1.0 && d >= 0.0
    ensures Earned(rate, start, start + d) <= -d
  {
    assert d * (rate + 1.0) <= 0.0;
    assert d * (rate + 1.0) == d * rate + d;
    assert (start + d) - start == d;
  }

  /** After a refused attempt, the time `Wait` sleeps is exactly the time to the next token. */
  lemma SleepIsExact(b: Bucket, now: real)
    requires b.rate > 0.0 && b.maxBurst >= 1.0 && b.tokens < 1.0 && b.lastTime <= now
    ensures Attempt(b, now).1 <==> now - b.lastTime >= (1.0 - b.tokens) / b.rate
  {
    var d, need := now - b.lastTime, (1.0 - b.tokens) / b.rate;
    assert need * b.rate == 1.0 - b.tokens;
    assert Earned(b.rate, b.lastTime, now) == d * b.rate;
    if d >= need {
      assert d * b.rate >= need * b.rate;
    } else {
      assert d * b.rate < need * b.rate;
    }
  }
}
