/** The zero-burst token bucket that paces the benchmark, over real time. */
module Bandwidth {
  import opened Basics

  /** The content of an atomic counter. */
  type Counter = n: nat | n < U64

  /******* The bucket under its lock, as a value *******/

  datatype Bucket = Bucket(tokens: real, last: real)

  function NoMoreThanZero(x: real): real
  {
    if x < 0.0 then x else 0.0
  }

  function Refilled(b: Bucket, rate: real, now: real): Bucket
  {
    Bucket(NoMoreThanZero(b.tokens + (now - b.last) * rate), now)
  }

  predicate CanCharge(b: Bucket, rate: real, now: real)
  {
    Refilled(b, rate, now).tokens >= 0.0
  }

  /** One pass under the lock: refill, and charge the estimate if there is no debt. */
  function Attempted(b: Bucket, rate: real, now: real, estimate: nat): Bucket
  {
    var r := Refilled(b, rate, now);
    if r.tokens >= 0.0 then r.(tokens := r.tokens - estimate as real) else r
  }

  /******* Runs of any number of callers *******/

  /** A pass under the lock by some caller. */
  datatype Attempt = Attempt(time: real, estimate: nat)

  /** The bucket and the dispatches charged so far. */
  datatype State = State(bucket: Bucket, charged: seq<Attempt>)

  function Next(s: State, rate: real, a: Attempt): State
  {
    State(
      Attempted(s.bucket, rate, a.time, a.estimate),
      if CanCharge(s.bucket, rate, a.time) then s.charged + [a] else s.charged)
  }

  /** The state after the first `n` attempts. */
  function Run(start: real, rate: real, attempts: seq<Attempt>, n: nat): State
    requires n <= |attempts|
  {
    if n == 0 then State(Bucket(0.0, start), [])
    else Next(Run(start, rate, attempts, n - 1), rate, attempts[n - 1])
  }

  /** The clock when the first `n` attempts are done. */
  function TimeAfter(start: real, attempts: seq<Attempt>, n: nat): real
    requires n <= |attempts|
  {
    if n == 0 then start else attempts[n - 1].time
  }

  /** The monotonic clock: no attempt reads a time before the one read before it. */
  predicate InOrder(start: real, attempts: seq<Attempt>)
  {
    forall i :: 0 <= i < |attempts| ==> TimeAfter(start, attempts, i) <= attempts[i].time
  }

  /** The debt is exactly the last estimate less what was refilled since, and each gap paid for its estimate. */
  ghost predicate Inv(s: State, rate: real)
  {
    && s.bucket.tokens <= 0.0
    && (if s.charged == [] then s.bucket.tokens == 0.0 else Debt(s, rate))
    && Paid(s.charged, rate)
  }

  ghost predicate Debt(s: State, rate: real)
    requires s.charged != []
  {
    var d := s.charged[|s.charged| - 1];
    s.bucket.tokens == (s.bucket.last - d.time) * rate - d.estimate as real
  }

  /** Each dispatch waited for the one before it to be paid. */
  ghost predicate Paid(charged: seq<Attempt>, rate: real)
  {
    forall i :: 0 < i < |charged| ==> PaidBy(charged[i - 1], rate, charged[i].time)
  }

  /** The refill since dispatch `d` covers its estimate. */
  predicate PaidBy(d: Attempt, rate: real, now: real)
  {
    d.estimate as real <= (now - d.time) * rate
  }

  lemma Distribute(a: real, b: real, c: real, rate: real)
    ensures (b - a) * rate + (c - b) * rate == (c - a) * rate
  {
  }

  lemma NextKeepsInv(s: State, rate: real, a: Attempt)
    requires rate > 0.0 && s.bucket.last <= a.time && Inv(s, rate)
    ensures Inv(Next(s, rate, a), rate)
    ensures Next(s, rate, a).bucket.last == a.time
    ensures CanCharge(s.bucket, rate, a.time) ==> Next(s, rate, a).bucket.tokens == -(a.estimate as real)
  {
    assert (a.time - s.bucket.last) * rate >= 0.0;
    assert (a.time - a.time) * rate == 0.0;
    if s.charged != [] {
      Distribute(s.charged[|s.charged| - 1].time, s.bucket.last, a.time, rate);
    } else {
      assert CanCharge(s.bucket, rate, a.time);
    }
  }

  lemma {:induction false} RunKeepsInv(start: real, rate: real, attempts: seq<Attempt>, n: nat)
    requires rate > 0.0 && n <= |attempts| && InOrder(start, attempts)
    ensures Inv(Run(start, rate, attempts, n), rate)
    ensures Run(start, rate, attempts, n).bucket.last == TimeAfter(start, attempts, n)
  {
    if n > 0 {
      RunKeepsInv(start, rate, attempts, n - 1);
      NextKeepsInv(Run(start, rate, attempts, n - 1), rate, attempts[n - 1]);
    }
  }

  /** No budget accrues, and a charged dispatch leaves exactly its own estimate as debt. */
  lemma {:induction false} ChargeLeavesEstimate(start: real, rate: real, attempts: seq<Attempt>, n: nat)
    requires rate > 0.0 && n < |attempts| && InOrder(start, attempts)
    ensures Run(start, rate, attempts, n).bucket.tokens <= 0.0
    ensures CanCharge(Run(start, rate, attempts, n).bucket, rate, attempts[n].time) ==>
      Run(start, rate, attempts, n + 1).bucket.tokens == -(attempts[n].estimate as real)
  {
    RunKeepsInv(start, rate, attempts, n);
    NextKeepsInv(Run(start, rate, attempts, n), rate, attempts[n]);
  }

  /** However often it was tried, an attempt is let through exactly when the time since the last charge has paid for it. */
  lemma {:induction false} ChargedIffPaid(start: real, rate: real, attempts: seq<Attempt>, n: nat)
    requires rate > 0.0 && n < |attempts| && InOrder(start, attempts)
    ensures var s, t := Run(start, rate, attempts, n), Run(start, rate, attempts, n + 1);
      var paid := s.charged == [] || PaidBy(s.charged[|s.charged| - 1], rate, attempts[n].time);
      && (CanCharge(s.bucket, rate, attempts[n].time) <==> paid)
      && t.charged == s.charged + (if paid then [attempts[n]] else [])
  {
    RunKeepsInv(start, rate, attempts, n);
    ChargeableIffPaid(Run(start, rate, attempts, n), rate, attempts[n].time);
  }

  lemma ChargeableIffPaid(s: State, rate: real, now: real)
    requires rate > 0.0 && s.bucket.last <= now && Inv(s, rate)
    ensures CanCharge(s.bucket, rate, now) <==> s.charged == [] || PaidBy(s.charged[|s.charged| - 1], rate, now)
  {
    assert (now - s.bucket.last) * rate >= 0.0;
    if s.charged != [] {
      Distribute(s.charged[|s.charged| - 1].time, s.bucket.last, now, rate);
    }
  }

  /** The estimates of the dispatches from `i` up to and not including `j`. */
  function Estimates(charged: seq<Attempt>, i: nat, j: nat): nat
    requires i <= j <= |charged|
  {
    if i == j then 0 else Estimates(charged, i, j - 1) + charged[j - 1].estimate
  }

  /** The rate bound, over every window between two charged dispatches of every run. */
  lemma {:induction false} RateBound(start: real, rate: real, attempts: seq<Attempt>, n: nat, i: nat, j: nat)
    requires rate > 0.0 && n <= |attempts| && InOrder(start, attempts)
    requires i <= j < |Run(start, rate, attempts, n).charged|
    ensures var charged := Run(start, rate, attempts, n).charged;
      Estimates(charged, i, j) as real <= (charged[j].time - charged[i].time) * rate
  {
    RunKeepsInv(start, rate, attempts, n);
    PaidSpan(Run(start, rate, attempts, n).charged, rate, i, j);
  }

  lemma {:induction false} PaidSpan(charged: seq<Attempt>, rate: real, i: nat, j: nat)
    requires Paid(charged, rate) && i <= j < |charged|
    ensures Estimates(charged, i, j) as real <= (charged[j].time - charged[i].time) * rate
  {
    if i < j {
      PaidSpan(charged, rate, i, j - 1);
      assert PaidBy(charged[j - 1], rate, charged[j].time);
      Distribute(charged[i].time, charged[j - 1].time, charged[j].time, rate);
    }
  }

  /******* The bound is reached *******/

  /** What the rate earns between two times. */
  ghost function Earning(rate: real): (real, real) -> real
  {
    (from, to) => (to - from) * rate
  }

  /** Each attempt comes as soon as the one before it is paid for. */
  ghost predicate JustPaid(attempts: seq<Attempt>, earning: (real, real) -> real)
  {
    forall k :: 0 < k < |attempts| ==> earning(attempts[k - 1].time, attempts[k].time) == attempts[k - 1].estimate as real
  }

  /** What was charged after each attempt, under a rule that says when a dispatch is paid for. */
  ghost predicate IsHistory(charged: seq<seq<Attempt>>, attempts: seq<Attempt>, paid: (Attempt, real) -> bool)
  {
    && |charged| == |attempts| + 1 && charged[0] == []
    && forall k :: 0 <= k < |attempts| ==> GoesOn(charged[k], charged[k + 1], attempts[k], paid)
  }

  ghost predicate GoesOn(before: seq<Attempt>, after: seq<Attempt>, a: Attempt, paid: (Attempt, real) -> bool)
  {
    after == before + if before == [] || paid(before[|before| - 1], a.time) then [a] else []
  }

  /** Attempts that each find the one before paid for are all let through. */
  lemma {:induction false} PaidAreCharged(
    charged: seq<seq<Attempt>>, attempts: seq<Attempt>, paid: (Attempt, real) -> bool, n: nat)
    requires IsHistory(charged, attempts, paid) && n <= |attempts|
    requires forall k :: 0 < k < |attempts| ==> paid(attempts[k - 1], attempts[k].time)
    ensures charged[n] == attempts[..n]
  {
    if n > 0 {
      PaidAreCharged(charged, attempts, paid, n - 1);
      assert GoesOn(charged[n - 1], charged[n], attempts[n - 1], paid);
      assert attempts[..n] == attempts[..n - 1] + [attempts[n - 1]];
    }
  }

  ghost function PaidRule(rate: real): (Attempt, real) -> bool
  {
    (d, now) => PaidBy(d, rate, now)
  }

  lemma RunIsHistory(start: real, rate: real, attempts: seq<Attempt>) returns (charged: seq<seq<Attempt>>)
    requires rate > 0.0 && InOrder(start, attempts)
    ensures IsHistory(charged, attempts, PaidRule(rate))
    ensures charged[|attempts|] == Run(start, rate, attempts, |attempts|).charged
  {
    charged := seq(|attempts| + 1, k requires 0 <= k <= |attempts| => Run(start, rate, attempts, k).charged);
    forall k | 0 <= k < |attempts|
      ensures GoesOn(charged[k], charged[k + 1], attempts[k], PaidRule(rate))
    {
      ChargedIffPaid(start, rate, attempts, k);
    }
  }

  lemma ExactIsPaid(d: Attempt, now: real, rate: real)
    requires Earning(rate)(d.time, now) == d.estimate as real
    ensures PaidRule(rate)(d, now)
  {
  }

  lemma JustPaidIsCharged(start: real, rate: real, attempts: seq<Attempt>)
    requires rate > 0.0 && InOrder(start, attempts) && JustPaid(attempts, Earning(rate))
    ensures Run(start, rate, attempts, |attempts|).charged == attempts
  {
    var charged := RunIsHistory(start, rate, attempts);
    forall k | 0 < k < |attempts|
      ensures PaidRule(rate)(attempts[k - 1], attempts[k].time)
    {
      ExactIsPaid(attempts[k - 1], attempts[k].time, rate);
    }
    PaidAreCharged(charged, attempts, PaidRule(rate), |attempts|);
    assert attempts[..|attempts|] == attempts;
  }

  /** Then the estimates between two dispatches are exactly what the rate earns in between: it lets no less through. */
  lemma RateIsReached(start: real, rate: real, attempts: seq<Attempt>, i: nat, j: nat)
    requires rate > 0.0 && InOrder(start, attempts) && JustPaid(attempts, Earning(rate)) && i <= j < |attempts|
    ensures Run(start, rate, attempts, |attempts|).charged == attempts
    ensures Estimates(attempts, i, j) as real == Earning(rate)(attempts[i].time, attempts[j].time)
  {
    JustPaidIsCharged(start, rate, attempts);
    EarningAdds(rate);
    PaidExactly(attempts, Earning(rate), i, j);
  }

  ghost predicate Additive(earning: (real, real) -> real)
  {
    && (forall a, b, c :: earning(a, b) + earning(b, c) == earning(a, c))
    && forall a :: earning(a, a) == 0.0
  }

  lemma EarningAdds(rate: real)
    ensures Additive(Earning(rate))
  {
    forall a, b, c
      ensures Earning(rate)(a, b) + Earning(rate)(b, c) == Earning(rate)(a, c)
    {
      Distribute(a, b, c, rate);
    }
  }

  lemma {:induction false} PaidExactly(attempts: seq<Attempt>, earning: (real, real) -> real, i: nat, j: nat)
    requires Additive(earning) && JustPaid(attempts, earning) && i <= j < |attempts|
    ensures Estimates(attempts, i, j) as real == earning(attempts[i].time, attempts[j].time)
  {
    if i < j {
      PaidExactly(attempts, earning, i, j - 1);
      assert earning(attempts[i].time, attempts[j - 1].time) + earning(attempts[j - 1].time, attempts[j].time) ==
        earning(attempts[i].time, attempts[j].time);
    }
  }

  /** For any estimates there are such attempts. */
  lemma {:induction false} SomeJustPaid(start: real, rate: real, estimates: seq<nat>) returns (attempts: seq<Attempt>)
    requires rate > 0.0
    ensures InOrder(start, attempts) && JustPaid(attempts, Earning(rate))
    ensures |attempts| == |estimates| && forall k :: 0 <= k < |estimates| ==> attempts[k].estimate == estimates[k]
  {
    attempts := [];
    if estimates != [] {
      var n := |estimates| - 1;
      var earlier := SomeJustPaid(start, rate, estimates[..n]);
      var time := start;
      if n > 0 {
        time := PaidTime(earlier[n - 1], rate);
      }
      attempts := OneMore(start, earlier, Attempt(time, estimates[n]), Earning(rate));
    }
  }

  /** When a dispatch is just paid for. */
  lemma PaidTime(d: Attempt, rate: real) returns (time: real)
    requires rate > 0.0
    ensures time >= d.time && Earning(rate)(d.time, time) == d.estimate as real
  {
    var wait := d.estimate as real / rate;
    time := d.time + wait;
    assert wait * rate == d.estimate as real;
  }

  lemma OneMore(start: real, earlier: seq<Attempt>, a: Attempt, earning: (real, real) -> real)
    returns (attempts: seq<Attempt>)
    requires InOrder(start, earlier) && JustPaid(earlier, earning)
    requires TimeAfter(start, earlier, |earlier|) <= a.time
    requires earlier != [] ==> var last := earlier[|earlier| - 1];
      earning(last.time, a.time) == last.estimate as real
    ensures attempts == earlier + [a] && InOrder(start, attempts) && JustPaid(attempts, earning)
  {
    attempts := earlier + [a];
    forall i | 0 <= i < |attempts|
      ensures TimeAfter(start, attempts, i) <= attempts[i].time
    {
      assert i < |earlier| ==> TimeAfter(start, earlier, i) <= earlier[i].time;
    }
  }

  /******* The meter *******/

  class TokenBucket {
    var tokens: real
    const refillPerSec: real
    var last: real

    constructor (rate: real, now: real)
      ensures Value() == Bucket(0.0, now) && refillPerSec == rate
    {
      tokens, refillPerSec, last := 0.0, rate, now;
    }

    function Value(): Bucket
      reads this
    {
      Bucket(tokens, last)
    }

    method Refill(now: real)
      modifies this
      ensures Value() == Refilled(old(Value()), refillPerSec, now)
      ensures last == now
      ensures var sum := old(tokens) + (now - old(last)) * refillPerSec;
        tokens == if sum < 0.0 then sum else 0.0
    {
      var elapsed := now - last;
      var sum := tokens + elapsed * refillPerSec;
      tokens := if sum < 0.0 then sum else 0.0;
      last := now;
    }

    /** The locked block: the seconds to wait, or nothing when the estimate was charged. */
    method TryCharge(now: real, estimate: nat) returns (wait: Option<real>)
      requires refillPerSec > 0.0
      modifies this
      ensures Value() == Attempted(old(Value()), refillPerSec, now, estimate)
      ensures wait.None? <==> CanCharge(old(Value()), refillPerSec, now)
      ensures wait.Some? ==> tokens < 0.0 && wait.value == -tokens / refillPerSec
    {
      Refill(now);
      if tokens >= 0.0 {
        tokens := tokens - estimate as real;
        return None;
      }
      wait := Some(-tokens / refillPerSec);
    }
  }

  function Clamp(x: real, low: real, high: real): (r: real)
    requires low <= high
    ensures low <= r <= high
    ensures low <= x <= high ==> r == x
    ensures (r > x ==> r == low) && (r < x ==> r == high)
  {
    if x < low then low else if x > high then high else x
  }

  /** How many more sleeps of up to five seconds the debt can take. */
  function Rounds(b: Bucket, rate: real, now: real): nat
    requires rate > 0.0
  {
    var wait := Owed(b, rate, now);
    if wait <= 0.0 then 0 else (wait / 5.0).Floor + 1
  }

  /** The seconds until the bucket is out of debt. */
  function Owed(b: Bucket, rate: real, now: real): real
    requires rate > 0.0
  {
    -b.tokens / rate - (now - b.last)
  }

  /** Refilling pays the debt by the time that passed, and clears it exactly when nothing is owed. */
  lemma OwedAfterRefill(b: Bucket, rate: real, now: real)
    requires rate > 0.0
    ensures CanCharge(b, rate, now) <==> Owed(b, rate, now) <= 0.0
    ensures !CanCharge(b, rate, now) ==> Owed(b, rate, now) == -Refilled(b, rate, now).tokens / rate
  {
    assert (b.tokens + (now - b.last) * rate) / rate == b.tokens / rate + (now - b.last);
    assert b.tokens + (now - b.last) * rate == -Owed(b, rate, now) * rate;
  }

  class BwMeter {
    var estBytes: Counter
    const limiter: Option<TokenBucket>

    /** No target, or one that is not positive, disables pacing. */
    constructor (targetGbits: Option<real>, now: real)
      ensures estBytes == 0
      ensures limiter.Some? <==> targetGbits.Some? && targetGbits.value > 0.0
      ensures limiter.Some? ==> fresh(limiter.value) && limiter.value.Value() == Bucket(0.0, now)
      ensures limiter.Some? ==> limiter.value.refillPerSec == targetGbits.value * 1000000000.0 / 8.0
    {
      estBytes := 0;
      if targetGbits.Some? && targetGbits.value > 0.0 {
        var bucket := new TokenBucket(targetGbits.value * 1000000000.0 / 8.0, now);
        limiter := Some(bucket);
      } else {
        limiter := None;
      }
    }

    /**
     `acquire_for` by a lone caller that arrives at `start`; its `k`-th sleep lasts `late(k)` longer than asked.
     It returns no earlier than the debt is paid and, when sleeps are exact, at most a millisecond later.
     */
    method AcquireFor(estimate: Option<nat>, start: real, late: nat -> real) returns (at: real)
      requires limiter.Some? ==> limiter.value.refillPerSec > 0.0
      requires limiter.Some? ==> limiter.value.last <= start && limiter.value.tokens <= 0.0
      requires forall k :: late(k) >= 0.0
      modifies this, if limiter.Some? then {limiter.value} else {}
      ensures estBytes == (old(estBytes) + if estimate.Some? then estimate.value else 0) % U64
      ensures limiter.None? || estimate.None? ==> at == start
      ensures limiter.Some? && estimate.None? ==> limiter.value.Value() == old(limiter.value.Value())
      ensures limiter.Some? && estimate.Some? ==>
        && at >= start && limiter.value.Value() == Bucket(-(estimate.value as real), at)
        && Owed(old(limiter.value.Value()), limiter.value.refillPerSec, at) <= 0.0
      ensures limiter.Some? && estimate.Some? && (forall k :: late(k) == 0.0) ==>
        at == start || Owed(old(limiter.value.Value()), limiter.value.refillPerSec, at) > -0.001
    {
      if estimate.Some? {
        estBytes := (estBytes + estimate.value) % U64;
      }
      if limiter.None? || estimate.None? {
        return start;
      }
      var bucket, rate := limiter.value, limiter.value.refillPerSec;
      ghost var before := bucket.Value();
      at := start;
      var k := 0;
      while true
        invariant estBytes == (old(estBytes) + estimate.value) % U64
        invariant start <= at && bucket.last <= at && bucket.tokens <= 0.0
        invariant Owed(bucket.Value(), rate, at) == Owed(before, rate, at)
        invariant (forall k :: late(k) == 0.0) ==> at == start || Owed(before, rate, at) > -0.001
        decreases Rounds(bucket.Value(), rate, at)
      {
        OwedAfterRefill(bucket.Value(), rate, at);
        var wait := bucket.TryCharge(at, estimate.value);
        if wait.None? {
          return;
        }
        at := at + Clamp(wait.value, 0.001, 5.0) + late(k);
        k := k + 1;
      }
    }
  }
}
