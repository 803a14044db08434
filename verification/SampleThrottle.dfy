/** The compare-and-swap throttle of the benchmark's sample output. */
module SampleThrottle {

  /** Where a caller is between its atomic steps; `seen` counts the claims made before its load. */
  datatype Phase = Idle | Clocked(now: int) | Loaded(now: int, last: int, seen: nat)

  /** The shared cell, the callers, and the timestamps of the successful claims so far. */
  datatype State = State(last: int, phases: map<nat, Phase>, claims: seq<int>)

  datatype Event = ReadClock(now: int) | Load | Exchange

  function PhaseOf(s: State, caller: nat): Phase
  {
    if caller in s.phases then s.phases[caller] else Idle
  }

  function Initial(): State
  {
    State(0, map[], [])
  }

  /** Whether the exchange of a caller that passed the check succeeds. */
  predicate Claims(s: State, caller: nat)
  {
    PhaseOf(s, caller).Loaded? && s.last == PhaseOf(s, caller).last
  }

  /** One atomic step of one caller. The clock of a caller may read anything at any time. */
  function Step(s: State, interval: nat, caller: nat, event: Event): State
  {
    match (event, PhaseOf(s, caller))
    case (ReadClock(now), Idle) => s.(phases := s.phases[caller := Clocked(now)])
    case (Load, Clocked(now)) =>
      s.(phases := s.phases[caller := if now - s.last < interval then Idle else Loaded(now, s.last, |s.claims|)])
    case (Exchange, Loaded(now, last, _)) =>
      var idle := s.phases[caller := Idle];
      if s.last == last then State(now, idle, s.claims + [now]) else s.(phases := idle)
    case _ => s
  }

  /** The state after the first `n` steps of a schedule. */
  function Run(schedule: seq<(nat, Event)>, interval: nat, n: nat): State
    requires n <= |schedule|
  {
    if n == 0 then Initial()
    else Step(Run(schedule, interval, n - 1), interval, schedule[n - 1].0, schedule[n - 1].1)
  }

  /** The cell after the first `n` claims. */
  function CellAfter(claims: seq<int>, n: nat): int
    requires n <= |claims|
  {
    if n == 0 then 0 else claims[n - 1]
  }

  predicate Spaced(claims: seq<int>, interval: nat)
  {
    forall i :: 0 <= i < |claims| ==> claims[i] >= CellAfter(claims, i) + interval
  }

  predicate PhaseInv(s: State, interval: nat, p: Phase)
  {
    p.Loaded? ==> p.seen <= |s.claims| && p.last == CellAfter(s.claims, p.seen) && p.now - p.last >= interval
  }

  predicate Inv(s: State, interval: nat)
  {
    && s.last == CellAfter(s.claims, |s.claims|)
    && Spaced(s.claims, interval)
    && forall c :: c in s.phases ==> PhaseInv(s, interval, s.phases[c])
  }

  lemma StepKeepsInv(s: State, interval: nat, caller: nat, event: Event)
    requires Inv(s, interval)
    ensures Inv(Step(s, interval, caller, event), interval)
  {
    var t := Step(s, interval, caller, event);
    if event.Exchange? && Claims(s, caller) {
      var p := PhaseOf(s, caller);
      assert PhaseInv(s, interval, p);
      assert t.claims == s.claims + [p.now];
      assert forall i :: 0 <= i <= |s.claims| ==> CellAfter(t.claims, i) == CellAfter(s.claims, i);
    }
  }

  lemma {:induction false} RunKeepsInv(schedule: seq<(nat, Event)>, interval: nat, n: nat)
    requires n <= |schedule|
    ensures Inv(Run(schedule, interval, n), interval)
  {
    if n > 0 {
      RunKeepsInv(schedule, interval, n - 1);
      StepKeepsInv(Run(schedule, interval, n - 1), interval, schedule[n - 1].0, schedule[n - 1].1);
    }
  }

  /** In every interleaving, any two claims are as many intervals apart as there are claims between them. */
  lemma ClaimsAreSpaced(schedule: seq<(nat, Event)>, interval: nat, n: nat, i: nat, j: nat)
    requires n <= |schedule| && i <= j < |Run(schedule, interval, n).claims|
    ensures var claims := Run(schedule, interval, n).claims;
      claims[j] - claims[i] >= (j - i) * interval
  {
    RunKeepsInv(schedule, interval, n);
    SpacedSpan(Run(schedule, interval, n).claims, interval, i, j);
  }

  lemma {:induction false} SpacedSpan(claims: seq<int>, interval: nat, i: nat, j: nat)
    requires Spaced(claims, interval) && i <= j < |claims|
    ensures claims[j] - claims[i] >= (j - i) * interval
  {
    if i < j {
      SpacedSpan(claims, interval, i, j - 1);
      assert claims[j] >= CellAfter(claims, j) + interval;
      assert (j - i) * interval == (j - 1 - i) * interval + interval;
    }
  }

  /** A window shorter than the interval holds at most one claim. */
  lemma OneClaimPerWindow(schedule: seq<(nat, Event)>, interval: nat, n: nat, from: int, i: nat, j: nat)
    requires n <= |schedule| && i <= j < |Run(schedule, interval, n).claims|
    requires from <= Run(schedule, interval, n).claims[i] && Run(schedule, interval, n).claims[j] < from + interval
    ensures i == j
  {
    if i < j {
      ClaimsAreSpaced(schedule, interval, n, i, j);
      Multiple(j - i, interval);
    }
  }

  lemma Multiple(k: nat, interval: nat)
    requires k > 0
    ensures k * interval >= interval
  {
    assert k * interval == (k - 1) * interval + interval;
  }

  /** A caller that passed the check wins exactly when nobody claimed since its load: the cell never repeats. */
  lemma ExchangeSucceedsIff(schedule: seq<(nat, Event)>, interval: nat, n: nat, caller: nat)
    requires n <= |schedule| && interval > 0
    requires PhaseOf(Run(schedule, interval, n), caller).Loaded?
    ensures var s := Run(schedule, interval, n);
      Claims(s, caller) <==> |s.claims| == PhaseOf(s, caller).seen
  {
    RunKeepsInv(schedule, interval, n);
    var s := Run(schedule, interval, n);
    var p := PhaseOf(s, caller);
    assert PhaseInv(s, interval, p);
    if p.seen < |s.claims| {
      CellGrows(s.claims, interval, p.seen, |s.claims|);
    }
  }

  lemma {:induction false} CellGrows(claims: seq<int>, interval: nat, i: nat, j: nat)
    requires Spaced(claims, interval) && interval > 0 && i < j <= |claims|
    ensures CellAfter(claims, i) < CellAfter(claims, j)
  {
    assert claims[j - 1] >= CellAfter(claims, j - 1) + interval;
    if i < j - 1 {
      CellGrows(claims, interval, i, j - 1);
    }
  }

  /** The static cell, called by one caller at a time. */
  class SampleCell {
    var last: int

    constructor ()
      ensures last == 0
    {
      last := 0;
    }

    method TryClaimSampleSlot(now: int, interval: nat) returns (claimed: bool)
      modifies this
      ensures claimed <==> now - old(last) >= interval
      ensures last == if claimed then now else old(last)
    {
      var loaded := last;
      if now - loaded < interval {
        return false;
      }
      claimed := last == loaded;
      if claimed {
        last := now;
      }
    }
  }

  /** An undisturbed call is the three steps of its caller. */
  lemma UndisturbedCall(s: State, interval: nat, caller: nat, now: int)
    requires PhaseOf(s, caller) == Idle
    ensures
      var loaded := Step(Step(s, interval, caller, ReadClock(now)), interval, caller, Load);
      var t := Step(loaded, interval, caller, Exchange);
      && t.last == (if now - s.last >= interval then now else s.last)
      && t.claims == s.claims + (if now - s.last >= interval then [now] else [])
      && PhaseOf(t, caller) == Idle
  {
  }

  /** Only an exchange adds a claim: that of a caller whose load nobody's claim followed, with the time of its clock. */
  lemma ClaimsGrowIff(schedule: seq<(nat, Event)>, interval: nat, n: nat)
    requires n < |schedule| && interval > 0
    ensures var s, t, p := Run(schedule, interval, n), Run(schedule, interval, n + 1),
        PhaseOf(Run(schedule, interval, n), schedule[n].0);
      if schedule[n].1.Exchange? && p.Loaded? && p.seen == |s.claims| then t.claims == s.claims + [p.now]
      else t.claims == s.claims
  {
    var s, p := Run(schedule, interval, n), PhaseOf(Run(schedule, interval, n), schedule[n].0);
    if p.Loaded? {
      ExchangeSucceedsIff(schedule, interval, n, schedule[n].0);
    }
    assert Run(schedule, interval, n + 1) == Step(s, interval, schedule[n].0, schedule[n].1);
  }

  /** In any run, a caller whose three steps come in a row claims exactly when an interval has passed. */
  lemma UndisturbedInRun(schedule: seq<(nat, Event)>, interval: nat, n: nat, caller: nat, now: int)
    requires n + 3 <= |schedule| && PhaseOf(Run(schedule, interval, n), caller).Idle?
    requires schedule[n] == (caller, ReadClock(now)) && schedule[n + 1] == (caller, Load)
    requires schedule[n + 2] == (caller, Exchange)
    ensures var s, t := Run(schedule, interval, n), Run(schedule, interval, n + 3);
      && t.claims == s.claims + (if now - s.last >= interval then [now] else [])
      && t.last == (if now - s.last >= interval then now else s.last)
  {
    UndisturbedCall(Run(schedule, interval, n), interval, caller, now);
    assert Run(schedule, interval, n + 1) == Step(Run(schedule, interval, n), interval, caller, ReadClock(now));
    assert Run(schedule, interval, n + 2) == Step(Run(schedule, interval, n + 1), interval, caller, Load);
    assert Run(schedule, interval, n + 3) == Step(Run(schedule, interval, n + 2), interval, caller, Exchange);
  }

  /** A step of one caller leaves the others where they are. */
  lemma OthersStay(s: State, interval: nat, caller: nat, event: Event, other: nat)
    requires other != caller
    ensures PhaseOf(Step(s, interval, caller, event), other) == PhaseOf(s, other)
  {
  }

  /** Before the first step nothing is claimed, nobody is under way, and the cell holds 0. */
  lemma NothingAtFirst(schedule: seq<(nat, Event)>, interval: nat, caller: nat)
    ensures var s := Run(schedule, interval, 0);
      s.claims == [] && s.last == 0 && PhaseOf(s, caller).Idle?
  {
  }
}
