/** The retry loop that looks for a pair of responses of one slot. */
module SlotCompensation {
  import opened Basics

  datatype Slotted<R> = Slotted(response: R, duration: nat, slot: nat)

  /** What one endpoint answered in one round: nothing on a network failure. */
  type Answer<R> = Option<(R, nat)>

  /** Extracts the context slot of a response. */
  type SlotOf<!R> = R -> Option<nat>

  /******* The pair that is chosen *******/

  ghost predicate HasSlot<R>(rs: seq<Slotted<R>>, slot: nat)
  {
    exists j :: 0 <= j < |rs| && rs[j].slot == slot
  }

  ghost predicate ShareSlot<R>(rs1: seq<Slotted<R>>, rs2: seq<Slotted<R>>)
  {
    exists i :: 0 <= i < |rs1| && HasSlot(rs2, rs1[i].slot)
  }

  lemma PairShares<R>(rs1: seq<Slotted<R>>, rs2: seq<Slotted<R>>, i: nat, j: nat)
    requires i < |rs1| && j < |rs2| && rs1[i].slot == rs2[j].slot
    ensures ShareSlot(rs1, rs2)
  {
    assert HasSlot(rs2, rs1[i].slot);
  }

  /** The earliest first response whose slot the other side has, with the latest response of that slot. */
  ghost predicate IsMatch<R>(rs1: seq<Slotted<R>>, rs2: seq<Slotted<R>>, i: nat, j: nat)
  {
    && i < |rs1| && j < |rs2| && rs1[i].slot == rs2[j].slot
    && (forall k :: 0 <= k < i ==> !HasSlot(rs2, rs1[k].slot))
    && (forall k :: j < k < |rs2| ==> rs2[k].slot != rs2[j].slot)
  }

  lemma MatchIsUnique<R>(rs1: seq<Slotted<R>>, rs2: seq<Slotted<R>>, i: nat, j: nat, m: nat, n: nat)
    requires IsMatch(rs1, rs2, i, j) && IsMatch(rs1, rs2, m, n)
    ensures i == m && j == n
  {
    assert HasSlot(rs2, rs1[i].slot) && HasSlot(rs2, rs1[m].slot);
  }

  /** `find_slot_match`: the second side is indexed by slot, and a later response replaces an earlier one. */
  method FindSlotMatch<R>(rs1: seq<Slotted<R>>, rs2: seq<Slotted<R>>) returns (found: Option<(nat, nat)>)
    ensures found.Some? <==> ShareSlot(rs1, rs2)
    ensures found.Some? ==> IsMatch(rs1, rs2, found.value.0, found.value.1)
  {
    var bySlot: map<nat, nat> := map[];
    for j := 0 to |rs2|
      invariant forall s :: s in bySlot ==> bySlot[s] < j && rs2[bySlot[s]].slot == s
      invariant forall k :: 0 <= k < j ==> rs2[k].slot in bySlot && k <= bySlot[rs2[k].slot]
    {
      bySlot := bySlot[rs2[j].slot := j];
    }
    for i := 0 to |rs1|
      invariant forall k :: 0 <= k < i ==> !HasSlot(rs2, rs1[k].slot)
    {
      if rs1[i].slot in bySlot {
        var j := bySlot[rs1[i].slot];
        assert HasSlot(rs2, rs1[i].slot);
        return Some((i, j));
      }
    }
    found := None;
  }

  /******* When the chosen pair is the first pair *******/

  /** The first pair of responses that share a slot, in the order of collection. */
  ghost predicate FirstPair<R>(rs1: seq<Slotted<R>>, rs2: seq<Slotted<R>>, i: nat, j: nat)
  {
    && i < |rs1| && j < |rs2| && rs1[i].slot == rs2[j].slot
    && forall m, n | 0 <= m < |rs1| && 0 <= n < |rs2| && rs1[m].slot == rs2[n].slot :: i < m || (i == m && j <= n)
  }

  ghost predicate AnsweredOnce<R>(rs: seq<Slotted<R>>, slot: nat)
  {
    forall m, n | 0 <= m < n < |rs| :: !(rs[m].slot == slot && rs[n].slot == slot)
  }

  /** `find_slot_match` returns the first pair if and only if the second endpoint answered its slot once. */
  lemma MatchIsFirstPairIff<R>(rs1: seq<Slotted<R>>, rs2: seq<Slotted<R>>, i: nat, j: nat)
    requires IsMatch(rs1, rs2, i, j)
    ensures FirstPair(rs1, rs2, i, j) <==> AnsweredOnce(rs2, rs2[j].slot)
  {
    if AnsweredOnce(rs2, rs2[j].slot) {
      forall m, n | 0 <= m < |rs1| && 0 <= n < |rs2| && rs1[m].slot == rs2[n].slot
        ensures i < m || (i == m && j <= n)
      {
        assert HasSlot(rs2, rs1[m].slot);
      }
    } else {
      var m, n :| 0 <= m < n < |rs2| && rs2[m].slot == rs2[j].slot && rs2[n].slot == rs2[j].slot;
      assert m < j;
    }
  }

  /** No slot shared by the two endpoints is below `slot`. */
  ghost predicate SmallestShared<R>(rs1: seq<Slotted<R>>, rs2: seq<Slotted<R>>, slot: nat)
  {
    forall m | 0 <= m < |rs1| && HasSlot(rs2, rs1[m].slot) :: slot <= rs1[m].slot
  }

  /** The slots of an endpoint, each where it was first answered, do not go backwards. */
  ghost predicate EarlierSlotsFirst<R>(rs: seq<Slotted<R>>)
  {
    forall a, b | 0 <= a < b < |rs| && rs[b].slot < rs[a].slot :: HasSlot(rs[..a], rs[b].slot)
  }

  lemma EarlierSlotIsChosen<R>(rs1: seq<Slotted<R>>, rs2: seq<Slotted<R>>, i: nat, j: nat)
    requires IsMatch(rs1, rs2, i, j) && EarlierSlotsFirst(rs1)
    ensures SmallestShared(rs1, rs2, rs1[i].slot)
  {
    assert forall c :: 0 <= c < i ==> rs1[..i][c] == rs1[c];
  }

  /** Earlier slots are preferred, whatever the second endpoint answers, if and only if the first one's come in order. */
  lemma PrefersEarlierSlotsIff<R>(rs1: seq<Slotted<R>>)
    ensures EarlierSlotsFirst(rs1) <==>
      forall rs2, i: nat, j: nat | IsMatch(rs1, rs2, i, j) :: SmallestShared(rs1, rs2, rs1[i].slot)
  {
    if EarlierSlotsFirst(rs1) {
      forall rs2, i: nat, j: nat | IsMatch(rs1, rs2, i, j)
        ensures SmallestShared(rs1, rs2, rs1[i].slot)
      {
        EarlierSlotIsChosen(rs1, rs2, i, j);
      }
    } else {
      var a, b :| 0 <= a < b < |rs1| && rs1[b].slot < rs1[a].slot && !HasSlot(rs1[..a], rs1[b].slot);
      var rs2, i, j := LaterSlotIsChosen(rs1, a, b);
    }
  }

  /** An answer on which a later slot is chosen over an earlier one that both endpoints have. */
  lemma LaterSlotIsChosen<R>(rs1: seq<Slotted<R>>, a: nat, b: nat) returns (rs2: seq<Slotted<R>>, i: nat, j: nat)
    requires a < b < |rs1| && rs1[b].slot < rs1[a].slot && !HasSlot(rs1[..a], rs1[b].slot)
    ensures IsMatch(rs1, rs2, i, j) && !SmallestShared(rs1, rs2, rs1[i].slot)
  {
    rs2, j := [rs1[b], rs1[a]], 1;
    i := FirstWith(rs1, rs1[a].slot, a);
    forall m | 0 <= m < i
      ensures !HasSlot(rs2, rs1[m].slot)
    {
      assert rs1[..a][m] == rs1[m];
    }
    assert rs2[0].slot == rs1[b].slot;
    assert HasSlot(rs2, rs1[b].slot);
  }

  lemma {:induction false} FirstWith<R>(rs: seq<Slotted<R>>, slot: nat, n: nat) returns (i: nat)
    requires n < |rs| && rs[n].slot == slot
    ensures i <= n && rs[i].slot == slot && forall m :: 0 <= m < i ==> rs[m].slot != slot
  {
    i := n;
    if m :| 0 <= m < n && rs[m].slot == slot {
      i := FirstWith(rs, slot, m);
    }
  }

  /******* The rounds *******/

  /** The responses collected from one endpoint after `n` rounds: those that carry a slot, after the seed. */
  function Collected<R>(seed: Slotted<R>, answers: nat -> Answer<R>, slotOf: SlotOf<R>, n: nat): (rs: seq<Slotted<R>>)
    ensures |rs| > 0
  {
    if n == 0 then [seed]
    else Collected(seed, answers, slotOf, n - 1) + Heard(answers(n), slotOf)
  }

  function Heard<R>(answer: Answer<R>, slotOf: SlotOf<R>): (rs: seq<Slotted<R>>)
    ensures |rs| <= 1
  {
    if answer.Some? && slotOf(answer.value.0).Some? then
      [Slotted(answer.value.0, answer.value.1, slotOf(answer.value.0).value)]
    else []
  }

  /** Nothing heard is ever dropped, and no answer is taken for another. */
  lemma {:induction false} CollectedGrows<R>(
    seed: Slotted<R>, answers: nat -> Answer<R>, slotOf: SlotOf<R>, m: nat, n: nat)
    requires m <= n
    ensures Collected(seed, answers, slotOf, m) <= Collected(seed, answers, slotOf, n)
  {
    if m < n {
      CollectedGrows(seed, answers, slotOf, m, n - 1);
    }
  }

  /** `r` is what the endpoint answered in one of the first `n` rounds: the response, its duration and its slot. */
  ghost predicate AnsweredIn<R>(answers: nat -> Answer<R>, slotOf: SlotOf<R>, n: nat, r: Slotted<R>)
  {
    exists m: nat :: 0 < m <= n && answers(m) == Some((r.response, r.duration)) && slotOf(r.response) == Some(r.slot)
  }

  /** What is collected is the seed and the answers that carry a slot, each with its own duration. */
  lemma {:induction false} CollectedIff<R>(
    seed: Slotted<R>, answers: nat -> Answer<R>, slotOf: SlotOf<R>, n: nat, r: Slotted<R>)
    ensures r in Collected(seed, answers, slotOf, n) <==> r == seed || AnsweredIn(answers, slotOf, n, r)
  {
    if n > 0 {
      CollectedIff(seed, answers, slotOf, n - 1, r);
      HeardIff(answers, slotOf, n, r);
    }
  }

  lemma HeardIff<R>(answers: nat -> Answer<R>, slotOf: SlotOf<R>, n: nat, r: Slotted<R>)
    requires n > 0
    ensures AnsweredIn(answers, slotOf, n, r) <==>
      AnsweredIn(answers, slotOf, n - 1, r) || r in Heard(answers(n), slotOf)
  {
    if r in Heard(answers(n), slotOf) {
      assert answers(n) == Some((r.response, r.duration));
    }
  }

  /** Once a slot is shared it stays shared. */
  lemma SharingPersists<R>(rs1: seq<Slotted<R>>, rs2: seq<Slotted<R>>, more1: seq<Slotted<R>>, more2: seq<Slotted<R>>)
    requires rs1 <= more1 && rs2 <= more2 && ShareSlot(rs1, rs2)
    ensures ShareSlot(more1, more2)
  {
    var i :| 0 <= i < |rs1| && HasSlot(rs2, rs1[i].slot);
    var j :| 0 <= j < |rs2| && rs2[j].slot == rs1[i].slot;
    PairShares(more1, more2, i, j);
  }

  datatype Setup<!R> = Setup(
    seed1: Slotted<R>, seed2: Slotted<R>,
    answers1: nat -> Answer<R>, answers2: nat -> Answer<R>, slotOf: SlotOf<R>)
  {
    function Heard1(n: nat): seq<Slotted<R>> {
      Collected(seed1, answers1, slotOf, n)
    }

    function Heard2(n: nat): seq<Slotted<R>> {
      Collected(seed2, answers2, slotOf, n)
    }

    ghost predicate Shared(n: nat) {
      ShareSlot(Heard1(n), Heard2(n))
    }
  }

  datatype Outcome<R> = Outcome(first: Slotted<R>, second: Slotted<R>, retries: nat, matched: bool)

  /** The first round with a shared slot decides; without one the latest responses are taken. */
  ghost predicate Decides<R>(s: Setup<R>, maxRetries: nat, o: Outcome<R>)
  {
    && o.retries <= maxRetries
    && (forall n: nat :: n < o.retries ==> !s.Shared(n))
    && (o.matched <==> s.Shared(o.retries))
    && (!o.matched ==> o.retries == maxRetries)
    && if o.matched then ChosenPair(s.Heard1(o.retries), s.Heard2(o.retries), o) else LatestPair(s, o)
  }

  ghost predicate ChosenPair<R>(rs1: seq<Slotted<R>>, rs2: seq<Slotted<R>>, o: Outcome<R>)
  {
    exists i: nat, j: nat :: IsMatch(rs1, rs2, i, j) && o.first == rs1[i] && o.second == rs2[j]
  }

  ghost predicate LatestPair<R>(s: Setup<R>, o: Outcome<R>)
  {
    var rs1, rs2 := s.Heard1(o.retries), s.Heard2(o.retries);
    o.first == rs1[|rs1| - 1] && o.second == rs2[|rs2| - 1]
  }

  /** The loop of `compare_with_slot_compensation`, entered with seeds of different slots. */
  method Compensate<R>(s: Setup<R>, maxRetries: nat) returns (o: Outcome<R>)
    requires s.seed1.slot != s.seed2.slot
    ensures Decides(s, maxRetries, o)
  {
    var rs1, rs2 := [s.seed1], [s.seed2];
    var retries := 0;
    while retries < maxRetries
      invariant retries <= maxRetries && rs1 == s.Heard1(retries) && rs2 == s.Heard2(retries)
      invariant forall n: nat :: n <= retries ==> !s.Shared(n)
    {
      retries := retries + 1;
      rs1, rs2 := rs1 + Heard(s.answers1(retries), s.slotOf), rs2 + Heard(s.answers2(retries), s.slotOf);
      var found := FindSlotMatch(rs1, rs2);
      if found.Some? {
        o := Outcome(rs1[found.value.0], rs2[found.value.1], retries, true);
        assert ChosenPair(rs1, rs2, o);
        return;
      }
    }
    o := Outcome(rs1[|rs1| - 1], rs2[|rs2| - 1], retries, false);
  }

  /** The outcome is determined by the answers. */
  lemma OutcomeIsUnique<R>(s: Setup<R>, maxRetries: nat, o: Outcome<R>, p: Outcome<R>)
    requires Decides(s, maxRetries, o) && Decides(s, maxRetries, p)
    ensures o == p
  {
    assert o.retries == p.retries;
    if o.matched {
      var rs1, rs2 := s.Heard1(o.retries), s.Heard2(o.retries);
      var i: nat, j: nat :| IsMatch(rs1, rs2, i, j) && o.first == rs1[i] && o.second == rs2[j];
      var m: nat, n: nat :| IsMatch(rs1, rs2, m, n) && p.first == rs1[m] && p.second == rs2[n];
      MatchIsUnique(rs1, rs2, i, j, m, n);
    }
  }

  /** The pair the loop ends on is the first pair collected if and only if the second endpoint answered its slot once. */
  lemma ChosenIsFirstIff<R>(s: Setup<R>, maxRetries: nat, o: Outcome<R>, i: nat, j: nat)
    requires Decides(s, maxRetries, o) && o.matched && IsMatch(s.Heard1(o.retries), s.Heard2(o.retries), i, j)
    ensures o.first == s.Heard1(o.retries)[i] && o.second == s.Heard2(o.retries)[j]
    ensures FirstPair(s.Heard1(o.retries), s.Heard2(o.retries), i, j) <==>
      AnsweredOnce(s.Heard2(o.retries), o.second.slot)
  {
    var rs1, rs2 := s.Heard1(o.retries), s.Heard2(o.retries);
    var m: nat, n: nat :| IsMatch(rs1, rs2, m, n) && o.first == rs1[m] && o.second == rs2[n];
    MatchIsUnique(rs1, rs2, i, j, m, n);
    MatchIsFirstPairIff(rs1, rs2, i, j);
  }

  /** Two responses of one slot from the second endpoint, the seed and its first answer: the later one is chosen. */
  lemma LaterResponseWins<R>(s: Setup<R>, maxRetries: nat, high: R, a: R, b: R, c: R)
    requires maxRetries >= 1 && HasSlots(s.slotOf, high, a) && s.slotOf(b) == s.slotOf(c) == s.slotOf(a)
    requires s.seed1 == Slotted(high, 0, s.slotOf(high).value) && s.seed2 == Slotted(b, 0, s.slotOf(b).value)
    requires s.answers1(1) == Some((a, 0)) && s.answers2(1) == Some((c, 0))
    ensures var first, second := Slotted(a, 0, s.slotOf(a).value), Slotted(c, 0, s.slotOf(c).value);
      Decides(s, maxRetries, Outcome(first, second, 1, true))
    ensures IsMatch(s.Heard1(1), s.Heard2(1), 1, 1) && FirstPair(s.Heard1(1), s.Heard2(1), 1, 0)
    ensures !FirstPair(s.Heard1(1), s.Heard2(1), 1, 1)
  {
    var first, second := Slotted(a, 0, s.slotOf(a).value), Slotted(c, 0, s.slotOf(c).value);
    OneRound(s, maxRetries, [s.seed1, first], [s.seed2, second], 1, 1);
    assert s.Heard1(1)[1].slot == s.Heard2(1)[0].slot == s.Heard2(1)[1].slot;
  }

  /** The context slot of `low` is below that of `high`. */
  ghost predicate HasSlots<R>(slotOf: SlotOf<R>, high: R, low: R)
  {
    slotOf(high).Some? && slotOf(low).Some? && slotOf(low).value < slotOf(high).value
  }

  /** A pair found in the first round is the outcome. */
  lemma OneRound<R>(s: Setup<R>, maxRetries: nat, rs1: seq<Slotted<R>>, rs2: seq<Slotted<R>>, i: nat, j: nat)
    requires maxRetries >= 1 && s.seed1.slot != s.seed2.slot
    requires rs1 == [s.seed1] + Heard(s.answers1(1), s.slotOf) && rs2 == [s.seed2] + Heard(s.answers2(1), s.slotOf)
    requires IsMatch(rs1, rs2, i, j)
    ensures s.Heard1(1) == rs1 && s.Heard2(1) == rs2 && Decides(s, maxRetries, Outcome(rs1[i], rs2[j], 1, true))
  {
    SeedsAlone(s);
    assert s.Heard1(0) == [s.seed1] && s.Heard2(0) == [s.seed2];
    PairShares(rs1, rs2, i, j);
  }

  /** The last answer of the first endpoint is of a shared slot below the chosen one. */
  ghost predicate LastAnswerIsEarlier<R>(s: Setup<R>, o: Outcome<R>)
  {
    var last := Heard(s.answers1(o.retries), s.slotOf);
    last != [] && last[0].slot < o.first.slot && HasSlot(s.Heard2(o.retries), last[0].slot)
  }

  /** The loop ends on the smallest shared slot unless the first endpoint's last answer is of a smaller one. */
  lemma ChosenSlotIsSmallestIff<R>(s: Setup<R>, maxRetries: nat, o: Outcome<R>)
    requires Decides(s, maxRetries, o) && o.matched && s.seed1.slot != s.seed2.slot
    ensures SmallestShared(s.Heard1(o.retries), s.Heard2(o.retries), o.first.slot) <==> !LastAnswerIsEarlier(s, o)
  {
    var n := o.retries;
    SeedsAlone(s);
    var rs1, rs2, old1, old2 := s.Heard1(n), s.Heard2(n), s.Heard1(n - 1), s.Heard2(n - 1);
    var last1, last2 := Heard(s.answers1(n), s.slotOf), Heard(s.answers2(n), s.slotOf);
    assert rs1 == old1 + last1 && rs2 == old2 + last2 && !s.Shared(n - 1);
    var i: nat, j: nat :| IsMatch(rs1, rs2, i, j) && o.first == rs1[i] && o.second == rs2[j];
    forall m | 0 <= m < |rs1| && HasSlot(rs2, rs1[m].slot)
      ensures rs1[m].slot == rs1[i].slot || (last1 != [] && rs1[m] == last1[0])
    {
      if m < |old1| {
        SharedInLastAnswer(old1, old2, last2, m);
        SharedInLastAnswer(old1, old2, last2, i);
      }
    }
    if last1 != [] {
      assert rs1[|old1|] == last1[0];
    }
  }

  lemma SharedInLastAnswer<R>(old1: seq<Slotted<R>>, old2: seq<Slotted<R>>, last2: seq<Slotted<R>>, m: nat)
    requires !ShareSlot(old1, old2) && |last2| <= 1 && m < |old1| && HasSlot(old2 + last2, old1[m].slot)
    ensures last2 != [] && old1[m].slot == last2[0].slot
  {
    assert !HasSlot(old2, old1[m].slot);
  }

  /** Slots that come in order are enough. */
  lemma OrderedSlotsAreSafe<R>(s: Setup<R>, maxRetries: nat, o: Outcome<R>)
    requires Decides(s, maxRetries, o) && o.matched && EarlierSlotsFirst(s.Heard1(o.retries))
    ensures SmallestShared(s.Heard1(o.retries), s.Heard2(o.retries), o.first.slot)
  {
    var rs1, rs2 := s.Heard1(o.retries), s.Heard2(o.retries);
    var i: nat, j: nat :| IsMatch(rs1, rs2, i, j) && o.first == rs1[i] && o.second == rs2[j];
    EarlierSlotIsChosen(rs1, rs2, i, j);
  }

  /** The endpoints swap their slots in the first round: the later one is chosen. */
  lemma SwappedSlotsChooseLater<R>(s: Setup<R>, maxRetries: nat, high: R, low: R)
    requires maxRetries >= 1 && HasSlots(s.slotOf, high, low)
    requires s.seed1 == Slotted(high, 0, s.slotOf(high).value) && s.seed2 == Slotted(low, 0, s.slotOf(low).value)
    requires s.answers1(1) == Some((low, 0)) && s.answers2(1) == Some((high, 0))
    ensures Decides(s, maxRetries, Outcome(s.seed1, s.seed1, 1, true))
    ensures !SmallestShared(s.Heard1(1), s.Heard2(1), s.seed1.slot)
  {
    OneRound(s, maxRetries, [s.seed1, s.seed2], [s.seed2, s.seed1], 0, 1);
    assert s.Heard1(1)[1] == s.Heard2(1)[0] == s.seed2;
    assert HasSlot(s.Heard2(1), s.Heard1(1)[1].slot);
  }

  /** The pair the loop ends on was answered: each response with its own duration, by its own endpoint, in time. */
  lemma OutcomeWasAnswered<R>(s: Setup<R>, maxRetries: nat, o: Outcome<R>)
    requires Decides(s, maxRetries, o)
    ensures o.first == s.seed1 || AnsweredIn(s.answers1, s.slotOf, o.retries, o.first)
    ensures o.second == s.seed2 || AnsweredIn(s.answers2, s.slotOf, o.retries, o.second)
  {
    assert o.first in s.Heard1(o.retries) && o.second in s.Heard2(o.retries);
    CollectedIff(s.seed1, s.answers1, s.slotOf, o.retries, o.first);
    CollectedIff(s.seed2, s.answers2, s.slotOf, o.retries, o.second);
  }

  /** A slot is shared within the allowed rounds exactly when the loop ends on a pair of equal slots. */
  lemma MatchedIffSharedInTime<R>(s: Setup<R>, maxRetries: nat, o: Outcome<R>)
    requires Decides(s, maxRetries, o)
    ensures o.matched <==> s.Shared(maxRetries)
    ensures o.matched ==> o.first.slot == o.second.slot
    ensures !o.matched ==> o.first.slot != o.second.slot
  {
    var rs1, rs2 := s.Heard1(o.retries), s.Heard2(o.retries);
    if o.matched {
      CollectedGrows(s.seed1, s.answers1, s.slotOf, o.retries, maxRetries);
      CollectedGrows(s.seed2, s.answers2, s.slotOf, o.retries, maxRetries);
      SharingPersists(rs1, rs2, s.Heard1(maxRetries), s.Heard2(maxRetries));
    } else if o.first.slot == o.second.slot {
      PairShares(rs1, rs2, |rs1| - 1, |rs2| - 1);
    }
  }

  /** A chosen pair always uses an answer of the last round. */
  lemma LastRoundCloses<R>(s: Setup<R>, maxRetries: nat, o: Outcome<R>)
    requires Decides(s, maxRetries, o) && o.matched && s.seed1.slot != s.seed2.slot
    ensures o.retries > 0
    ensures [o.first] == Heard(s.answers1(o.retries), s.slotOf) || [o.second] == Heard(s.answers2(o.retries), s.slotOf)
  {
    var n := o.retries;
    SeedsAlone(s);
    var rs1, rs2 := s.Heard1(n), s.Heard2(n);
    var i: nat, j: nat :| IsMatch(rs1, rs2, i, j) && o.first == rs1[i] && o.second == rs2[j];
    var old1, old2 := s.Heard1(n - 1), s.Heard2(n - 1);
    assert rs1 == old1 + Heard(s.answers1(n), s.slotOf) && rs2 == old2 + Heard(s.answers2(n), s.slotOf);
    assert !s.Shared(n - 1);
    if i < |old1| && j < |old2| {
      PairShares(old1, old2, i, j);
    }
  }

  lemma SeedsAlone<R>(s: Setup<R>)
    requires s.seed1.slot != s.seed2.slot
    ensures !s.Shared(0)
  {
  }

  /******* The whole comparison *******/

  /** The verdict on two responses, and whether and how their contexts differ. */
  datatype Comparison<C> = Comparison(matches: bool, context: C)

  datatype Report<R, C> = Report(
    first: R, duration1: nat, second: R, duration2: nat, result: Comparison<C>, retries: nat)

  /**
   `compare_with_slot_compensation` over any comparison of two responses. The verdict is on the pair that is reported;
   the context result stays that of the pair the caller came with.
   */
  method CompareWithSlotCompensation<R, C>(
    first: R, duration1: nat, second: R, duration2: nat, compare: (R, R) -> Comparison<C>, slotOf: SlotOf<R>,
    answers1: nat -> Answer<R>, answers2: nat -> Answer<R>, enabled: bool, maxRetries: nat)
    returns (report: Report<R, C>, ghost outcome: Option<Outcome<R>>)
    ensures report.result == Comparison(compare(report.first, report.second).matches, compare(first, second).context)
    ensures report.retries <= maxRetries
    ensures outcome.Some? <==>
      && enabled && !compare(first, second).matches
      && slotOf(first).Some? && slotOf(second).Some? && slotOf(first).value != slotOf(second).value
    ensures outcome.None? ==> report == Report(first, duration1, second, duration2, compare(first, second), 0)
    ensures outcome.Some? ==>
      && SlotsDiffer(slotOf(first), slotOf(second))
      && Decides(
        Setup(
          Slotted(first, duration1, slotOf(first).value), Slotted(second, duration2, slotOf(second).value),
          answers1, answers2, slotOf),
        maxRetries, outcome.value)
      && report.first == outcome.value.first.response && report.duration1 == outcome.value.first.duration
      && report.second == outcome.value.second.response && report.duration2 == outcome.value.second.duration
      && report.retries == outcome.value.retries
  {
    var result := compare(first, second);
    var slot1, slot2 := slotOf(first), slotOf(second);
    if !enabled || result.matches || !SlotsDiffer(slot1, slot2) {
      return Report(first, duration1, second, duration2, result, 0), None;
    }
    var seed1, seed2 := Slotted(first, duration1, slot1.value), Slotted(second, duration2, slot2.value);
    var o := Compensate(Setup(seed1, seed2, answers1, answers2, slotOf), maxRetries);
    outcome := Some(o);
    var final := compare(o.first.response, o.second.response);
    report := Report(
      o.first.response, o.first.duration, o.second.response, o.second.duration,
      result.(matches := final.matches), o.retries);
  }

  predicate SlotsDiffer(slot1: Option<nat>, slot2: Option<nat>)
  {
    slot1.Some? && slot2.Some? && slot1 != slot2
  }
}
