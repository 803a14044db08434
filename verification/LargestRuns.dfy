/** Runs of the largest-accounts tracker: what its reservoir knows of every holder, in any order of blocks. */
module LargestRuns {
  import opened Basics
  import opened LargestTops

  /** The newest thing said of a holder: its amount, or that it closed or left the mint. */
  datatype Fact = Fact(amount: Option<nat>, stamp: Version)

  type Ledger = map<Holder, Fact>

  function Learn(l: Ledger, h: Holder, f: Fact): Ledger
  {
    if h in l && !Older(l[h].stamp, f.stamp) then l else l[h := f]
  }

  /** The true holders: those whose newest fact is an amount. */
  function Holders(l: Ledger): map<Holder, nat>
  {
    map h | h in l && l[h].amount.Some? :: l[h].amount.value
  }

  /** `applied` is the highest slot so far; `pending` holds the accounts of the block not yet handled. */
  datatype State = State(top: Top, ledger: Ledger, applied: nat, slot: nat, oldBlock: bool, pending: set<Holder>)

  datatype Event =
    | Block(slot: nat, holders: set<Holder>)
    | Change(holder: Holder, writeVersion: nat, amount: Option<nat>)

  ghost predicate TopChanges(t: Top, after: Top, h: Holder, f: Fact, oldBlock: bool, k: nat)
  {
    match f.amount
    case None => after == Removed(t, h, f.stamp)
    case Some(amount) => Updated(t, after, h, Entry(amount, f.stamp), false, oldBlock, k)
  }

  ghost predicate Next(s: State, after: State, e: Event, k: nat)
  {
    match e
    case Block(slot, holders) =>
      && s.pending == {}
      && after == State(s.top, s.ledger, Max(s.applied, slot), slot, slot <= s.applied, holders)
    case Change(h, writeVersion, amount) =>
      var f := Fact(amount, Version(s.slot, writeVersion));
      && h in s.pending
      && TopChanges(s.top, after.top, h, f, s.oldBlock, k)
      && after == State(after.top, Learn(s.ledger, h, f), s.applied, s.slot, s.oldBlock, s.pending - {h})
  }

  /** No version is strictly between the two. */
  predicate Adjacent(a: Version, b: Version)
  {
    a == b || (a.slot == b.slot && b.writeVersion == a.writeVersion + 1)
  }

  /**
   The entry has the true amount, or it and the truth are too low to show, and no version that could still arrive
   would wrongly replace it.
   */
  predicate Harmless(e: Entry, f: Fact, floor: nat)
  {
    && Adjacent(e.stamp, f.stamp)
    && (f.amount == Some(e.amount) || (e.amount < floor && (f.amount.None? || f.amount.value <= floor)))
  }

  /** Members are known as far as it shows; every other holder has at most the floor. */
  ghost predicate TopInv(t: Top, l: Ledger)
  {
    && (forall h :: h in t.entries ==> h in l && Harmless(t.entries[h], l[h], t.floor))
    && (forall h :: h in l && h !in t.entries && l[h].amount.Some? ==> l[h].amount.value <= t.floor)
  }

  /** Members are at their newest version. */
  ghost predicate Exact(t: Top, l: Ledger)
  {
    forall h :: h in t.entries && h in l ==> t.entries[h].stamp == l[h].stamp
  }

  /** Nothing known is newer than the slots applied; a new block is newer than all that is known. */
  ghost predicate StampInv(s: State)
  {
    && s.slot <= s.applied
    && (forall h :: h in s.ledger ==> s.ledger[h].stamp.slot <= s.applied)
    && (forall h :: h in s.ledger && h in s.pending && !s.oldBlock ==> s.ledger[h].stamp.slot < s.slot)
  }

  ghost predicate Inv(s: State)
  {
    TopInv(s.top, s.ledger) && StampInv(s)
  }

  /** A version that arrives again says the same again. */
  predicate OneState(s: State, e: Event)
  {
    e.Change? && e.holder in s.ledger && s.ledger[e.holder].stamp == Version(s.slot, e.writeVersion) ==>
      s.ledger[e.holder].amount == e.amount
  }

  lemma NextKeepsStamps(s: State, after: State, e: Event, k: nat)
    requires StampInv(s) && Next(s, after, e, k)
    ensures StampInv(after)
  {
  }

  /** Either the member is at its newest version or the fact does not contradict a known one. */
  ghost predicate Sensible(t: Top, l: Ledger, h: Holder, f: Fact)
  {
    || (h in l && l[h].stamp == f.stamp ==> l[h].amount == f.amount)
    || (h in t.entries && h in l ==> t.entries[h].stamp == l[h].stamp)
  }

  lemma RemovalKeepsTop(t: Top, l: Ledger, h: Holder, stamp: Version)
    requires TopInv(t, l) && Sensible(t, l, h, Fact(None, stamp))
    ensures TopInv(Removed(t, h, stamp), Learn(l, h, Fact(None, stamp)))
  {
  }

  lemma UpdateKeepsTop(t: Top, after: Top, l: Ledger, h: Holder, e: Entry, oldBlock: bool, k: nat)
    requires TopInv(t, l) && Updated(t, after, h, e, false, oldBlock, k)
    requires Sensible(t, l, h, Fact(Some(e.amount), e.stamp))
    requires h in l && !oldBlock ==> Older(l[h].stamp, e.stamp)
    ensures TopInv(after, Learn(l, h, Fact(Some(e.amount), e.stamp)))
  {
    if h !in t.entries && !oldBlock && |t.entries| >= k {
      var m :| IsMin(t.entries, m) && after == Displaced(t, m, h, e);
      DisplacementKeepsTop(t, m, l, h, e);
    }
  }

  lemma DisplacementKeepsTop(t: Top, m: Holder, l: Ledger, h: Holder, e: Entry)
    requires TopInv(t, l) && m in t.entries && h !in t.entries
    requires h in l ==> Older(l[h].stamp, e.stamp)
    ensures TopInv(Displaced(t, m, h, e), Learn(l, h, Fact(Some(e.amount), e.stamp)))
  {
    var after, learned := Displaced(t, m, h, e), Learn(l, h, Fact(Some(e.amount), e.stamp));
    forall g | g in learned && g !in after.entries && learned[g].amount.Some?
      ensures learned[g].amount.value <= after.floor
    {
      if g == m {
        assert Harmless(t.entries[m], l[m], t.floor);
      }
    }
  }

  lemma NextKeepsInv(s: State, after: State, e: Event, k: nat)
    requires Inv(s) && Next(s, after, e, k) && (OneState(s, e) || Exact(s.top, s.ledger))
    ensures Inv(after)
  {
    NextKeepsStamps(s, after, e, k);
    if e.Change? {
      var stamp := Version(s.slot, e.writeVersion);
      assert Sensible(s.top, s.ledger, e.holder, Fact(e.amount, stamp));
      if e.amount.None? {
        RemovalKeepsTop(s.top, s.ledger, e.holder, stamp);
      } else {
        UpdateKeepsTop(s.top, after.top, s.ledger, e.holder, Entry(e.amount.value, stamp), s.oldBlock, k);
      }
    }
  }

  lemma NextKeepsExact(s: State, after: State, e: Event, k: nat)
    requires Inv(s) && Next(s, after, e, k) && Exact(s.top, s.ledger)
    ensures Exact(after.top, after.ledger)
  {
    if e.Change? && e.amount.Some? {
      var entry := Entry(e.amount.value, Version(s.slot, e.writeVersion));
      if e.holder !in s.top.entries && !s.oldBlock && |s.top.entries| >= k {
        var m :| IsMin(s.top.entries, m) && after.top == Displaced(s.top, m, e.holder, entry);
      }
    }
  }

  /** A run: consecutive states are related by the events between them. */
  ghost predicate Run(ss: seq<State>, es: seq<Event>, k: nat)
  {
    |ss| == |es| + 1 && forall i :: 0 <= i < |es| ==> Next(ss[i], ss[i + 1], es[i], k)
  }

  /** No version arrives with two states. */
  ghost predicate Consistent(ss: seq<State>, es: seq<Event>)
  {
    |ss| == |es| + 1 && forall i :: 0 <= i < |es| ==> OneState(ss[i], es[i])
  }

  lemma {:induction false} RunKeepsInv(ss: seq<State>, es: seq<Event>, k: nat, n: nat)
    requires Run(ss, es, k) && n < |ss| && Inv(ss[0])
    requires Consistent(ss, es) || Exact(ss[0].top, ss[0].ledger)
    ensures Inv(ss[n])
    ensures Exact(ss[0].top, ss[0].ledger) ==> Exact(ss[n].top, ss[n].ledger)
  {
    if n > 0 {
      RunKeepsInv(ss, es, k, n - 1);
      NextKeepsInv(ss[n - 1], ss[n], es[n - 1], k);
      if Exact(ss[0].top, ss[0].ledger) {
        NextKeepsExact(ss[n - 1], ss[n], es[n - 1], k);
      }
    }
  }

  /** The rows served, when there are any, are the true top by amount. */
  ghost predicate RightAnswer(s: State)
  {
    forall served | served != [] && ServedFor(s.top, served) ::
      IsTopByAmount(served, Holders(s.ledger), PERSISTED_TOP_N)
  }

  lemma InvGivesRightAnswer(s: State)
    requires Inv(s)
    ensures RightAnswer(s)
  {
    forall served | served != [] && ServedFor(s.top, served)
      ensures IsTopByAmount(served, Holders(s.ledger), PERSISTED_TOP_N)
    {
      ServedIsTrue(s, served);
    }
  }

  lemma ServedIsTrue(s: State, rows: seq<Row>)
    requires Inv(s) && Computed(s.top, rows) && Reports(rows, s.top.floor, PERSISTED_TOP_N)
    ensures IsTopByAmount(rows, Holders(s.ledger), PERSISTED_TOP_N)
  {
    forall i | 0 <= i < |rows|
      ensures rows[i].holder in Holders(s.ledger) && rows[i].amount == Holders(s.ledger)[rows[i].holder]
    {
      RowIsTrue(s, rows, i);
    }
    forall h | h in Holders(s.ledger) && !Listed(rows, h)
      ensures Omittable(rows, PERSISTED_TOP_N, Holders(s.ledger)[h])
    {
      OmittedIsSmall(s, rows, h);
    }
  }

  /** A row that is served is at or above the floor, so its member is not one of the wrong ones. */
  lemma RowIsTrue(s: State, rows: seq<Row>, i: nat)
    requires Inv(s) && Computed(s.top, rows) && Reports(rows, s.top.floor, PERSISTED_TOP_N) && i < |rows|
    ensures rows[i].holder in Holders(s.ledger) && rows[i].amount == Holders(s.ledger)[rows[i].holder]
  {
    var h, n := rows[i].holder, |rows|;
    assert h in Amounts(s.top.entries);
    assert i < n - 1 ==> Below(rows[n - 1], rows[i]);
    assert Harmless(s.top.entries[h], s.ledger[h], s.top.floor);
  }

  lemma OmittedIsSmall(s: State, rows: seq<Row>, h: Holder)
    requires Inv(s) && Computed(s.top, rows) && Reports(rows, s.top.floor, PERSISTED_TOP_N)
    requires h in Holders(s.ledger) && !Listed(rows, h)
    ensures Omittable(rows, PERSISTED_TOP_N, Holders(s.ledger)[h])
  {
    if h in s.top.entries {
      assert h in Amounts(s.top.entries);
      assert Harmless(s.top.entries[h], s.ledger[h], s.top.floor);
      if |rows| < PERSISTED_TOP_N {
        AllListed(rows, s.top, PERSISTED_TOP_N, h);
      } else {
        assert Below(Row(h, Amounts(s.top.entries)[h]), rows[PERSISTED_TOP_N - 1]);
      }
    }
  }

  /** In every run, in any order of blocks, what is served is the true top by amount. */
  lemma ReportedRowsAreTrue(ss: seq<State>, es: seq<Event>, k: nat, n: nat)
    requires Run(ss, es, k) && Inv(ss[0]) && n < |ss|
    requires Consistent(ss, es) || Exact(ss[0].top, ss[0].ledger)
    ensures RightAnswer(ss[n])
  {
    RunKeepsInv(ss, es, k, n);
    InvGivesRightAnswer(ss[n]);
  }

  /******* Exactly when a live tracker is never wrong *******/

  ghost predicate Reaches(s: State, t: State, k: nat)
  {
    exists ss, es :: Run(ss, es, k) && Consistent(ss, es) && ss[0] == s && ss[|es|] == t
  }

  ghost predicate NeverWrong(s: State, k: nat)
  {
    forall t | Reaches(s, t, k) :: RightAnswer(t)
  }

  lemma ReachesItself(s: State, k: nat)
    ensures Reaches(s, s, k)
  {
    var none: seq<Event> := [];
    assert Run([s], none, k) && Consistent([s], none) && [s][|none|] == s;
  }

  lemma ReachesNext(s: State, t: State, u: State, e: Event, k: nat)
    requires Reaches(s, t, k) && Next(t, u, e, k) && OneState(t, e)
    ensures Reaches(s, u, k)
  {
    var ss, es :| Run(ss, es, k) && Consistent(ss, es) && ss[0] == s && ss[|es|] == t;
    var more, longer := es + [e], ss + [u];
    forall i | 0 <= i < |more|
      ensures Next(longer[i], longer[i + 1], more[i], k) && OneState(longer[i], more[i])
    {
      if i < |es| {
        assert longer[i] == ss[i] && longer[i + 1] == ss[i + 1] && more[i] == es[i];
      }
    }
    assert Run(longer, more, k) && Consistent(longer, more) && longer[0] == s && longer[|more|] == u;
  }

  /** A tracker between two blocks, whose entries are not newer than what is known. */
  ghost predicate GoesLive(s: State)
  {
    && s.pending == {} && StampInv(s)
    && forall h :: h in s.top.entries ==> h in s.ledger && WasSeen(s.top.entries[h], s.ledger[h])
  }

  predicate WasSeen(e: Entry, newest: Fact)
  {
    !Older(newest.stamp, e.stamp)
  }

  ghost predicate AllHarmless(s: State)
  {
    forall h :: h in s.top.entries && h in s.ledger ==> Harmless(s.top.entries[h], s.ledger[h], s.top.floor)
  }

  /** The holders with more than a given amount. */
  ghost function Exceeding(l: Ledger, amount: nat): set<Holder>
  {
    set h | h in l && l[h].amount.Some? && l[h].amount.value > amount
  }

  ghost function Funded(l: Ledger): set<Holder>
  {
    Exceeding(l, 0)
  }

  /**
   A tracker that goes live, with whatever floor, never serves a wrong row in any run, if and only if each member is
   right as far as it can show, at a version that nothing can slip behind, and every holder above the floor is a member.
   */
  lemma NeverWrongIff(s: State, k: nat)
    requires GoesLive(s) && k >= PERSISTED_TOP_N
    ensures NeverWrong(s, k) <==> AllHarmless(s) && Exceeding(s.ledger, s.top.floor) <= s.top.entries.Keys
  {
    ReachesItself(s, k);
    if !AllHarmless(s) {
      var h :| h in s.top.entries && h in s.ledger && !Harmless(s.top.entries[h], s.ledger[h], s.top.floor);
      HarmfulIsWrong(s, k, h);
    } else if !(Exceeding(s.ledger, s.top.floor) <= s.top.entries.Keys) {
      var c :| c in Exceeding(s.ledger, s.top.floor) && c !in s.top.entries;
      MissingIsWrong(s, k, c);
    } else {
      assert Inv(s);
      forall t | Reaches(s, t, k)
        ensures RightAnswer(t)
      {
        var ss, es :| Run(ss, es, k) && Consistent(ss, es) && ss[0] == s && ss[|es|] == t;
        ReportedRowsAreTrue(ss, es, k, |es|);
      }
    }
  }

  /******* Runs that serve a wrong row *******/

  lemma OneRowIsServed(h: Holder, e: Entry)
    ensures ServedFor(Top(map[h := e], 0), [Row(h, e.amount)])
  {
    var t, rows := Top(map[h := e], 0), [Row(h, e.amount)];
    var amounts := Amounts(t.entries);
    assert amounts == map[h := e.amount];
    assert rows[0].holder == h && Listed(rows, h);
    assert Computed(t, rows);
  }

  /** Twenty members at or above the floor, and nothing else as high, are what is served. */
  lemma FullRowsAreServed(t: Top, full: set<Holder>) returns (rows: seq<Row>)
    requires full <= t.entries.Keys && |full| == PERSISTED_TOP_N
    requires forall g :: g in full ==> t.entries[g].amount >= t.floor
    requires forall g, x :: g in full && x in t.entries && x !in full ==> t.entries[x].amount < t.entries[g].amount
    ensures ServedFor(t, rows) && |rows| == PERSISTED_TOP_N
    ensures forall h :: Listed(rows, h) <==> h in full
    ensures forall i :: 0 <= i < |rows| ==>
      rows[i].holder in t.entries && rows[i].amount == t.entries[rows[i].holder].amount
  {
    rows := SomeTop(t);
    RowsAreFull(t, full, rows);
    var last := rows[PERSISTED_TOP_N - 1];
    assert Listed(rows, last.holder);
    assert last.amount == t.entries[last.holder].amount;
  }

  lemma RowsAreFull(t: Top, full: set<Holder>, rows: seq<Row>)
    requires full <= t.entries.Keys && |full| == PERSISTED_TOP_N && Computed(t, rows)
    requires forall g, x :: g in full && x in t.entries && x !in full ==> t.entries[x].amount < t.entries[g].amount
    ensures |rows| == PERSISTED_TOP_N && forall h :: Listed(rows, h) <==> h in full
    ensures forall i :: 0 <= i < |rows| ==>
      rows[i].holder in t.entries && rows[i].amount == t.entries[rows[i].holder].amount
  {
    var amounts := Amounts(t.entries);
    assert amounts.Keys == t.entries.Keys;
    SubsetSize(full, amounts.Keys);
    assert |amounts| == |amounts.Keys|;
    ListedAreFull(t, full, rows);
  }

  lemma ListedAreFull(t: Top, full: set<Holder>, rows: seq<Row>)
    requires full <= t.entries.Keys && |full| == |rows| && Computed(t, rows)
    requires forall g, x :: g in full && x in t.entries && x !in full ==> t.entries[x].amount < t.entries[g].amount
    ensures forall h :: Listed(rows, h) <==> h in full
  {
    assert Amounts(t.entries).Keys == t.entries.Keys;
    var listed := ListedHolders(rows, |rows|);
    ListedSize(rows, |rows|);
    forall h | h in listed
      ensures h in full
    {
      if h !in full {
        var g := Missing(full, listed, h);
      }
    }
    SubsetSize(listed, full);
  }

  lemma Missing(a: set<Holder>, b: set<Holder>, h: Holder) returns (g: Holder)
    requires |a| == |b| && h in b && h !in a
    ensures g in a && g !in b
  {
    if a <= b {
      SubsetSize(a, b);
    }
    g :| g in a && g !in b;
  }

  /** A member with a wrong amount that can show is served once the others are closed. */
  lemma WrongMemberIsServed(s: State, t: State, k: nat, h: Holder)
    requires Reaches(s, t, k) && GoesLive(t) && h in t.top.entries && k >= PERSISTED_TOP_N
    requires t.top.entries[h].amount >= t.top.floor
    requires t.ledger[h].amount != Some(t.top.entries[h].amount)
    ensures !NeverWrong(s, k)
  {
    var u := CloseAllBut(s, t, k, {h});
    var e := t.top.entries[h];
    assert u.top.entries == map[h := e];
    assert u.ledger[h] == t.ledger[h];
    if t.top.floor == 0 {
      OneRowIsServed(h, e);
      WrongRow(u, [Row(h, e.amount)], 0);
    } else {
      var v, others := ManyArrive(s, u, k, PERSISTED_TOP_N - 1, t.top.floor);
      WrongMemberShows(v, h, others);
    }
  }

  lemma WrongMemberShows(v: State, h: Holder, others: set<Holder>)
    requires v.top.entries.Keys == others + {h} && h !in others && |others| == PERSISTED_TOP_N - 1
    requires forall g :: g in v.top.entries ==> v.top.entries[g].amount >= v.top.floor
    requires h in v.ledger && v.ledger[h].amount != Some(v.top.entries[h].amount)
    ensures !RightAnswer(v)
  {
    var rows := FullRowsAreServed(v.top, others + {h});
    assert Listed(rows, h);
    var i :| 0 <= i < |rows| && rows[i].holder == h;
    WrongRow(v, rows, i);
  }

  lemma WrongRow(u: State, rows: seq<Row>, i: nat)
    requires i < |rows| && ServedFor(u.top, rows)
    requires rows[i].holder in u.ledger && u.ledger[rows[i].holder].amount != Some(rows[i].amount)
    ensures !RightAnswer(u)
  {
    assert !IsTopByAmount(rows, Holders(u.ledger), PERSISTED_TOP_N);
  }

  lemma HarmfulIsWrong(s: State, k: nat, h: Holder)
    requires GoesLive(s) && Reaches(s, s, k) && k >= PERSISTED_TOP_N
    requires h in s.top.entries && !Harmless(s.top.entries[h], s.ledger[h], s.top.floor)
    ensures !NeverWrong(s, k)
  {
    var e, f := s.top.entries[h], s.ledger[h];
    if !Adjacent(e.stamp, f.stamp) {
      var t := SlipBehind(s, k, h);
      WrongMemberIsServed(s, t, k, h);
    } else if e.amount >= s.top.floor {
      WrongMemberIsServed(s, s, k, h);
    } else {
      HiddenMemberIsWrong(s, k, h);
    }
  }

  /** A late block with a version between the member's and the newest one changes the member only. */
  lemma SlipBehind(s: State, k: nat, h: Holder) returns (u: State)
    requires GoesLive(s) && h in s.top.entries && Reaches(s, s, k)
    requires !Adjacent(s.top.entries[h].stamp, s.ledger[h].stamp)
    ensures Reaches(s, u, k) && GoesLive(u) && h in u.top.entries
    ensures u.top.entries[h].amount >= u.top.floor && u.ledger[h].amount != Some(u.top.entries[h].amount)
  {
    var e, f := s.top.entries[h], s.ledger[h];
    var amount := Max(s.top.floor, if f.amount.Some? then f.amount.value else 0) + 1;
    var v := Version(e.stamp.slot, e.stamp.writeVersion + 1);
    assert Older(e.stamp, v) && Older(v, f.stamp);
    var t := State(s.top, s.ledger, s.applied, v.slot, true, {h});
    assert Next(s, t, Block(v.slot, {h}), k);
    ReachesNext(s, s, t, Block(v.slot, {h}), k);
    var change := Change(h, v.writeVersion, Some(amount));
    u := State(s.top.(entries := s.top.entries[h := Entry(amount, v)]), s.ledger, s.applied, v.slot, true, {});
    assert t.pending - {h} == {};
    assert TopChanges(t.top, u.top, h, Fact(Some(amount), v), true, k);
    assert Next(t, u, change, k);
    ReachesNext(s, t, u, change, k);
  }

  /** A member shown too low to be served is missing once twenty others stand at the floor. */
  lemma HiddenMemberIsWrong(s: State, k: nat, h: Holder)
    requires GoesLive(s) && Reaches(s, s, k) && k >= PERSISTED_TOP_N
    requires h in s.top.entries && s.top.entries[h].amount < s.top.floor
    requires h in Exceeding(s.ledger, s.top.floor)
    ensures !NeverWrong(s, k)
  {
    var t := CloseAllBut(s, s, k, {h});
    assert t.top.entries == map[h := s.top.entries[h]];
    HiddenAlone(s, t, k, h);
  }

  lemma HiddenAlone(s: State, t: State, k: nat, h: Holder)
    requires Reaches(s, t, k) && GoesLive(t) && k >= PERSISTED_TOP_N
    requires t.top.entries.Keys == {h} && t.top.entries[h].amount < t.top.floor
    requires h in Exceeding(t.ledger, t.top.floor)
    ensures !NeverWrong(s, k)
  {
    var u, others := ManyArrive(s, t, k, PERSISTED_TOP_N - 1, t.top.floor);
    var v, g := LastArrives(s, u, k, h, others);
    assert v.ledger[h] == t.ledger[h];
    OthersFill(v, others + {g}, h);
  }

  /** A holder above the floor outside the reservoir is missing once the members are closed and others arrive. */
  lemma MissingIsWrong(s: State, k: nat, c: Holder)
    requires GoesLive(s) && Reaches(s, s, k) && k >= PERSISTED_TOP_N
    requires c in Exceeding(s.ledger, s.top.floor) && c !in s.top.entries
    ensures !NeverWrong(s, k)
  {
    var t := CloseAllBut(s, s, k, {});
    assert t.top.entries == map[] && c in t.ledger && t.ledger[c] == s.ledger[c];
    if s.top.floor == 0 {
      var u, g := OneArrives(s, t, k, 1);
      assert u.top.entries == map[g := u.top.entries[g]];
      OneRowIsServed(g, u.top.entries[g]);
      MissingRow(u, [Row(g, 1)], c);
    } else {
      var u, others := ManyArrive(s, t, k, PERSISTED_TOP_N, s.top.floor);
      assert c in u.ledger && u.ledger[c] == s.ledger[c];
      OthersFill(u, others, c);
    }
  }

  lemma OthersFill(u: State, full: set<Holder>, c: Holder)
    requires full <= u.top.entries.Keys && |full| == PERSISTED_TOP_N && c !in full
    requires forall g :: g in full ==> u.top.entries[g].amount == u.top.floor
    requires forall x :: x in u.top.entries && x !in full ==> u.top.entries[x].amount < u.top.floor
    requires c in Exceeding(u.ledger, u.top.floor)
    ensures !RightAnswer(u)
  {
    var rows := FullRowsAreServed(u.top, full);
    var last := rows[PERSISTED_TOP_N - 1];
    assert Listed(rows, last.holder);
    MissingRow(u, rows, c);
  }

  lemma MissingRow(u: State, rows: seq<Row>, c: Holder)
    requires rows != [] && ServedFor(u.top, rows) && !Listed(rows, c)
    requires c in u.ledger && u.ledger[c].amount.Some? && !Omittable(rows, PERSISTED_TOP_N, u.ledger[c].amount.value)
    ensures !RightAnswer(u)
  {
    assert c in Holders(u.ledger);
    assert !IsTopByAmount(rows, Holders(u.ledger), PERSISTED_TOP_N);
  }

  lemma FreshIn(s: State) returns (g: Holder)
    ensures g !in s.ledger && g !in s.top.entries
  {
    var known := s.ledger.Keys + s.top.entries.Keys;
    g := 0;
    var todo := known;
    while todo != {}
      invariant forall h :: h in known && h !in todo ==> h < g
      decreases todo
    {
      var h :| h in todo;
      todo := todo - {h};
      g := Max(g, h + 1);
    }
  }

  /** What a new block leaves when one new holder arrives in it. */
  ghost predicate Arrival(t: State, u: State, g: Holder)
  {
    && GoesLive(u) && g !in t.ledger && g !in t.top.entries
    && forall h :: h in t.ledger ==> h in u.ledger && u.ledger[h] == t.ledger[h]
  }

  lemma Arrives(s: State, t: State, k: nat, g: Holder, amount: nat, top: Top) returns (u: State)
    requires Reaches(s, t, k) && GoesLive(t) && g !in t.ledger && g !in t.top.entries
    requires TopChanges(t.top, top, g, Fact(Some(amount), Version(t.applied + 1, 0)), false, k)
    requires forall h :: h in top.entries && h != g ==> h in t.top.entries && top.entries[h] == t.top.entries[h]
    requires g in top.entries ==> top.entries[g] == Entry(amount, Version(t.applied + 1, 0))
    ensures Reaches(s, u, k) && u.top == top && Arrival(t, u, g)
  {
    var slot := t.applied + 1;
    var mid := State(t.top, t.ledger, slot, slot, false, {g});
    assert Next(t, mid, Block(slot, {g}), k);
    ReachesNext(s, t, mid, Block(slot, {g}), k);
    var f := Fact(Some(amount), Version(slot, 0));
    var change := Change(g, 0, Some(amount));
    u := State(top, Learn(t.ledger, g, f), slot, slot, false, {});
    assert mid.pending - {g} == {};
    assert Next(mid, u, change, k);
    ReachesNext(s, mid, u, change, k);
  }

  lemma OneArrives(s: State, t: State, k: nat, amount: nat) returns (u: State, g: Holder)
    requires Reaches(s, t, k) && GoesLive(t) && |t.top.entries| < k
    ensures Reaches(s, u, k) && Arrival(t, u, g)
    ensures u.top == t.top.(entries := t.top.entries[g := Entry(amount, Version(t.applied + 1, 0))])
  {
    g := FreshIn(t);
    u := Arrives(s, t, k, g, amount, t.top.(entries := t.top.entries[g := Entry(amount, Version(t.applied + 1, 0))]));
  }

  /** New holders with one amount joined the reservoir, and nothing else changed. */
  ghost predicate Joined(t: State, u: State, others: set<Holder>, amount: nat)
  {
    && u.top.floor == t.top.floor
    && others !! t.top.entries.Keys && others !! t.ledger.Keys
    && u.top.entries.Keys == t.top.entries.Keys + others
    && (forall h :: h in t.top.entries ==> u.top.entries[h] == t.top.entries[h])
    && (forall g :: g in others ==> u.top.entries[g].amount == amount)
    && (forall h :: h in t.ledger ==> h in u.ledger && u.ledger[h] == t.ledger[h])
  }

  lemma JoinedNext(t: State, mid: State, u: State, some: set<Holder>, g: Holder, e: Entry)
    requires Joined(t, mid, some, e.amount) && Arrival(mid, u, g)
    requires u.top == mid.top.(entries := mid.top.entries[g := e])
    ensures Joined(t, u, some + {g}, e.amount) && g !in some
  {
    assert g !in mid.top.entries.Keys;
  }

  /** `n` new holders with one amount, while there is room. */
  lemma {:induction false} ManyArrive(s: State, t: State, k: nat, n: nat, amount: nat)
    returns (u: State, others: set<Holder>)
    requires Reaches(s, t, k) && GoesLive(t) && |t.top.entries| + n <= k
    ensures Reaches(s, u, k) && GoesLive(u) && |others| == n && Joined(t, u, others, amount)
  {
    if n == 0 {
      u, others := t, {};
    } else {
      var mid, some := ManyArrive(s, t, k, n - 1, amount);
      SizeOfBoth(t.top.entries, mid.top.entries, some);
      var g;
      u, g := OneArrives(s, mid, k, amount);
      JoinedNext(t, mid, u, some, g, Entry(amount, Version(mid.applied + 1, 0)));
      others := some + {g};
    }
  }

  lemma SizeOfBoth(a: map<Holder, Entry>, b: map<Holder, Entry>, others: set<Holder>)
    requires b.Keys == a.Keys + others && a.Keys !! others
    ensures |b| == |a| + |others|
  {
    assert |a| == |a.Keys| && |b| == |b.Keys|;
  }

  /** The twentieth arrival: it displaces the low member when the reservoir has no more room. */
  lemma LastArrives(s: State, u: State, k: nat, h: Holder, others: set<Holder>) returns (v: State, g: Holder)
    requires Reaches(s, u, k) && GoesLive(u) && k >= PERSISTED_TOP_N
    requires u.top.entries.Keys == others + {h} && h !in others && |others| == PERSISTED_TOP_N - 1
    requires u.top.entries[h].amount < u.top.floor
    requires forall g :: g in others ==> u.top.entries[g].amount == u.top.floor
    ensures Reaches(s, v, k) && Arrival(u, v, g) && v.top.floor == u.top.floor && g !in others + {h}
    ensures others + {g} <= v.top.entries.Keys <= others + {g, h}
    ensures forall x :: x in others + {g} ==> v.top.entries[x].amount == v.top.floor
    ensures h in v.top.entries ==> v.top.entries[h].amount < v.top.floor
  {
    if |u.top.entries| < k {
      v, g := OneArrives(s, u, k, u.top.floor);
    } else {
      v, g := OneDisplaces(s, u, k, h);
    }
  }

  /** A full reservoir: the new holder takes the place of the only member under the floor. */
  lemma OneDisplaces(s: State, u: State, k: nat, h: Holder) returns (v: State, g: Holder)
    requires Reaches(s, u, k) && GoesLive(u) && |u.top.entries| >= k
    requires IsMin(u.top.entries, h) && u.top.entries[h].amount < u.top.floor
    ensures Reaches(s, v, k) && Arrival(u, v, g) && g !in u.top.entries
    ensures v.top == Displaced(u.top, h, g, Entry(u.top.floor, Version(u.applied + 1, 0)))
  {
    g := FreshIn(u);
    var e := Entry(u.top.floor, Version(u.applied + 1, 0));
    v := Arrives(s, u, k, g, e.amount, Displaced(u.top, h, g, e));
  }

  ghost function Only(entries: map<Holder, Entry>, keep: set<Holder>): map<Holder, Entry>
  {
    map h | h in entries && h in keep :: entries[h]
  }

  /** A block that closes every member outside `keep`. */
  lemma CloseAllBut(s: State, t: State, k: nat, keep: set<Holder>) returns (u: State)
    requires Reaches(s, t, k) && GoesLive(t)
    ensures Reaches(s, u, k) && GoesLive(u) && u.top == Top(Only(t.top.entries, keep), t.top.floor)
    ensures forall h :: h in t.ledger && (h !in t.top.entries || h in keep) ==> h in u.ledger && u.ledger[h] == t.ledger[h]
  {
    var slot := t.applied + 1;
    var closing := t.top.entries.Keys - keep;
    var mid := State(t.top, t.ledger, slot, slot, false, closing);
    assert Next(t, mid, Block(slot, closing), k);
    ReachesNext(s, t, mid, Block(slot, closing), k);
    u := ClosePending(s, mid, k);
    assert Only(t.top.entries, keep) == t.top.entries - closing;
  }

  /** What holds while the pending members of a new block are closed one by one. */
  ghost predicate Closing(s: State)
  {
    && StampInv(s) && !s.oldBlock
    && s.pending <= s.top.entries.Keys
    && forall h :: h in s.top.entries ==> h in s.ledger && WasSeen(s.top.entries[h], s.ledger[h])
  }

  lemma {:induction false} ClosePending(s: State, t: State, k: nat) returns (u: State)
    requires Reaches(s, t, k) && Closing(t)
    ensures Reaches(s, u, k) && GoesLive(u) && u.top == Top(t.top.entries - t.pending, t.top.floor)
    ensures forall h :: h in t.ledger && h !in t.pending ==> h in u.ledger && u.ledger[h] == t.ledger[h]
    decreases t.pending
  {
    if t.pending == {} {
      u := t;
      assert t.top.entries - t.pending == t.top.entries;
    } else {
      var h :| h in t.pending;
      var next := CloseOne(s, t, k, h);
      u := ClosePending(s, next, k);
      assert t.top.entries - t.pending == next.top.entries - next.pending;
    }
  }

  lemma CloseOne(s: State, t: State, k: nat, h: Holder) returns (u: State)
    requires Reaches(s, t, k) && Closing(t) && h in t.pending
    ensures Reaches(s, u, k) && Closing(u) && u.pending == t.pending - {h}
    ensures u.top == Top(t.top.entries - {h}, t.top.floor)
    ensures forall g :: g in t.ledger && g != h ==> g in u.ledger && u.ledger[g] == t.ledger[g]
  {
    var f := Fact(None, Version(t.slot, 0));
    var change := Change(h, 0, None);
    assert t.ledger[h].stamp.slot < t.slot;
    assert Older(t.top.entries[h].stamp, f.stamp);
    u := State(Removed(t.top, h, f.stamp), Learn(t.ledger, h, f), t.applied, t.slot, false, t.pending - {h});
    assert Next(t, u, change, k);
    ReachesNext(s, t, u, change, k);
    NextKeepsStamps(t, u, change, k);
  }
}
