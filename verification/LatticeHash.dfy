/** The lattice hash: a commutative group of 1024 wrapping 16-bit lanes, and group sums over sets. */
module LatticeHash {
  import opened Basics

  const LANES: nat := 1024
  const LANE_MODULUS: nat := 65536

  type LtHash = h: seq<nat> | |h| == LANES && forall i :: 0 <= i < |h| ==> h[i] < LANE_MODULUS
    witness seq(LANES, i => 0)

  function Identity(): LtHash
  {
    seq(LANES, i => 0)
  }

  /** Lane-wise wrapping addition. */
  function MixIn(a: LtHash, b: LtHash): LtHash
  {
    seq(LANES, i requires 0 <= i < LANES => (a[i] + b[i]) % LANE_MODULUS)
  }

  /** Lane-wise wrapping subtraction. */
  function MixOut(a: LtHash, b: LtHash): LtHash
  {
    seq(LANES, i requires 0 <= i < LANES => (a[i] + (LANE_MODULUS - b[i])) % LANE_MODULUS)
  }

  lemma MixInCommutes(a: LtHash, b: LtHash)
    ensures MixIn(a, b) == MixIn(b, a)
  {
    assert forall i :: 0 <= i < LANES ==> MixIn(a, b)[i] == MixIn(b, a)[i];
  }

  lemma MixInAssociates(a: LtHash, b: LtHash, c: LtHash)
    ensures MixIn(MixIn(a, b), c) == MixIn(a, MixIn(b, c))
  {
    forall i | 0 <= i < LANES
      ensures MixIn(MixIn(a, b), c)[i] == MixIn(a, MixIn(b, c))[i]
    {
      LaneSum(a[i], b[i], c[i]);
    }
  }

  lemma LaneSum(x: nat, y: nat, z: nat)
    requires x < LANE_MODULUS && y < LANE_MODULUS && z < LANE_MODULUS
    ensures ((x + y) % LANE_MODULUS + z) % LANE_MODULUS == (x + (y + z) % LANE_MODULUS) % LANE_MODULUS
  {
  }

  lemma MixInIdentity(a: LtHash)
    ensures MixIn(a, Identity()) == a && MixIn(Identity(), a) == a
  {
    assert forall i :: 0 <= i < LANES ==> MixIn(a, Identity())[i] == a[i];
    MixInCommutes(a, Identity());
  }

  /** Mixing out undoes mixing in, on both sides. */
  lemma MixOutCancels(a: LtHash, b: LtHash)
    ensures MixOut(MixIn(a, b), b) == a
    ensures MixIn(MixOut(a, b), b) == a
  {
    assert forall i :: 0 <= i < LANES ==> MixOut(MixIn(a, b), b)[i] == a[i];
    assert forall i :: 0 <= i < LANES ==> MixIn(MixOut(a, b), b)[i] == a[i];
  }

  /** The group sum of `h` over a finite set. */
  ghost function SetSum<T(!new)>(s: set<T>, h: T -> LtHash): LtHash
  {
    if s == {} then Identity()
    else var x := Pick(s); MixIn(h(x), SetSum(s - {x}, h))
  }

  /** The sum does not depend on the order in which the set is consumed. */
  lemma {:induction false} SetSumTake<T(!new)>(s: set<T>, x: T, h: T -> LtHash)
    requires x in s
    ensures SetSum(s, h) == MixIn(h(x), SetSum(s - {x}, h))
    decreases s
  {
    var y := Pick(s);
    if y != x {
      var rest := s - {x} - {y};
      SetSumTake(s - {y}, x, h);
      assert s - {y} - {x} == rest;
      SetSumTake(s - {x}, y, h);
      MixInAssociates(h(y), h(x), SetSum(rest, h));
      MixInCommutes(h(x), h(y));
      MixInAssociates(h(x), h(y), SetSum(rest, h));
    }
  }

  lemma SetSumAdd<T(!new)>(s: set<T>, x: T, h: T -> LtHash)
    requires x !in s
    ensures SetSum(s + {x}, h) == MixIn(SetSum(s, h), h(x))
  {
    SetSumTake(s + {x}, x, h);
    assert s + {x} - {x} == s;
    MixInCommutes(h(x), SetSum(s, h));
  }

  lemma {:induction false} SetSumUnion<T(!new)>(a: set<T>, b: set<T>, h: T -> LtHash)
    requires a !! b
    ensures SetSum(a + b, h) == MixIn(SetSum(a, h), SetSum(b, h))
    decreases b
  {
    if b == {} {
      assert a + b == a;
      MixInIdentity(SetSum(a, h));
    } else {
      var x := Pick(b);
      SetSumUnion(a, b - {x}, h);
      assert a + b - {x} == a + (b - {x});
      SetSumTake(a + b, x, h);
      var restA, restB := SetSum(a, h), SetSum(b - {x}, h);
      MixInAssociates(h(x), restA, restB);
      MixInCommutes(h(x), restA);
      MixInAssociates(restA, h(x), restB);
    }
  }
}
