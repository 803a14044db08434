/** Big-endian positional notation, for any base. */
module Radix {

  ghost predicate ValidDigits(ds: seq<nat>, base: nat)
  {
    forall i :: 0 <= i < |ds| ==> ds[i] < base
  }

  function Value(ds: seq<nat>, base: nat): nat
  {
    if ds == [] then 0 else Value(ds[..|ds| - 1], base) * base + ds[|ds| - 1]
  }

  /** The digits of `n` without leading zeros. */
  function Digits(n: nat, base: nat): (ds: seq<nat>)
    requires base >= 2
    ensures ValidDigits(ds, base)
    ensures ds == [] <==> n == 0
    ensures ds != [] ==> ds[0] != 0
  {
    if n == 0 then [] else Digits(n / base, base) + [n % base]
  }

  function StripZeros(ds: seq<nat>): (r: seq<nat>)
    ensures r != [] ==> r[0] != 0
  {
    if ds != [] && ds[0] == 0 then StripZeros(ds[1..]) else ds
  }

  lemma ValueAppend(ds: seq<nat>, d: nat, base: nat)
    ensures Value(ds + [d], base) == Value(ds, base) * base + d
  {
    assert (ds + [d])[..|ds|] == ds;
  }

  lemma Recompose(n: nat, base: nat)
    requires base >= 1
    ensures n / base * base + n % base == n
  {
  }

  lemma QuotientIsSmaller(n: nat, base: nat)
    requires n > 0 && base >= 2
    ensures 0 <= n / base < n
  {
  }

  lemma ValueOfNext(ds: seq<nat>, n: nat, base: nat)
    requires base >= 2 && Value(ds, base) == n / base
    ensures Value(ds + [n % base], base) == n
  {
    ValueAppend(ds, n % base, base);
    Recompose(n, base);
  }

  lemma {:induction false} ValueOfDigits(n: nat, base: nat)
    requires base >= 2
    ensures Value(Digits(n, base), base) == n
  {
    if n > 0 {
      QuotientIsSmaller(n, base);
      ValueOfDigits(n / base, base);
      ValueOfNext(Digits(n / base, base), n, base);
    }
  }

  lemma {:induction false} StripAppend(ds: seq<nat>, d: nat)
    ensures StripZeros(ds + [d]) == if StripZeros(ds) == [] && d == 0 then [] else StripZeros(ds) + [d]
  {
    if ds == [] {
      assert ds + [d] == [d];
      assert [d][1..] == [];
    } else if ds[0] == 0 {
      assert (ds + [d])[1..] == ds[1..] + [d];
      StripAppend(ds[1..], d);
    }
  }

  lemma {:induction false} Scaled(q: nat, p: nat, base: nat)
    requires q < p
    ensures q * base + base <= p * base
    decreases p
  {
    if q + 1 < p {
      Scaled(q, p - 1, base);
      assert p * base == (p - 1) * base + base;
    } else {
      assert p * base == (q + 1) * base == q * base + base;
    }
  }

  /** Quotient and remainder are unique. */
  lemma DivMod(q: nat, d: nat, base: nat)
    requires d < base
    ensures (q * base + d) / base == q && (q * base + d) % base == d
  {
    var n := q * base + d;
    var p, r := n / base, n % base;
    assert n == p * base + r;
    if q < p {
      Scaled(q, p, base);
    } else if p < q {
      Scaled(p, q, base);
    }
  }

  lemma DigitsStep(v: nat, d: nat, base: nat)
    requires base >= 2 && d < base
    ensures Digits(v * base + d, base) == if v == 0 && d == 0 then [] else Digits(v, base) + [d]
  {
    DivMod(v, d, base);
    assert v > 0 ==> v * base > 0;
  }

  /** Reading digits and writing the number again drops the leading zeros and nothing else. */
  lemma {:induction false} DigitsOfValue(ds: seq<nat>, base: nat)
    requires base >= 2 && ValidDigits(ds, base)
    ensures Digits(Value(ds, base), base) == StripZeros(ds)
  {
    if ds != [] {
      var init, last := ds[..|ds| - 1], ds[|ds| - 1];
      assert ds == init + [last];
      DigitsOfValue(init, base);
      StripAppend(init, last);
      DigitsStep(Value(init, base), last, base);
    }
  }

  function Zeros(n: nat): (ds: seq<nat>)
    ensures |ds| == n && forall i :: 0 <= i < n ==> ds[i] == 0
  {
    seq(n, i => 0)
  }

  function LeadingZeros(ds: seq<nat>): nat
  {
    if ds != [] && ds[0] == 0 then 1 + LeadingZeros(ds[1..]) else 0
  }

  lemma {:induction false} ZerosThenRest(ds: seq<nat>)
    ensures ds == Zeros(LeadingZeros(ds)) + StripZeros(ds)
    decreases |ds|
  {
    if ds != [] && ds[0] == 0 {
      var rest := ds[1..];
      ZerosThenRest(rest);
      assert ds == [0] + rest;
      assert Zeros(LeadingZeros(rest) + 1) == [0] + Zeros(LeadingZeros(rest));
    }
  }
}
