/** The prefix intervals by which the snapshot diff walks the key space. */
module KeySpace {
  import opened Basics

  const PREFIXES: nat := 0x1_0000

  /** The bytewise order of the database: a proper prefix comes first. */
  predicate LexLess(a: Bytes, b: Bytes)
  {
    if b == [] then false
    else if a == [] then true
    else a[0] < b[0] || (a[0] == b[0] && LexLess(a[1..], b[1..]))
  }

  /** Of two different byte strings exactly one is less. */
  lemma {:induction false} LexLessIsTotal(a: Bytes, b: Bytes)
    ensures a != b ==> (LexLess(a, b) <==> !LexLess(b, a))
    ensures a == b ==> !LexLess(a, b)
  {
    if a != [] && b != [] && a[0] == b[0] {
      LexLessIsTotal(a[1..], b[1..]);
      if a[1..] == b[1..] {
        assert a == [a[0]] + a[1..] && b == [b[0]] + b[1..];
      }
    }
  }

  /** The two big-endian bytes of a prefix. */
  function Bound(prefix: nat): (b: Bytes)
    requires prefix < PREFIXES
    ensures |b| == 2
  {
    [prefix / 256, prefix % 256]
  }

  /** `u16::from_be_bytes` of the first two bytes. */
  function PrefixOf(key: Pubkey): (p: nat)
    ensures p < PREFIXES
  {
    key[0] as int * 256 + key[1] as int
  }

  /** The row filter of one query: there is no upper bound for the last prefix. */
  predicate InInterval(key: Pubkey, prefix: nat)
    requires prefix < PREFIXES
  {
    !LexLess(key, Bound(prefix)) && (prefix == PREFIXES - 1 || LexLess(key, Bound(prefix + 1)))
  }

  lemma LexLessBound(key: Pubkey, prefix: nat)
    requires prefix < PREFIXES
    ensures LexLess(key, Bound(prefix)) <==> PrefixOf(key) < prefix
  {
    var b := Bound(prefix);
    assert b[1..] == [b[1]];
    LexLessOne(key[1..], b[1]);
    assert LexLess(key, b) <==> key[0] < b[0] || (key[0] == b[0] && key[1] < b[1]);
  }

  lemma LexLessOne(a: Bytes, x: Byte)
    requires a != []
    ensures LexLess(a, [x]) <==> a[0] < x
  {
    assert [x][1..] == [];
  }

  /** Every key is in exactly one interval: the one its first two bytes name. */
  lemma IntervalsPartitionKeys(key: Pubkey, prefix: nat)
    requires prefix < PREFIXES
    ensures InInterval(key, prefix) <==> prefix == PrefixOf(key)
  {
    LexLessBound(key, prefix);
    if prefix < PREFIXES - 1 {
      LexLessBound(key, prefix + 1);
    }
  }
}
