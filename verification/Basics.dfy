/** Types shared by every component: bytes, public keys, record versions and outcomes. */
module Basics {

  type Byte = b: int | 0 <= b < 256

  type Bytes = seq<Byte>

  /** One more than the largest 64-bit number. */
  const U64: nat := 0x1_0000_0000_0000_0000

  /** A 32-byte account address. */
  type Pubkey = k: Bytes | |k| == 32 witness seq(32, i => 0)

  datatype Option<+T> = None | Some(value: T)

  datatype Result<+T, +E> = Success(value: T) | Failure(error: E)

  /** The `(slot, write_version)` stamp that orders the stored versions of one account. */
  datatype Version = Version(slot: nat, writeVersion: nat)

  /** The order of the pairs `(slot, write_version)`. */
  predicate Older(a: Version, b: Version)
  {
    a.slot < b.slot || (a.slot == b.slot && a.writeVersion < b.writeVersion)
  }

  function Min(a: int, b: int): (r: int)
  {
    if a <= b then a else b
  }

  function Max(a: int, b: int): (r: int)
  {
    if a <= b then b else a
  }

  /** An element of a non-empty set; the same set always gives the same element. */
  ghost function Pick<T>(s: set<T>): (x: T)
    requires s != {}
    ensures x in s
  {
    var x :| x in s; x
  }

  function Concat<T>(parts: seq<seq<T>>): seq<T>
  {
    if parts == [] then [] else Concat(parts[..|parts| - 1]) + parts[|parts| - 1]
  }

  lemma ConcatAppend<T>(parts: seq<seq<T>>, part: seq<T>)
    ensures Concat(parts + [part]) == Concat(parts) + part
  {
    assert (parts + [part])[..|parts|] == parts;
  }

  lemma SubsetSize<T>(a: set<T>, b: set<T>)
    requires a <= b
    ensures |a| <= |b|
    ensures |a| == |b| <==> a == b
  {
    assert b == a + (b - a);
    assert |b| == |a| + |b - a|;
  }
}
