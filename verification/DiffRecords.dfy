/** The 88-byte records of the snapshot diff: their codec, and the newest record of each account. */
module DiffRecords {
  import opened Basics

  const RECORD_BYTES: nat := 88

  type Hash = h: Bytes | |h| == 32 witness seq(32, i => 0)

  /** pubkey(32) + slot(8) + write_version(8) + lamports(8) + hash(32). */
  datatype DiskRecord = DiskRecord(pubkey: Pubkey, version: Version, lamports: nat, hash: Hash)

  predicate FitsU64(r: DiskRecord)
  {
    r.version.slot < U64 && r.version.writeVersion < U64 && r.lamports < U64
  }

  /******* Little-endian numbers *******/

  function Pow256(k: nat): (p: nat)
    ensures p > 0
  {
    if k == 0 then 1 else 256 * Pow256(k - 1)
  }

  function ToLittleEndian(n: nat, k: nat): (b: Bytes)
    ensures |b| == k
  {
    if k == 0 then [] else [n % 256] + ToLittleEndian(n / 256, k - 1)
  }

  function FromLittleEndian(b: Bytes): nat
  {
    if b == [] then 0 else b[0] as int + 256 * FromLittleEndian(b[1..])
  }

  lemma {:induction false} LittleEndianRoundTrip(n: nat, k: nat)
    requires n < Pow256(k)
    ensures FromLittleEndian(ToLittleEndian(n, k)) == n
  {
    if k > 0 {
      LittleEndianRoundTrip(n / 256, k - 1);
      assert ToLittleEndian(n, k)[1..] == ToLittleEndian(n / 256, k - 1);
    }
  }

  lemma U64IsEightBytes()
    ensures Pow256(8) == U64
  {
    assert Pow256(4) == 0x1_0000_0000;
  }

  /******* The record codec *******/

  function EncodeRecord(r: DiskRecord): (b: Bytes)
    ensures |b| == RECORD_BYTES
  {
    r.pubkey + ToLittleEndian(r.version.slot, 8) + ToLittleEndian(r.version.writeVersion, 8)
    + ToLittleEndian(r.lamports, 8) + r.hash
  }

  function DecodeRecord(b: Bytes): DiskRecord
    requires |b| == RECORD_BYTES
  {
    DiskRecord(
      b[0..32],
      Version(FromLittleEndian(b[32..40]), FromLittleEndian(b[40..48])),
      FromLittleEndian(b[48..56]),
      b[56..88])
  }

  lemma RecordRoundTrip(r: DiskRecord)
    requires FitsU64(r)
    ensures DecodeRecord(EncodeRecord(r)) == r
  {
    var b := EncodeRecord(r);
    var head := r.pubkey + ToLittleEndian(r.version.slot, 8) + ToLittleEndian(r.version.writeVersion, 8)
      + ToLittleEndian(r.lamports, 8);
    U64IsEightBytes();
    assert |head| == 56 && b == head + r.hash;
    assert b[0..32] == r.pubkey;
    assert b[32..40] == ToLittleEndian(r.version.slot, 8);
    assert b[40..48] == ToLittleEndian(r.version.writeVersion, 8);
    assert b[48..56] == ToLittleEndian(r.lamports, 8);
    assert b[56..88] == r.hash;
    LittleEndianRoundTrip(r.version.slot, 8);
    LittleEndianRoundTrip(r.version.writeVersion, 8);
    LittleEndianRoundTrip(r.lamports, 8);
  }

  /** `n` without its `i` lowest bytes. */
  function Shifted(n: nat, i: nat): nat
  {
    if i == 0 then n else Shifted(n / 256, i - 1)
  }

  /** The 88 bytes: the address, three little-endian numbers of 8 bytes, and the hash. */
  lemma RecordLayout(r: DiskRecord, i: nat)
    requires i < 8
    ensures var b := EncodeRecord(r);
      && b[..32] == r.pubkey && b[56..] == r.hash
      && b[32 + i] as int == Shifted(r.version.slot, i) % 256
      && b[40 + i] as int == Shifted(r.version.writeVersion, i) % 256
      && b[48 + i] as int == Shifted(r.lamports, i) % 256
  {
    LittleEndianByte(r.version.slot, 8, i);
    LittleEndianByte(r.version.writeVersion, 8, i);
    LittleEndianByte(r.lamports, 8, i);
    var head := r.pubkey + ToLittleEndian(r.version.slot, 8) + ToLittleEndian(r.version.writeVersion, 8)
      + ToLittleEndian(r.lamports, 8);
    assert EncodeRecord(r) == head + r.hash && |head| == 56;
  }

  lemma {:induction false} LittleEndianByte(n: nat, k: nat, i: nat)
    requires i < k
    ensures ToLittleEndian(n, k)[i] as int == Shifted(n, i) % 256
  {
    if i > 0 {
      LittleEndianByte(n / 256, k - 1, i - 1);
    }
  }

  /** The file the writer produces for a prefix. */
  function EncodeAll(rs: seq<DiskRecord>): Bytes
  {
    if rs == [] then [] else EncodeRecord(rs[0]) + EncodeAll(rs[1..])
  }

  /** `chunks_exact(88)`: a trailing partial record is ignored. */
  function ParseAll(data: Bytes): seq<DiskRecord>
  {
    if |data| < RECORD_BYTES then [] else [DecodeRecord(data[..RECORD_BYTES])] + ParseAll(data[RECORD_BYTES..])
  }

  /** Reading inverts writing, also when the file ends in a partial record. */
  lemma {:induction false} ParseInvertsEncode(rs: seq<DiskRecord>, partial: Bytes)
    requires forall i :: 0 <= i < |rs| ==> FitsU64(rs[i])
    requires |partial| < RECORD_BYTES
    ensures ParseAll(EncodeAll(rs) + partial) == rs
  {
    if rs == [] {
      assert EncodeAll(rs) + partial == partial;
    } else {
      var first, rest := EncodeRecord(rs[0]), EncodeAll(rs[1..]) + partial;
      ParseInvertsEncode(rs[1..], partial);
      assert EncodeAll(rs) + partial == first + rest;
      assert (first + rest)[..RECORD_BYTES] == first && (first + rest)[RECORD_BYTES..] == rest;
      RecordRoundTrip(rs[0]);
    }
  }

  /******* Deduplication *******/

  /** `m` holds every account of `rs` at a record that no record of the account outranks. */
  ghost predicate IsNewestMap(m: map<Pubkey, DiskRecord>, rs: set<DiskRecord>)
  {
    && (forall r :: r in rs ==> r.pubkey in m && !Older(m[r.pubkey].version, r.version))
    && (forall k :: k in m ==> m[k] in rs && m[k].pubkey == k)
  }

  ghost predicate UniqueVersions(rs: set<DiskRecord>)
  {
    forall p, q :: p in rs && q in rs && p.pubkey == q.pubkey && p.version == q.version ==> p == q
  }

  /** With unique versions the newest map is determined by the set of records, not by their order. */
  lemma NewestMapIsUnique(m: map<Pubkey, DiskRecord>, n: map<Pubkey, DiskRecord>, rs: set<DiskRecord>)
    requires IsNewestMap(m, rs) && IsNewestMap(n, rs) && UniqueVersions(rs)
    ensures m == n
  {
    assert forall k :: k in m ==> k in n && m[k] == n[k];
    assert forall k :: k in n ==> k in m;
  }

  /** The record a key keeps when `r` arrives: ties keep the earlier one. */
  function Kept(m: map<Pubkey, DiskRecord>, r: DiskRecord): DiskRecord
  {
    if r.pubkey in m && !Older(m[r.pubkey].version, r.version) then m[r.pubkey] else r
  }

  lemma NewestOneMore(m: map<Pubkey, DiskRecord>, rs: set<DiskRecord>, r: DiskRecord)
    requires IsNewestMap(m, rs)
    ensures IsNewestMap(m[r.pubkey := Kept(m, r)], rs + {r})
  {
  }

  ghost function RecordSet(rs: seq<DiskRecord>): set<DiskRecord>
  {
    set r | r in rs
  }

  /** The hash of every account whose kept record is not closed. */
  function LiveHashes(m: map<Pubkey, DiskRecord>): map<Pubkey, Hash>
  {
    map k | k in m && m[k].lamports > 0 :: m[k].hash
  }

  /** `live` holds the hash of the newest record of every account of `rs` whose newest record is not closed. */
  ghost predicate HoldsNewestLive(live: map<Pubkey, Hash>, rs: set<DiskRecord>)
  {
    exists newest: map<Pubkey, DiskRecord> :: IsNewestMap(newest, rs) && live == LiveHashes(newest)
  }

  /** The record each account keeps after the first `n` records. */
  function Deduped(rs: seq<DiskRecord>, n: nat): map<Pubkey, DiskRecord>
    requires n <= |rs|
  {
    if n == 0 then map[]
    else
      var before := Deduped(rs, n - 1);
      before[rs[n - 1].pubkey := Kept(before, rs[n - 1])]
  }

  lemma {:induction false} DedupedIsNewest(rs: seq<DiskRecord>, n: nat)
    requires n <= |rs|
    ensures IsNewestMap(Deduped(rs, n), RecordSet(rs[..n]))
  {
    if n > 0 {
      DedupedIsNewest(rs, n - 1);
      NewestOneMore(Deduped(rs, n - 1), RecordSet(rs[..n - 1]), rs[n - 1]);
      assert rs[..n] == rs[..n - 1] + [rs[n - 1]];
      assert RecordSet(rs[..n]) == RecordSet(rs[..n - 1]) + {rs[n - 1]};
    }
  }

  /** Record `i` is kept: none of its account is newer, and none before it has its version. */
  ghost predicate IsFirstNewest(rs: seq<DiskRecord>, n: nat, i: nat)
    requires n <= |rs|
  {
    && i < n
    && forall j :: 0 <= j < n && rs[j].pubkey == rs[i].pubkey ==>
      !Older(rs[i].version, rs[j].version) && (j < i ==> rs[j].version != rs[i].version)
  }

  /** Records of one version do not replace each other: the first of the newest ones stays. */
  lemma {:induction false} FirstNewestStays(rs: seq<DiskRecord>, n: nat, k: Pubkey) returns (i: nat)
    requires n <= |rs| && k in Deduped(rs, n)
    ensures IsFirstNewest(rs, n, i) && rs[i] == Deduped(rs, n)[k] && rs[i].pubkey == k
  {
    var before, last := Deduped(rs, n - 1), rs[n - 1];
    if k in before {
      i := FirstNewestStays(rs, n - 1, k);
    }
    if last.pubkey == k && (k !in before || Older(before[k].version, last.version)) {
      if k !in before {
        NeverSeen(rs, n - 1, k);
      }
      i := n - 1;
    }
  }

  lemma {:induction false} NeverSeen(rs: seq<DiskRecord>, n: nat, k: Pubkey)
    requires n <= |rs| && k !in Deduped(rs, n)
    ensures forall j :: 0 <= j < n ==> rs[j].pubkey != k
  {
    if n > 0 {
      NeverSeen(rs, n - 1, k);
    }
  }

  /** What a prefix file loads to. */
  function Load(data: Bytes): map<Pubkey, Hash>
  {
    LiveHashes(Deduped(ParseAll(data), |ParseAll(data)|))
  }

  lemma LoadIsNewest(data: Bytes)
    ensures HoldsNewestLive(Load(data), RecordSet(ParseAll(data)))
  {
    var rs := ParseAll(data);
    DedupedIsNewest(rs, |rs|);
    assert rs[..|rs|] == rs;
  }

  /** The first `at` bytes held the first `n` records. */
  ghost predicate Loaded(data: Bytes, at: nat, n: nat)
  {
    at <= |data| && n <= |ParseAll(data)| && ParseAll(data[at..]) == ParseAll(data)[n..]
  }

  lemma LoadedNext(data: Bytes, at: nat, n: nat)
    requires Loaded(data, at, n) && at + RECORD_BYTES <= |data|
    ensures n < |ParseAll(data)| && ParseAll(data)[n] == DecodeRecord(data[at..at + RECORD_BYTES])
    ensures Loaded(data, at + RECORD_BYTES, n + 1)
  {
    ParseNext(data, at);
    var rest := ParseAll(data)[n..];
    assert rest[0] == ParseAll(data)[n] && rest[1..] == ParseAll(data)[n + 1..];
  }

  lemma ParseNext(data: Bytes, at: nat)
    requires at + RECORD_BYTES <= |data|
    ensures ParseAll(data[at..]) == [DecodeRecord(data[at..at + RECORD_BYTES])] + ParseAll(data[at + RECORD_BYTES..])
  {
    assert data[at..][..RECORD_BYTES] == data[at..at + RECORD_BYTES];
    assert data[at..][RECORD_BYTES..] == data[at + RECORD_BYTES..];
  }

  /** `load_prefix_deduped`: one pass over the chunks, then closed accounts are filtered out. */
  method LoadDeduped(data: Bytes) returns (live: map<Pubkey, Hash>)
    ensures live == Load(data)
    ensures HoldsNewestLive(live, RecordSet(ParseAll(data)))
  {
    var deduped: map<Pubkey, DiskRecord> := map[];
    var at := 0;
    ghost var n := 0;
    assert data[0..] == data;
    while at + RECORD_BYTES <= |data|
      invariant 0 <= at <= |data| && Loaded(data, at, n) && deduped == Deduped(ParseAll(data), n)
    {
      var r := DecodeRecord(data[at..at + RECORD_BYTES]);
      LoadedNext(data, at, n);
      deduped := deduped[r.pubkey := Kept(deduped, r)];
      n := n + 1;
      at := at + RECORD_BYTES;
    }
    assert n == |ParseAll(data)|;
    LoadIsNewest(data);
    live := LiveHashes(deduped);
  }

  lemma NewestLiveIsUnique(left: map<Pubkey, Hash>, right: map<Pubkey, Hash>, rs: set<DiskRecord>)
    requires HoldsNewestLive(left, rs) && HoldsNewestLive(right, rs) && UniqueVersions(rs)
    ensures left == right
  {
    var m: map<Pubkey, DiskRecord> :| IsNewestMap(m, rs) && left == LiveHashes(m);
    var n: map<Pubkey, DiskRecord> :| IsNewestMap(n, rs) && right == LiveHashes(n);
    NewestMapIsUnique(m, n, rs);
  }

  /** Writing the records in any order and loading them gives one and the same map. */
  lemma ScanOrderIsIrrelevant(
    a: seq<DiskRecord>, b: seq<DiskRecord>, left: map<Pubkey, Hash>, right: map<Pubkey, Hash>)
    requires forall i :: 0 <= i < |a| ==> FitsU64(a[i])
    requires forall i :: 0 <= i < |b| ==> FitsU64(b[i])
    requires RecordSet(a) == RecordSet(b) && UniqueVersions(RecordSet(a))
    requires HoldsNewestLive(left, RecordSet(ParseAll(EncodeAll(a))))
    requires HoldsNewestLive(right, RecordSet(ParseAll(EncodeAll(b))))
    ensures left == right
  {
    ParseInvertsEncode(a, []);
    ParseInvertsEncode(b, []);
    assert EncodeAll(a) + [] == EncodeAll(a) && EncodeAll(b) + [] == EncodeAll(b);
    NewestLiveIsUnique(left, right, RecordSet(a));
  }
}
