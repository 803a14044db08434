/** The comparison of two account responses of the benchmark. */
module AccountComparison {
  import opened Basics

  datatype Json =
    | Null
    | Boolean(b: bool)
    | Number(n: int)
    | Text(s: string)
    | Array(items: seq<Json>)
    | Object(fields: map<string, Json>)

  function Get(j: Json, key: string): Option<Json>
  {
    if j.Object? && key in j.fields then Some(j.fields[key]) else None
  }

  function AsText(j: Option<Json>): Option<string>
  {
    if j.Some? && j.value.Text? then Some(j.value.s) else None
  }

  function AsArray(j: Option<Json>): Option<seq<Json>>
  {
    if j.Some? && j.value.Array? then Some(j.value.items) else None
  }

  function At(items: seq<Json>, i: nat): Option<Json>
  {
    if i < |items| then Some(items[i]) else None
  }

  /******* One account *******/

  /** Base64 and zstd decoding; not interpreted here. */
  type Decompressor = string -> Option<Bytes>

  function Raw(data: seq<Json>, decompress: Decompressor): Option<Bytes>
  {
    match AsText(At(data, 0))
    case None => None
    case Some(text) => decompress(text)
  }

  predicate SameData(d1: Option<seq<Json>>, d2: Option<seq<Json>>, decompress: Decompressor)
  {
    && d1.Some? && d2.Some?
    && At(d1.value, 1) == At(d2.value, 1)
    && Raw(d1.value, decompress).Some?
    && Raw(d1.value, decompress) == Raw(d2.value, decompress)
  }

  function Field(account: Json, i: nat): Option<Json>
    requires i < 4
  {
    Get(account, ["lamports", "owner", "executable", "rentEpoch"][i])
  }

  predicate Contains(text: string, part: string)
  {
    exists i :: 0 <= i <= |text| && OccursAt(text, part, i)
  }

  predicate OccursAt(text: string, part: string, i: nat)
  {
    i + |part| <= |text| && text[i..i + |part|] == part
  }

  /** Equal as JSON or, under a zstd encoding, equal in the four fields and in the decompressed data. */
  predicate AccountsEqual(a: Json, b: Json, encoding: string, decompress: Decompressor)
  {
    || a == b
    || (
      && Contains(encoding, "zstd")
      && (forall i :: 0 <= i < 4 ==> Field(a, i) == Field(b, i))
      && SameData(AsArray(Get(a, "data")), AsArray(Get(b, "data")), decompress)
    )
  }

  /** The fields whose values decide besides the data. */
  predicate SameFields(a: Json, b: Json)
  {
    && Get(a, "lamports") == Get(b, "lamports") && Get(a, "owner") == Get(b, "owner")
    && Get(a, "executable") == Get(b, "executable") && Get(a, "rentEpoch") == Get(b, "rentEpoch")
  }

  /** The data of an account as zstd text: its first item decompresses to `raw`, and its second item is `tag`. */
  predicate Decompresses(account: Json, raw: Bytes, tag: Option<Json>, decompress: Decompressor)
  {
    match Get(account, "data")
    case Some(Array(items)) =>
      && |items| > 0 && items[0].Text? && decompress(items[0].s) == Some(raw)
      && tag == (if |items| > 1 then Some(items[1]) else None)
    case _ => false
  }

  /**
   Equal accounts have the same lamports, owner, executable and rentEpoch. Accounts that are not equal as JSON are equal
   only under a zstd encoding, with those fields the same, the same bytes after decompression and the same tag.
   */
  lemma AccountsEqualIff(a: Json, b: Json, encoding: string, decompress: Decompressor)
    ensures AccountsEqual(a, b, encoding, decompress) <==>
      a == b ||
      (Contains(encoding, "zstd") && SameFields(a, b) &&
        exists raw, tag :: Decompresses(a, raw, tag, decompress) && Decompresses(b, raw, tag, decompress))
    ensures AccountsEqual(a, b, encoding, decompress) ==> SameFields(a, b)
  {
    FieldsAreNamed(a, b);
    var d1, d2 := AsArray(Get(a, "data")), AsArray(Get(b, "data"));
    if SameData(d1, d2, decompress) {
      var raw, tag := Raw(d1.value, decompress).value, At(d1.value, 1);
      assert Decompresses(a, raw, tag, decompress) && Decompresses(b, raw, tag, decompress);
    }
  }

  lemma FieldsAreNamed(a: Json, b: Json)
    ensures (forall i :: 0 <= i < 4 ==> Field(a, i) == Field(b, i)) <==> SameFields(a, b)
  {
    assert Field(a, 0) == Get(a, "lamports") && Field(b, 0) == Get(b, "lamports");
    assert Field(a, 1) == Get(a, "owner") && Field(b, 1) == Get(b, "owner");
    assert Field(a, 2) == Get(a, "executable") && Field(b, 2) == Get(b, "executable");
    assert Field(a, 3) == Get(a, "rentEpoch") && Field(b, 3) == Get(b, "rentEpoch");
  }

  /** The encodings of the RPC that are compared by their decompressed bytes. */
  lemma ZstdEncodings()
    ensures Contains("base64+zstd", "zstd") && Contains("zstd", "zstd")
    ensures !Contains("base64", "zstd") && !Contains("jsonParsed", "zstd")
  {
    assert OccursAt("base64+zstd", "zstd", 7) && OccursAt("zstd", "zstd", 0);
    assert forall i :: 0 <= i < |"base64"| ==> "base64"[i] != 'z';
    assert forall i :: 0 <= i < |"jsonParsed"| ==> "jsonParsed"[i] != 'z';
    assert "zstd"[0] == 'z';
    forall text, i: nat | OccursAt(text, "zstd", i)
      ensures i < |text| && text[i] == 'z'
    {
      assert text[i..i + |"zstd"|][0] == text[i];
    }
  }

  /** An account with only its compressed text changed, to one that decompresses to the same bytes, is equal. */
  lemma RecompressedIsEqual(
    fields: map<string, Json>, before: string, after: string, rest: seq<Json>, encoding: string,
    decompress: Decompressor)
    requires Contains(encoding, "zstd") && decompress(before).Some? && decompress(before) == decompress(after)
    ensures AccountsEqual(
      Object(fields["data" := Array([Text(before)] + rest)]), Object(fields["data" := Array([Text(after)] + rest)]),
      encoding, decompress)
  {
    var a, b :=
      Object(fields["data" := Array([Text(before)] + rest)]), Object(fields["data" := Array([Text(after)] + rest)]);
    var raw, tag := decompress(before).value, if rest == [] then None else Some(rest[0]);
    assert "lamports"[0] != 'd' && "owner"[0] != 'd' && "executable"[0] != 'd' && "rentEpoch"[0] != 'd';
    assert Get(a, "data") == Some(Array([Text(before)] + rest)) && Get(b, "data") == Some(Array([Text(after)] + rest));
    assert Decompresses(a, raw, tag, decompress) && Decompresses(b, raw, tag, decompress);
    AccountsEqualIff(a, b, encoding, decompress);
  }

  type Relation = (Json, Json) -> bool

  function SameAccount(encoding: string, decompress: Decompressor): Relation
  {
    (a, b) => AccountsEqual(a, b, encoding, decompress)
  }

  ghost predicate Equivalence(same: Relation)
  {
    && (forall a :: same(a, a))
    && (forall a, b :: same(a, b) ==> same(b, a))
    && (forall a, b, c :: same(a, b) && same(b, c) ==> same(a, c))
  }

  lemma AccountsEqualIsEquivalence(encoding: string, decompress: Decompressor)
    ensures Equivalence(SameAccount(encoding, decompress))
  {
    var same := SameAccount(encoding, decompress);
    forall a, b | same(a, b)
      ensures same(b, a)
    {
      AccountsEqualSymmetric(a, b, encoding, decompress);
    }
    forall a, b, c | same(a, b) && same(b, c)
      ensures same(a, c)
    {
      AccountsEqualTransitive(a, b, c, encoding, decompress);
    }
  }

  lemma AccountsEqualSymmetric(a: Json, b: Json, encoding: string, decompress: Decompressor)
    requires AccountsEqual(a, b, encoding, decompress)
    ensures AccountsEqual(b, a, encoding, decompress)
  {
  }

  lemma AccountsEqualTransitive(a: Json, b: Json, c: Json, encoding: string, decompress: Decompressor)
    requires AccountsEqual(a, b, encoding, decompress) && AccountsEqual(b, c, encoding, decompress)
    ensures AccountsEqual(a, c, encoding, decompress)
  {
    if a != b && b != c {
      assert forall i :: 0 <= i < 4 ==> Field(a, i) == Field(b, i) && Field(b, i) == Field(c, i);
    }
  }

  /******* Arrays of accounts *******/

  /** What the comparison reads of an item. */
  datatype Entry = Entry(pubkey: Option<string>, account: Option<Json>) {
    predicate Complete() {
      pubkey.Some? && account.Some?
    }
  }

  function EntryOf(item: Json): Entry
  {
    Entry(AsText(Get(item, "pubkey")), Get(item, "account"))
  }

  function Entries(items: seq<Json>): (es: seq<Entry>)
    ensures |es| == |items| && forall i :: 0 <= i < |es| ==> es[i] == EntryOf(items[i])
  {
    seq(|items|, i requires 0 <= i < |items| => EntryOf(items[i]))
  }

  type Accounts = map<string, Json>

  /** The map collected from the first `n` entries: incomplete ones are skipped, the last of a key wins. */
  function Keyed(es: seq<Entry>, n: nat): Accounts
    requires n <= |es|
  {
    if n == 0 then map[]
    else if es[n - 1].Complete() then Keyed(es, n - 1)[es[n - 1].pubkey.value := es[n - 1].account.value]
    else Keyed(es, n - 1)
  }

  function AllKeyed(es: seq<Entry>): Accounts
  {
    Keyed(es, |es|)
  }

  /** `k` is the key of a complete entry among the first `n`. */
  ghost predicate Names(es: seq<Entry>, n: nat, k: string)
    requires n <= |es|
  {
    exists i :: 0 <= i < n && es[i].Complete() && es[i].pubkey.value == k
  }

  lemma {:induction false} KeyedNames(es: seq<Entry>, n: nat, k: string)
    requires n <= |es|
    ensures k in Keyed(es, n) <==> Names(es, n, k)
  {
    if n > 0 {
      KeyedNames(es, n - 1, k);
    }
  }

  /** The value of a key is the account of one of its entries. */
  lemma {:induction false} KeyedSource(es: seq<Entry>, n: nat, k: string) returns (i: nat)
    requires n <= |es| && k in Keyed(es, n)
    ensures i < n && es[i] == Entry(Some(k), Some(Keyed(es, n)[k]))
  {
    if es[n - 1].Complete() && es[n - 1].pubkey.value == k {
      i := n - 1;
    } else {
      i := KeyedSource(es, n - 1, k);
    }
  }

  predicate FoundIn(e: Entry, m: Accounts, same: Relation)
  {
    e.Complete() && e.pubkey.value in m && same(e.account.value, m[e.pubkey.value])
  }

  predicate KeyIn(e: Entry, m: Accounts)
  {
    e.pubkey.Some? && e.pubkey.value in m
  }

  /** What the two loops test. */
  ghost predicate Passes(a: seq<Entry>, b: seq<Entry>, same: Relation)
  {
    && |a| == |b|
    && (forall i :: 0 <= i < |a| ==> FoundIn(a[i], AllKeyed(b), same))
    && (forall j :: 0 <= j < |b| ==> KeyIn(b[j], AllKeyed(a)))
  }

  ghost predicate Agree(m: Accounts, n: Accounts, same: Relation)
  {
    m.Keys == n.Keys && forall k :: k in m ==> same(m[k], n[k])
  }

  /** Every entry is complete, and entries of one key have the same account. */
  ghost predicate Consistent(es: seq<Entry>, same: Relation)
  {
    forall i :: 0 <= i < |es| ==> FoundIn(es[i], AllKeyed(es), same)
  }

  ghost predicate AllKeysIn(es: seq<Entry>, m: Accounts)
  {
    forall i :: 0 <= i < |es| ==> KeyIn(es[i], m)
  }

  /** For all inputs: what the comparison of two arrays means in terms of their maps. */
  lemma PassesIff(a: seq<Entry>, b: seq<Entry>, same: Relation)
    requires Equivalence(same)
    ensures Passes(a, b, same) <==>
      && |a| == |b|
      && Consistent(a, same)
      && AllKeysIn(b, AllKeyed(b))
      && Agree(AllKeyed(a), AllKeyed(b), same)
  {
    if Passes(a, b, same) {
      PassingMapsAgree(a, b, same);
      forall i | 0 <= i < |a|
        ensures FoundIn(a[i], AllKeyed(a), same)
      {
        assert FoundIn(a[i], AllKeyed(b), same);
        KeyedNames(a, |a|, a[i].pubkey.value);
      }
    } else if |a| == |b| && Consistent(a, same) && AllKeysIn(b, AllKeyed(b)) && Agree(AllKeyed(a), AllKeyed(b), same) {
      AgreeingMapsPass(a, b, same);
    }
  }

  lemma PassingMapsAgree(a: seq<Entry>, b: seq<Entry>, same: Relation)
    requires Passes(a, b, same)
    ensures Agree(AllKeyed(a), AllKeyed(b), same)
  {
    forall k
      ensures k in AllKeyed(a) ==> k in AllKeyed(b) && same(AllKeyed(a)[k], AllKeyed(b)[k])
      ensures k in AllKeyed(b) ==> k in AllKeyed(a)
    {
      if k in AllKeyed(a) {
        var i := KeyedSource(a, |a|, k);
        assert FoundIn(a[i], AllKeyed(b), same);
      }
      if k in AllKeyed(b) {
        var j := KeyedSource(b, |b|, k);
        assert KeyIn(b[j], AllKeyed(a));
      }
    }
  }

  lemma AgreeingMapsPass(a: seq<Entry>, b: seq<Entry>, same: Relation)
    requires Equivalence(same) && |a| == |b|
    requires Consistent(a, same) && AllKeysIn(b, AllKeyed(b)) && Agree(AllKeyed(a), AllKeyed(b), same)
    ensures Passes(a, b, same)
  {
    forall i | 0 <= i < |a|
      ensures FoundIn(a[i], AllKeyed(b), same)
    {
      assert FoundIn(a[i], AllKeyed(a), same);
    }
    forall j | 0 <= j < |b|
      ensures KeyIn(b[j], AllKeyed(a))
    {
      assert KeyIn(b[j], AllKeyed(b));
    }
  }

  /** A response passes against itself exactly when it is consistent. */
  lemma SelfComparison(a: seq<Entry>, same: Relation)
    requires Equivalence(same)
    ensures Passes(a, a, same) <==> Consistent(a, same)
  {
    PassesIff(a, a, same);
    if Consistent(a, same) {
      forall i | 0 <= i < |a|
        ensures KeyIn(a[i], AllKeyed(a))
      {
        assert FoundIn(a[i], AllKeyed(a), same);
      }
    }
  }

  /** A passing comparison passes the other way around exactly when the second response is consistent. */
  lemma SymmetricIffConsistent(a: seq<Entry>, b: seq<Entry>, same: Relation)
    requires Equivalence(same) && Passes(a, b, same)
    ensures Passes(b, a, same) <==> Consistent(b, same)
  {
    PassesIff(a, b, same);
    PassesIff(b, a, same);
    SelfComparison(a, same);
  }

  lemma LastOfTwoWins(p: string, x: Json, y: Json)
    ensures AllKeyed([Entry(Some(p), Some(x)), Entry(Some(p), Some(y))]) == map[p := y]
  {
    var es := [Entry(Some(p), Some(x)), Entry(Some(p), Some(y))];
    assert Keyed(es, 0) == map[];
    assert Keyed(es, 1) == map[p := x];
    assert Keyed(es, 2) == Keyed(es, 1)[p := y];
  }

  /** Two entries of one key make the comparison depend on the order of its arguments. */
  lemma DuplicatesBreakSymmetry(p: string, x: Json, y: Json, same: Relation)
    requires Equivalence(same) && !same(x, y)
    ensures
      var a, b := [Entry(Some(p), Some(y)), Entry(Some(p), Some(y))], [Entry(Some(p), Some(x)), Entry(Some(p), Some(y))];
      Passes(a, b, same) && !Passes(b, a, same)
  {
    var a, b := [Entry(Some(p), Some(y)), Entry(Some(p), Some(y))], [Entry(Some(p), Some(x)), Entry(Some(p), Some(y))];
    LastOfTwoWins(p, y, y);
    LastOfTwoWins(p, x, y);
    assert !FoundIn(b[0], AllKeyed(a), same);
  }

  /******* Well-formed responses *******/

  ghost predicate WellFormed(es: seq<Entry>)
  {
    && (forall i :: 0 <= i < |es| ==> es[i].Complete())
    && (forall i, j :: 0 <= i < j < |es| ==> es[i].pubkey != es[j].pubkey)
  }

  /** With distinct keys the map holds exactly the entries. */
  lemma {:induction false} WellFormedKeyed(es: seq<Entry>, n: nat)
    requires n <= |es| && WellFormed(es)
    ensures |Keyed(es, n)| == n
    ensures forall i :: 0 <= i < n ==>
      es[i].pubkey.value in Keyed(es, n) && Keyed(es, n)[es[i].pubkey.value] == es[i].account.value
  {
    if n > 0 {
      WellFormedKeyed(es, n - 1);
      var k := es[n - 1].pubkey.value;
      KeyedNames(es, n - 1, k);
      assert k !in Keyed(es, n - 1);
    }
  }

  lemma WellFormedIsConsistent(es: seq<Entry>, same: Relation)
    requires WellFormed(es) && Equivalence(same)
    ensures Consistent(es, same) && AllKeysIn(es, AllKeyed(es))
  {
    WellFormedKeyed(es, |es|);
    forall i | 0 <= i < |es|
      ensures FoundIn(es[i], AllKeyed(es), same) && KeyIn(es[i], AllKeyed(es))
    {
      assert AllKeyed(es)[es[i].pubkey.value] == es[i].account.value;
    }
  }

  /** On well-formed responses the comparison is agreement of the two maps. */
  lemma WellFormedComparison(a: seq<Entry>, b: seq<Entry>, same: Relation)
    requires Equivalence(same) && WellFormed(a) && WellFormed(b)
    ensures Passes(a, b, same) <==> Agree(AllKeyed(a), AllKeyed(b), same)
    ensures Passes(a, b, same) <==> Passes(b, a, same)
  {
    WellFormedIsConsistent(a, same);
    WellFormedIsConsistent(b, same);
    WellFormedKeyed(a, |a|);
    WellFormedKeyed(b, |b|);
    PassesIff(a, b, same);
    PassesIff(b, a, same);
    if AllKeyed(a).Keys == AllKeyed(b).Keys {
      assert |AllKeyed(a).Keys| == |AllKeyed(a)| && |AllKeyed(b).Keys| == |AllKeyed(b)|;
    }
  }

  /** The order of the items does not matter on either side. */
  lemma OrderIsIrrelevant(a: seq<Entry>, reordered: seq<Entry>, b: seq<Entry>, same: Relation)
    requires Equivalence(same) && WellFormed(a) && WellFormed(reordered) && WellFormed(b)
    requires multiset(a) == multiset(reordered)
    ensures Passes(a, b, same) <==> Passes(reordered, b, same)
    ensures Passes(b, a, same) <==> Passes(b, reordered, same)
  {
    KeyedWithin(a, reordered);
    KeyedWithin(reordered, a);
    assert AllKeyed(a) == AllKeyed(reordered);
    WellFormedComparison(a, b, same);
    WellFormedComparison(reordered, b, same);
  }

  lemma KeyedWithin(a: seq<Entry>, b: seq<Entry>)
    requires WellFormed(b) && multiset(a) == multiset(b)
    ensures forall k :: k in AllKeyed(a) ==> k in AllKeyed(b) && AllKeyed(b)[k] == AllKeyed(a)[k]
  {
    WellFormedKeyed(b, |b|);
    forall k | k in AllKeyed(a)
      ensures k in AllKeyed(b) && AllKeyed(b)[k] == AllKeyed(a)[k]
    {
      var i := KeyedSource(a, |a|, k);
      assert a[i] in multiset(b);
      var j :| 0 <= j < |b| && b[j] == a[i];
    }
  }

  /******* The code *******/

  method CollectByPubkey(items: seq<Json>) returns (m: Accounts)
    ensures m == AllKeyed(Entries(items))
  {
    m := map[];
    for i := 0 to |items|
      invariant m == Keyed(Entries(items), i)
    {
      var pubkey, account := AsText(Get(items[i], "pubkey")), Get(items[i], "account");
      if pubkey.Some? && account.Some? {
        m := m[pubkey.value := account.value];
      }
    }
  }

  /** The two loops over arrays of `{pubkey, account}` items. */
  method CompareItems(items1: seq<Json>, items2: seq<Json>, encoding: string, decompress: Decompressor)
    returns (matches: bool)
    ensures matches <==> Passes(Entries(items1), Entries(items2), SameAccount(encoding, decompress))
  {
    ghost var same := SameAccount(encoding, decompress);
    if |items1| != |items2| {
      return false;
    }
    var map2 := CollectByPubkey(items2);
    for i := 0 to |items1|
      invariant forall n :: 0 <= n < i ==> FoundIn(Entries(items1)[n], map2, same)
    {
      var pubkey, account := AsText(Get(items1[i], "pubkey")), Get(items1[i], "account");
      assert Entries(items1)[i] == Entry(pubkey, account);
      if pubkey.None? || account.None? || pubkey.value !in map2
        || !AccountsEqual(account.value, map2[pubkey.value], encoding, decompress)
      {
        assert !FoundIn(Entries(items1)[i], map2, same);
        return false;
      }
    }
    var map1 := CollectByPubkey(items1);
    for j := 0 to |items2|
      invariant forall n :: 0 <= n < j ==> KeyIn(Entries(items2)[n], map1)
    {
      var pubkey := AsText(Get(items2[j], "pubkey"));
      if pubkey.None? || pubkey.value !in map1 {
        assert !KeyIn(Entries(items2)[j], map1);
        return false;
      }
    }
    matches := true;
  }

  /** The items are under `result.value`, or under `result` when there is no `value`. */
  function GetAccounts(response: Json): Option<seq<Json>>
  {
    match Get(response, "result")
    case None => None
    case Some(r) => AsArray(if Get(r, "value").Some? then Get(r, "value") else Some(r))
  }

  /** Responses that are not arrays of accounts are compared whole. */
  ghost predicate ResponsesPass(response1: Json, response2: Json, same: Relation)
  {
    match (GetAccounts(response1), GetAccounts(response2))
    case (Some(items1), Some(items2)) => Passes(Entries(items1), Entries(items2), same)
    case _ => response1 == response2
  }

  method CompareAccountArrayResponses(response1: Json, response2: Json, encoding: string, decompress: Decompressor)
    returns (matches: bool)
    ensures matches <==> ResponsesPass(response1, response2, SameAccount(encoding, decompress))
  {
    var accounts1 := GetAccounts(response1);
    if accounts1.None? {
      return response1 == response2;
    }
    var accounts2 := GetAccounts(response2);
    if accounts2.None? {
      return false;
    }
    matches := CompareItems(accounts1.value, accounts2.value, encoding, decompress);
  }

  /******* Responses *******/

  function Item(pubkey: string, account: Json): Json
  {
    Object(map["pubkey" := Text(pubkey), "account" := account])
  }

  function UnderResult(result: Json): Json
  {
    Object(map["result" := result])
  }

  /** The items of a response are under `result.value` or, when `result` is an array, under `result`. */
  lemma BothFormsAreRead(items: seq<Json>, context: Json)
    ensures GetAccounts(UnderResult(Object(map["context" := context, "value" := Array(items)]))) == Some(items)
    ensures GetAccounts(UnderResult(Array(items))) == Some(items)
  {
    assert "context"[0] != "value"[0];
  }

  /** Any other response has no items: one without a result, and an object whose value is missing or not an array. */
  lemma OthersHaveNoItems(fields: map<string, Json>)
    ensures "result" !in fields ==> GetAccounts(Object(fields)) == None
    ensures "value" !in fields || !fields["value"].Array? ==> GetAccounts(UnderResult(Object(fields))) == None
  {
  }

  lemma ItemsDecide(r1: Json, r2: Json, items1: seq<Json>, items2: seq<Json>, same: Relation)
    requires GetAccounts(r1) == Some(items1) && GetAccounts(r2) == Some(items2)
    ensures ResponsesPass(r1, r2, same) <==> Passes(Entries(items1), Entries(items2), same)
  {
  }

  /** Items under `result.value` and the same items in a bare `result` array give the same verdict, on either side. */
  lemma BothFormsAgree(items: seq<Json>, context: Json, other: Json, same: Relation)
    requires GetAccounts(other).Some?
    ensures var wrapped, bare :=
        UnderResult(Object(map["context" := context, "value" := Array(items)])), UnderResult(Array(items));
      && (ResponsesPass(wrapped, other, same) <==> ResponsesPass(bare, other, same))
      && (ResponsesPass(other, wrapped, same) <==> ResponsesPass(other, bare, same))
  {
    var wrapped, bare :=
      UnderResult(Object(map["context" := context, "value" := Array(items)])), UnderResult(Array(items));
    BothFormsAreRead(items, context);
    var others := GetAccounts(other).value;
    ItemsDecide(wrapped, other, items, others, same);
    ItemsDecide(bare, other, items, others, same);
    ItemsDecide(other, wrapped, others, items, same);
    ItemsDecide(other, bare, others, items, same);
  }

  /** Responses of one account each match exactly when the pubkeys and the accounts are the same. */
  lemma OneAccountEach(p: string, q: string, x: Json, y: Json, same: Relation)
    ensures ResponsesPass(UnderResult(Array([Item(p, x)])), UnderResult(Array([Item(q, y)])), same) <==>
      p == q && same(x, y)
  {
    var a, b := [Item(p, x)], [Item(q, y)];
    BothFormsAreRead(a, Null);
    BothFormsAreRead(b, Null);
    ItemsDecide(UnderResult(Array(a)), UnderResult(Array(b)), a, b, same);
    OneEntry(p, x);
    OneEntry(q, y);
    OneEntryEach(p, q, x, y, same);
  }

  lemma OneEntry(p: string, x: Json)
    ensures Entries([Item(p, x)]) == [Entry(Some(p), Some(x))]
  {
    EntryOfItem(p, x);
  }

  lemma OneEntryEach(p: string, q: string, x: Json, y: Json, same: Relation)
    ensures Passes([Entry(Some(p), Some(x))], [Entry(Some(q), Some(y))], same) <==> p == q && same(x, y)
  {
    var a, b := [Entry(Some(p), Some(x))], [Entry(Some(q), Some(y))];
    OneIsKeyed(p, x);
    OneIsKeyed(q, y);
    if p == q && same(x, y) {
      assert FoundIn(a[0], AllKeyed(b), same) && KeyIn(b[0], AllKeyed(a));
    } else {
      assert !FoundIn(a[0], AllKeyed(b), same);
    }
  }

  lemma OneIsKeyed(p: string, x: Json)
    ensures AllKeyed([Entry(Some(p), Some(x))]) == map[p := x]
  {
    assert Keyed([Entry(Some(p), Some(x))], 0) == map[];
  }

  lemma EntryOfItem(p: string, x: Json)
    ensures EntryOf(Item(p, x)) == Entry(Some(p), Some(x))
  {
    assert "pubkey"[0] != "account"[0];
  }

  /** Two endpoints that disagree on a balance never match, whatever the encoding. */
  lemma DifferentBalancesDoNotMatch(p: string, x: Json, y: Json, encoding: string, decompress: Decompressor)
    requires Get(x, "lamports") != Get(y, "lamports")
    ensures !ResponsesPass(
      UnderResult(Array([Item(p, x)])), UnderResult(Array([Item(p, y)])), SameAccount(encoding, decompress))
  {
    OneAccountEach(p, p, x, y, SameAccount(encoding, decompress));
    AccountsEqualIff(x, y, encoding, decompress);
  }
}
