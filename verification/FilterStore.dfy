/** The row in which the indexer leaves its program filter for the API: a mode and a comma-joined list. */
module FilterStore {
  import opened Basics
  import opened Programs
  import Base58
  import Radix

  /** How a public key is written as text and read back. */
  datatype KeyText = KeyText(show: Pubkey -> string, parse: string -> Option<Pubkey>)

  /** The characters `str::trim` removes: the Unicode property White_Space. */
  predicate IsWhitespace(c: char)
  {
    var n := c as int;
    || 0x9 <= n <= 0xD || n == 0x20 || n == 0x85 || n == 0xA0 || n == 0x1680 || 0x2000 <= n <= 0x200A
    || n == 0x2028 || n == 0x2029 || n == 0x202F || n == 0x205F || n == 0x3000
  }

  /** The 25 characters with the property. */
  lemma WhitespaceIs(c: char)
    ensures IsWhitespace(c) <==> c as int in {
      0x9, 0xA, 0xB, 0xC, 0xD, 0x20, 0x85, 0xA0, 0x1680, 0x2000, 0x2001, 0x2002, 0x2003, 0x2004, 0x2005, 0x2006, 0x2007,
      0x2008, 0x2009, 0x200A, 0x2028, 0x2029, 0x202F, 0x205F, 0x3000}
  {
  }

  predicate Plain(s: string)
  {
    forall i :: 0 <= i < |s| ==> s[i] != ',' && !IsWhitespace(s[i])
  }

  /** Text reads back as the key it was printed from, and has no comma or white space. */
  ghost predicate Faithful(kt: KeyText)
  {
    forall k :: kt.parse(kt.show(k)) == Some(k) && kt.show(k) != "" && Plain(kt.show(k))
  }

  /******* Joining and splitting *******/

  function Join(parts: seq<string>): string
  {
    if parts == [] then ""
    else if |parts| == 1 then parts[0]
    else parts[0] + "," + Join(parts[1..])
  }

  /** The length of the text before the first comma. */
  function UntilComma(s: string): (n: nat)
    ensures n <= |s|
    ensures n < |s| ==> s[n] == ','
    ensures forall i :: 0 <= i < n ==> s[i] != ','
  {
    if s == "" || s[0] == ',' then 0 else 1 + UntilComma(s[1..])
  }

  /** `split(',')`: the empty text has one empty part. */
  function Split(s: string): (parts: seq<string>)
    ensures parts != []
  {
    var n := UntilComma(s);
    if n == |s| then [s] else [s[..n]] + Split(s[n + 1..])
  }

  predicate CommaFree(s: string)
  {
    forall i :: 0 <= i < |s| ==> s[i] != ','
  }

  lemma SplitAtComma(first: string, rest: string)
    requires CommaFree(first)
    ensures Split(first + "," + rest) == [first] + Split(rest)
  {
    var text := first + "," + rest;
    assert text[|first|] == ',';
    assert forall i :: 0 <= i < |first| ==> text[i] == first[i];
    assert UntilComma(text) == |first|;
    assert text[..|first|] == first && text[|first| + 1..] == rest;
  }

  lemma {:induction false} SplitOfJoin(parts: seq<string>)
    requires parts != [] && forall i :: 0 <= i < |parts| ==> CommaFree(parts[i])
    ensures Split(Join(parts)) == parts
  {
    var first := parts[0];
    assert CommaFree(first);
    if |parts| == 1 {
      assert UntilComma(first) == |first|;
    } else {
      SplitOfJoin(parts[1..]);
      SplitAtComma(first, Join(parts[1..]));
    }
  }

  lemma CutAt(s: string, n: nat)
    requires n < |s| && s[n] == ','
    ensures s[..n] + "," + s[n + 1..] == s
  {
  }

  lemma JoinCons(first: string, rest: seq<string>)
    requires rest != []
    ensures Join([first] + rest) == first + "," + Join(rest)
  {
    assert ([first] + rest)[1..] == rest;
  }

  lemma {:induction false} JoinOfSplit(s: string)
    ensures Join(Split(s)) == s
    decreases |s|
  {
    var n := UntilComma(s);
    if n < |s| {
      var first, rest := s[..n], s[n + 1..];
      JoinOfSplit(rest);
      assert Split(s) == [first] + Split(rest);
      JoinCons(first, Split(rest));
      CutAt(s, n);
    }
  }

  /******* Trimming *******/

  function TrimStart(s: string): string
  {
    if s != "" && IsWhitespace(s[0]) then TrimStart(s[1..]) else s
  }

  function TrimEnd(s: string): string
  {
    if s != "" && IsWhitespace(s[|s| - 1]) then TrimEnd(s[..|s| - 1]) else s
  }

  function Trim(s: string): string
  {
    TrimEnd(TrimStart(s))
  }

  predicate AllWhitespace(s: string)
  {
    forall i :: 0 <= i < |s| ==> IsWhitespace(s[i])
  }

  lemma {:induction false} TrimStartPadding(pad: string, s: string)
    requires AllWhitespace(pad)
    ensures TrimStart(pad + s) == TrimStart(s)
  {
    if pad == "" {
      assert pad + s == s;
    } else {
      assert (pad + s)[1..] == pad[1..] + s;
      TrimStartPadding(pad[1..], s);
    }
  }

  lemma {:induction false} TrimEndPadding(s: string, pad: string)
    requires AllWhitespace(pad)
    ensures TrimEnd(s + pad) == TrimEnd(s)
  {
    if pad == "" {
      assert s + pad == s;
    } else {
      var n := |s + pad| - 1;
      assert (s + pad)[..n] == s + pad[..|pad| - 1];
      TrimEndPadding(s, pad[..|pad| - 1]);
    }
  }

  /** Padding around a text without white space is dropped, and nothing else. */
  lemma TrimPadded(before: string, s: string, after: string)
    requires AllWhitespace(before) && AllWhitespace(after) && Plain(s)
    ensures Trim(before + s + after) == s
  {
    assert before + s + after == before + (s + after);
    TrimStartPadding(before, s + after);
    if s == "" {
      assert s + after == after && after == after + "";
      TrimStartPadding(after, "");
    } else {
      assert (s + after)[0] == s[0];
      assert TrimStart(s + after) == s + after;
      TrimEndPadding(s, after);
      assert TrimEnd(s) == s;
    }
  }

  /******* Saving and loading *******/

  datatype Row = Row(mode: string, programs: string)

  datatype LoadError = RowMissing | BadProgram(text: string) | InvalidMode(mode: string)

  function Printed(kt: KeyText, keys: seq<Pubkey>): (texts: seq<string>)
    ensures |texts| == |keys| && forall i :: 0 <= i < |keys| ==> texts[i] == kt.show(keys[i])
  {
    seq(|keys|, i requires 0 <= i < |keys| => kt.show(keys[i]))
  }

  /** `upsert_filters`: the include list when it is not empty, and the exclude list otherwise. */
  function Save(kt: KeyText, filters: AccountSelector): Row
  {
    if filters.included == [] then Row("exclude", Join(Printed(kt, filters.excluded)))
    else Row("include", Join(Printed(kt, filters.included)))
  }

  /** Trim each part, skip the empty ones, and stop at the first that is not a key. */
  function ParseParts(kt: KeyText, parts: seq<string>): Result<seq<Pubkey>, string>
  {
    if parts == [] then Success([])
    else
      var text := Trim(parts[0]);
      if text == "" then ParseParts(kt, parts[1..])
      else
        match kt.parse(text)
        case None => Failure(text)
        case Some(key) =>
          match ParseParts(kt, parts[1..])
          case Failure(bad) => Failure(bad)
          case Success(keys) => Success([key] + keys)
  }

  /** `load_filters`: the list is read before the mode is looked at. */
  function Load(kt: KeyText, row: Option<Row>): Result<AccountSelector, LoadError>
  {
    match row
    case None => Failure(RowMissing)
    case Some(Row(mode, programs)) =>
      match ParseParts(kt, Split(programs))
      case Failure(text) => Failure(BadProgram(text))
      case Success(keys) =>
        if mode == "include" then Success(AccountSelector(keys, []))
        else if mode == "exclude" then Success(AccountSelector([], keys))
        else Failure(InvalidMode(mode))
  }

  /** Some part is not empty and not a key once trimmed, and `text` is the first such part. */
  ghost predicate FirstBad(kt: KeyText, parts: seq<string>, i: nat, text: string)
  {
    && i < |parts| && text == Trim(parts[i]) && text != "" && kt.parse(text).None?
    && forall j :: 0 <= j < i ==> var earlier := Trim(parts[j]); earlier == "" || kt.parse(earlier).Some?
  }

  ghost predicate HasFirstBad(kt: KeyText, parts: seq<string>, text: string)
  {
    exists i: nat :: FirstBad(kt, parts, i, text)
  }

  lemma {:induction false} PartsFailIff(kt: KeyText, parts: seq<string>, text: string)
    ensures ParseParts(kt, parts) == Failure(text) <==> HasFirstBad(kt, parts, text)
  {
    if parts != [] {
      var first := Trim(parts[0]);
      PartsFailIff(kt, parts[1..], text);
      if i: nat :| FirstBad(kt, parts[1..], i, text) {
        if first == "" || kt.parse(first).Some? {
          assert FirstBad(kt, parts, i + 1, text);
        }
      }
      if i: nat :| FirstBad(kt, parts, i, text) {
        if i > 0 {
          assert FirstBad(kt, parts[1..], i - 1, text);
        }
      } else if first != "" && kt.parse(first).None? {
        assert !FirstBad(kt, parts, 0, text);
      }
    }
  }

  /** Loading fails on a text that is not a key, and names the first one, whatever the mode. */
  lemma LoadFailsOnBadText(kt: KeyText, row: Row, text: string)
    ensures Load(kt, Some(row)) == Failure(BadProgram(text)) <==> HasFirstBad(kt, Split(row.programs), text)
    ensures Load(kt, None) == Failure(RowMissing)
  {
    var parsed := ParseParts(kt, Split(row.programs));
    PartsFailIff(kt, Split(row.programs), text);
    assert parsed == Failure(text) <==> parsed.Failure? && parsed.error == text;
    assert parsed.Failure? ==> Load(kt, Some(row)) == Failure(BadProgram(parsed.error));
    assert parsed.Success? ==> Load(kt, Some(row)) != Failure(BadProgram(text));
  }

  /** A part of a list as an operator may type it: a key or nothing, with white space around it. */
  datatype Entry = Entry(before: string, key: Option<Pubkey>, after: string)

  function EntryText(kt: KeyText, e: Entry): string
  {
    e.before + (match e.key case None => "" case Some(k) => kt.show(k)) + e.after
  }

  predicate Padded(e: Entry)
  {
    AllWhitespace(e.before) && AllWhitespace(e.after)
  }

  function EntryTexts(kt: KeyText, es: seq<Entry>): (texts: seq<string>)
  {
    if es == [] then [] else [EntryText(kt, es[0])] + EntryTexts(kt, es[1..])
  }

  function Keys(es: seq<Entry>): seq<Pubkey>
  {
    if es == [] then []
    else (match es[0].key case None => [] case Some(k) => [k]) + Keys(es[1..])
  }

  /** White space and empty parts do not change what a list means. */
  lemma {:induction false} ParsePadded(kt: KeyText, es: seq<Entry>)
    requires Faithful(kt) && forall i :: 0 <= i < |es| ==> Padded(es[i])
    ensures ParseParts(kt, EntryTexts(kt, es)) == Success(Keys(es))
  {
    if es != [] {
      var e := es[0];
      assert Padded(e);
      ParsePadded(kt, es[1..]);
      var text := match e.key case None => "" case Some(k) => kt.show(k);
      TrimPadded(e.before, text, e.after);
      assert EntryTexts(kt, es)[1..] == EntryTexts(kt, es[1..]);
      assert Trim(EntryTexts(kt, es)[0]) == text;
      if e.key.None? {
        assert Keys(es) == Keys(es[1..]);
      } else {
        assert kt.parse(text) == Some(e.key.value);
      }
    }
  }

  function Bare(keys: seq<Pubkey>): (es: seq<Entry>)
    ensures |es| == |keys| && forall i :: 0 <= i < |es| ==> Padded(es[i])
  {
    if keys == [] then [] else [Entry("", Some(keys[0]), "")] + Bare(keys[1..])
  }

  lemma {:induction false} BareTexts(kt: KeyText, keys: seq<Pubkey>)
    ensures EntryTexts(kt, Bare(keys)) == Printed(kt, keys)
    ensures Keys(Bare(keys)) == keys
  {
    if keys != [] {
      BareTexts(kt, keys[1..]);
      assert Printed(kt, keys) == [kt.show(keys[0])] + Printed(kt, keys[1..]);
      assert EntryText(kt, Bare(keys)[0]) == kt.show(keys[0]);
      assert Bare(keys)[1..] == Bare(keys[1..]);
    }
  }

  lemma ListRoundTrip(kt: KeyText, keys: seq<Pubkey>)
    requires Faithful(kt)
    ensures ParseParts(kt, Split(Join(Printed(kt, keys)))) == Success(keys)
  {
    if keys == [] {
      assert Split("") == [""];
      assert Trim("") == "";
      assert [""][1..] == [];
    } else {
      var texts := Printed(kt, keys);
      assert forall i :: 0 <= i < |texts| ==> Plain(texts[i]);
      SplitOfJoin(texts);
      BareTexts(kt, keys);
      ParsePadded(kt, Bare(keys));
    }
  }

  /** What a loaded filter says of every program is what the saved one said, even with both lists set. */
  lemma SavedFilterIsKept(kt: KeyText, filters: AccountSelector)
    requires Faithful(kt)
    ensures var loaded := Load(kt, Some(Save(kt, filters)));
      && loaded.Success?
      && (forall p :: loaded.value.IsSelected(p) <==> filters.IsSelected(p))
      && (loaded.value.SupportsVoteAccounts() <==> filters.SupportsVoteAccounts())
      && (loaded.value.SupportsSimulation() <==> filters.SupportsSimulation())
      && (filters.SupportsVoteAccounts() <==>
          if filters.included != [] then VoteProgram() in filters.included && StakeProgram() in filters.included
          else VoteProgram() !in filters.excluded && StakeProgram() !in filters.excluded)
      && (filters.SupportsSimulation() <==> forall p: Pubkey :: p !in filters.included + filters.excluded)
  {
    LoadOfSave(kt, filters);
    var programs := filters.included + filters.excluded;
    if programs != [] {
      assert programs[0] in programs;
    }
  }

  /** Exactly the configurations with both lists set lose something: the exclude list, which decided nothing. */
  lemma SavedFilterIsExactIff(kt: KeyText, filters: AccountSelector)
    requires Faithful(kt)
    ensures Load(kt, Some(Save(kt, filters))) == Success(filters) <==> filters.included == [] || filters.excluded == []
  {
    LoadOfSave(kt, filters);
  }

  lemma LoadOfSave(kt: KeyText, filters: AccountSelector)
    requires Faithful(kt)
    ensures Load(kt, Some(Save(kt, filters))) ==
      Success(if filters.included == [] then filters else filters.(excluded := []))
  {
    ListRoundTrip(kt, filters.included);
    ListRoundTrip(kt, filters.excluded);
  }

  /** A list typed with white space, empty parts or a trailing comma selects the keys it names. */
  lemma LoadTolerates(kt: KeyText, es: seq<Entry>, mode: string)
    requires Faithful(kt) && es != [] && forall i :: 0 <= i < |es| ==> Padded(es[i])
    ensures Load(kt, Some(Row(mode, Join(EntryTexts(kt, es))))) ==
      if mode == "include" then Success(AccountSelector(Keys(es), []))
      else if mode == "exclude" then Success(AccountSelector([], Keys(es)))
      else Failure(InvalidMode(mode))
  {
    EntryTextsCommaFree(kt, es);
    SplitOfJoin(EntryTexts(kt, es));
    ParsePadded(kt, es);
  }

  lemma {:induction false} EntryTextsCommaFree(kt: KeyText, es: seq<Entry>)
    requires Faithful(kt) && forall i :: 0 <= i < |es| ==> Padded(es[i])
    ensures |EntryTexts(kt, es)| == |es| && forall i :: 0 <= i < |es| ==> CommaFree(EntryTexts(kt, es)[i])
  {
    if es != [] {
      EntryTextsCommaFree(kt, es[1..]);
      var e := es[0];
      assert Padded(e);
      forall i | 0 <= i < |EntryText(kt, e)|
        ensures EntryText(kt, e)[i] != ','
      {
        assert e.key.Some? ==> Plain(kt.show(e.key.value));
      }
    }
  }

  /******* The text form of Solana keys *******/

  ghost function Base58Text(): KeyText
  {
    KeyText(k => Base58.Encoded(k), s => ParseBase58(s))
  }

  /** Base58 with leading zeros kept, of exactly 32 bytes. */
  ghost function ParseBase58(s: string): Option<Pubkey>
  {
    if Base58.Legal(s) && IsKey(Base58.StandardDecoded(s)) then Some(Base58.StandardDecoded(s)) else None
  }

  ghost predicate IsKey(b: seq<nat>)
  {
    |b| == 32 && Radix.ValidDigits(b, 256)
  }

  lemma Base58IsFaithful()
    ensures Faithful(Base58Text())
  {
    forall k: Pubkey
      ensures ParseBase58(Base58.Encoded(k)) == Some(k) && Base58.Encoded(k) != "" && Plain(Base58.Encoded(k))
    {
      Base58.StandardDecodeOfEncode(k);
      Base58.StandardDecodeOfEncode([]);
      assert Base58.Encoded([]) == "";
      LegalIsPlain(Base58.Encoded(k));
    }
  }

  /** The System program is the key that is written as 32 ones. */
  lemma SystemProgramText()
    ensures Base58Text().show(SystemProgram()) == seq(32, i => '1')
  {
    var zeros := Radix.Zeros(32);
    assert SystemProgram() == zeros && zeros + [] == zeros;
    Base58.LeadingZerosPrefix(32, []);
    Base58.ValueIgnoresZeros(32, [], 256);
    assert Radix.Digits(0, 58) == [];
    Base58.FewSymbols();
  }

  lemma LegalIsPlain(s: string)
    requires Base58.Legal(s)
    ensures Plain(s)
  {
    forall i | 0 <= i < |s|
      ensures s[i] != ',' && !IsWhitespace(s[i])
    {
      var p :| 0 <= p < |Base58.ALPHABET| && Base58.ALPHABET[p] == s[i];
      if p > 0 {
        Base58.SymbolsAscend(0, p);
      }
      if p < 57 {
        Base58.SymbolsAscend(p, 57);
      }
    }
  }
}
