/** The base58 functions of the database: `bs58_decode` and `bs58_encode`. */
module Base58 {
  import opened Basics
  import opened Radix

  /** The digits and letters without `0`, `I`, `O` and `l`: six runs of consecutive characters. */
  const ALPHABET: string :=
    "123456789" + "ABCDEFGH" + "JKLMN" + "PQRSTUVWXYZ" + "abcdefghijk" + "mnopqrstuvwxyz"

  lemma AlphabetSize()
    ensures |ALPHABET| == 58
  {
  }

  function Run(first: char, n: nat): (s: string)
    requires first as int + n <= 128
    ensures |s| == n && forall i :: 0 <= i < n ==> s[i] as int == first as int + i
  {
    seq(n, i requires 0 <= i < n => (first as int + i) as char)
  }

  lemma AlphabetRuns()
    ensures ALPHABET == Run('1', 9) + Run('A', 8) + Run('J', 5) + Run('P', 11) + Run('a', 11) + Run('m', 14)
  {
    assert "123456789" == Run('1', 9) && "ABCDEFGH" == Run('A', 8) && "JKLMN" == Run('J', 5);
    assert "PQRSTUVWXYZ" == Run('P', 11);
    assert "abcdefghijk" == Run('a', 11);
    assert "mnopqrstuvwxyz" == Run('m', 14);
  }

  lemma SymbolsAscend(i: nat, j: nat)
    requires i < j < |ALPHABET|
    ensures ALPHABET[i] < ALPHABET[j]
  {
    AlphabetSize();
    AlphabetRuns();
  }

  /** `position(c IN s)`, searched from `k`: one-based, 0 when absent. */
  function PositionFrom(c: char, s: string, k: nat): (p: nat)
    requires k <= |s|
    ensures p == 0 ==> forall i :: k <= i < |s| ==> s[i] != c
    ensures p > 0 ==> k < p <= |s| && s[p - 1] == c
    decreases |s| - k
  {
    if k == |s| then 0 else if s[k] == c then k + 1 else PositionFrom(c, s, k + 1)
  }

  function Position(c: char): (p: nat)
    ensures p == 0 <==> c !in ALPHABET
    ensures p > 0 ==> p <= 58 && ALPHABET[p - 1] == c
  {
    AlphabetSize();
    PositionFrom(c, ALPHABET, 0)
  }

  function Symbol(d: nat): char
    requires d < 58
  {
    AlphabetSize();
    ALPHABET[d]
  }

  lemma PositionOfSymbol(d: nat)
    requires d < 58
    ensures Position(Symbol(d)) == d + 1
  {
    AlphabetSize();
    var p := Position(Symbol(d));
    assert ALPHABET[d] in ALPHABET;
    if p - 1 < d {
      SymbolsAscend(p - 1, d);
    } else if d < p - 1 {
      SymbolsAscend(d, p - 1);
    }
  }

  /******* Text and digits *******/

  ghost predicate Legal(text: string)
  {
    forall i :: 0 <= i < |text| ==> text[i] in ALPHABET
  }

  function TextDigits(text: string): (ds: seq<nat>)
    requires forall i :: 0 <= i < |text| ==> text[i] in ALPHABET
    ensures |ds| == |text| && ValidDigits(ds, 58)
  {
    seq(|text|, i requires 0 <= i < |text| => Position(text[i]) - 1)
  }

  function Text(ds: seq<nat>): (text: string)
    requires ValidDigits(ds, 58)
    ensures |text| == |ds|
  {
    seq(|ds|, i requires 0 <= i < |ds| => Symbol(ds[i]))
  }

  lemma DigitsOfText(ds: seq<nat>)
    requires ValidDigits(ds, 58)
    ensures Legal(Text(ds)) && TextDigits(Text(ds)) == ds
  {
    AlphabetSize();
    forall i | 0 <= i < |ds|
      ensures Text(ds)[i] in ALPHABET && Position(Text(ds)[i]) == ds[i] + 1
    {
      PositionOfSymbol(ds[i]);
    }
  }

  lemma TextOfDigits(text: string)
    requires Legal(text)
    ensures Text(TextDigits(text)) == text
  {
  }

  /******* The two loops *******/

  /** The first character that is not in the alphabet. */
  ghost function FirstIllegal(text: string): Option<char>
  {
    if text == [] then None
    else
      var before, last := FirstIllegal(text[..|text| - 1]), text[|text| - 1];
      if before.Some? then before else if last in ALPHABET then None else Some(last)
  }

  lemma {:induction false} FirstIllegalIsExact(text: string)
    ensures FirstIllegal(text).None? <==> Legal(text)
    ensures FirstIllegal(text).Some? ==> FirstIllegal(text).value in text && FirstIllegal(text).value !in ALPHABET
  {
    if text != [] {
      var init, last := text[..|text| - 1], text[|text| - 1];
      FirstIllegalIsExact(init);
      assert text == init + [last];
      if FirstIllegal(init).None? {
        assert forall i :: 0 <= i < |init| ==> text[i] == init[i];
      } else {
        assert !Legal(init);
        var i :| 0 <= i < |init| && init[i] !in ALPHABET;
        assert text[i] == init[i];
      }
    }
  }

  /** The number a text denotes, or its first illegal character. */
  ghost function NumberOf(text: string): Result<nat, char>
  {
    FirstIllegalIsExact(text);
    if FirstIllegal(text).Some? then Failure(FirstIllegal(text).value)
    else Success(Value(TextDigits(text), 58))
  }

  /** The text as the decoder reads it: a blank in a `char(1)` is found at position 1, where the `1` is. */
  function Unblanked(text: string): (u: string)
    ensures |u| == |text| && forall i :: 0 <= i < |text| ==> u[i] == if text[i] == ' ' then Symbol(0) else text[i]
  {
    seq(|text|, i requires 0 <= i < |text| => if text[i] == ' ' then Symbol(0) else text[i])
  }

  lemma BlankIsNoSymbol()
    ensures ' ' !in ALPHABET && Symbol(0) in ALPHABET && Symbol(0) == '1'
  {
    AlphabetSize();
    forall i | 0 < i < |ALPHABET|
      ensures ALPHABET[i] != ' '
    {
      SymbolsAscend(0, i);
    }
  }

  lemma LegalIsUnblanked(text: string)
    requires Legal(text)
    ensures Unblanked(text) == text
  {
    BlankIsNoSymbol();
  }

  ghost function Decoded(text: string): Result<seq<nat>, char>
  {
    var number := NumberOf(Unblanked(text));
    if number.Failure? then Failure(number.error) else Success(Digits(number.value, 256))
  }

  predicate Accepted(c: char)
  {
    c in ALPHABET || c == ' '
  }

  ghost predicate FirstRefused(text: string, i: int)
  {
    0 <= i < |text| && !Accepted(text[i]) && forall j :: 0 <= j < i ==> Accepted(text[j])
  }

  /** Decoding fails if and only if some character is neither in the alphabet nor a blank, and names the first such. */
  lemma DecodeFailsIff(text: string)
    ensures Decoded(text).Failure? <==> exists i :: 0 <= i < |text| && !Accepted(text[i])
    ensures Decoded(text).Failure? ==> exists i :: FirstRefused(text, i) && text[i] == Decoded(text).error
  {
    var u := Unblanked(text);
    BlankIsNoSymbol();
    FirstIllegalIsExact(u);
    assert forall i :: 0 <= i < |text| ==> (u[i] in ALPHABET <==> Accepted(text[i]));
    if FirstIllegal(u).Some? {
      var i := FirstIllegalAt(u);
      assert text[i] == u[i];
      assert FirstRefused(text, i);
    }
  }

  lemma {:induction false} FirstIllegalAt(text: string) returns (i: nat)
    requires FirstIllegal(text).Some?
    ensures i < |text| && text[i] == FirstIllegal(text).value && text[i] !in ALPHABET
    ensures forall j :: 0 <= j < i ==> text[j] in ALPHABET
  {
    var init := text[..|text| - 1];
    if FirstIllegal(init).Some? {
      i := FirstIllegalAt(init);
      assert forall j :: 0 <= j <= i ==> text[j] == init[j];
    } else {
      i := |text| - 1;
      FirstIllegalIsExact(init);
      assert forall j :: 0 <= j < i ==> text[j] == init[j];
    }
  }

  /** A blank decodes like a `1`, which for one character is no byte at all. */
  lemma BlankDecodesAsOne()
    ensures Decoded(" ") == Decoded("1") == Success([])
  {
    BlankIsNoSymbol();
    var one := "1";
    assert Legal(one);
    LegalIsUnblanked(one);
    assert Unblanked(" ") == one;
    FirstIllegalIsExact(one);
    PositionOfSymbol(0);
    assert TextDigits(one) == [0];
    assert Value([0], 58) == 0;
  }

  /** `position(c IN alphabet)` of a `char(1)`. */
  function CharPosition(c: char): (p: nat)
    ensures p == 0 <==> !Accepted(c)
  {
    if c == ' ' then 1 else Position(c)
  }

  method ReadNumber(encoded: string) returns (result: Result<nat, char>)
    ensures result == NumberOf(Unblanked(encoded))
  {
    var num: nat := 0;
    ghost var u := Unblanked(encoded);
    BlankIsNoSymbol();
    PositionOfSymbol(0);
    for i := 0 to |encoded|
      invariant FirstIllegal(u[..i]).None? && Legal(u[..i])
      invariant num == Value(TextDigits(u[..i]), 58)
    {
      var c := encoded[i];
      var p := CharPosition(c);
      assert p == Position(u[i]);
      FirstIllegalNext(u, i);
      if p == 0 {
        FirstIllegalStays(u, i + 1);
        return Failure(c);
      }
      ValueNext(u, i);
      num := num * 58 + (p - 1);
    }
    assert u[..|encoded|] == u;
    result := Success(num);
  }

  method Decode(encoded: string) returns (result: Result<seq<nat>, char>)
    ensures result == Decoded(encoded)
  {
    var number := ReadNumber(encoded);
    if number.Failure? {
      return Failure(number.error);
    }
    var output := DecodeNumber(number.value);
    result := Success(output);
  }

  lemma TextDigitsAppend(text: string, c: char)
    requires Legal(text) && c in ALPHABET
    ensures Legal(text + [c]) && TextDigits(text + [c]) == TextDigits(text) + [Position(c) - 1]
  {
    var longer := text + [c];
    assert Legal(longer);
    forall n | 0 <= n < |longer|
      ensures TextDigits(longer)[n] == (TextDigits(text) + [Position(c) - 1])[n]
    {
      if n < |text| {
        assert longer[n] == text[n];
      }
    }
  }

  lemma ValueNext(text: string, i: nat)
    requires i < |text| && Legal(text[..i]) && text[i] in ALPHABET
    ensures Legal(text[..i + 1])
    ensures Value(TextDigits(text[..i + 1]), 58) == Value(TextDigits(text[..i]), 58) * 58 + (Position(text[i]) - 1)
  {
    assert text[..i + 1] == text[..i] + [text[i]];
    TextDigitsAppend(text[..i], text[i]);
    ValueAppend(TextDigits(text[..i]), Position(text[i]) - 1, 58);
  }

  method DecodeNumber(number: nat) returns (output: seq<nat>)
    ensures output == Digits(number, 256)
  {
    var num := number;
    output := [];
    while num > 0
      invariant Digits(num, 256) + output == Digits(number, 256)
      decreases num
    {
      var p := num % 256;
      output := [p] + output;
      num := (num - p) / 256;
    }
  }

  lemma FirstIllegalNext(text: string, i: nat)
    requires i < |text| && FirstIllegal(text[..i]).None?
    ensures FirstIllegal(text[..i + 1]) == if text[i] in ALPHABET then None else Some(text[i])
    ensures Legal(text[..i + 1]) <==> text[i] in ALPHABET
  {
    assert text[..i + 1][..i] == text[..i];
    FirstIllegalIsExact(text[..i]);
    FirstIllegalIsExact(text[..i + 1]);
  }

  lemma {:induction false} FirstIllegalStays(text: string, n: nat)
    requires n <= |text| && FirstIllegal(text[..n]).Some?
    ensures FirstIllegal(text) == FirstIllegal(text[..n])
    decreases |text|
  {
    if n < |text| {
      assert text[..|text| - 1][..n] == text[..n];
      FirstIllegalStays(text[..|text| - 1], n);
    } else {
      assert text[..n] == text;
    }
  }

  ghost function Encoded(input: seq<nat>): string
    requires ValidDigits(input, 256)
  {
    Text(Zeros(LeadingZeros(input)) + Digits(Value(input, 256), 58))
  }

  method Encode(input: seq<nat>) returns (output: string)
    requires ValidDigits(input, 256)
    ensures output == Encoded(input)
  {
    var num: nat := 0;
    for i := 0 to |input|
      invariant num == Value(input[..i], 256)
    {
      assert input[..i + 1] == input[..i] + [input[i]];
      ValueAppend(input[..i], input[i], 256);
      num := num * 256 + input[i];
    }
    assert input[..|input|] == input;
    output := EncodeNumber(num);
    ghost var digits := Digits(num, 58);
    var i := 0;
    while i < |input| && input[i] == 0
      invariant 0 <= i <= |input|
      invariant LeadingZeros(input) == i + LeadingZeros(input[i..])
      invariant output == Text(Zeros(i) + digits)
    {
      assert input[i..][1..] == input[i + 1..];
      assert Zeros(i + 1) + digits == [0] + (Zeros(i) + digits);
      output := [Symbol(0)] + output;
      i := i + 1;
    }
  }

  /** The digit loop stops below 58 and writes the last digit only when it is not zero. */
  method EncodeNumber(number: nat) returns (output: string)
    ensures output == Text(Digits(number, 58))
  {
    var num := number;
    ghost var low: seq<nat> := [];
    output := "";
    while num >= 58
      invariant ValidDigits(low, 58) && output == Text(low)
      invariant Digits(num, 58) + low == Digits(number, 58)
      decreases num
    {
      var p := num % 58;
      output := [Symbol(p)] + output;
      low := [p] + low;
      num := (num - p) / 58;
    }
    if num > 0 {
      assert Digits(num / 58, 58) == [];
      output := [Symbol(num)] + output;
    }
  }

  /******* Round trips *******/

  lemma {:induction false} ValueIgnoresZeros(n: nat, ds: seq<nat>, base: nat)
    ensures Value(Zeros(n) + ds, base) == Value(ds, base)
    decreases |ds|, n
  {
    if ds == [] {
      assert Zeros(n) + ds == Zeros(n);
      if n > 0 {
        assert Zeros(n)[..n - 1] == Zeros(n - 1) + [];
        ValueIgnoresZeros(n - 1, [], base);
      }
    } else {
      var init, last := ds[..|ds| - 1], ds[|ds| - 1];
      assert Zeros(n) + ds == Zeros(n) + init + [last];
      ValueIgnoresZeros(n, init, base);
      ValueAppend(Zeros(n) + init, last, base);
    }
  }

  /** Decoding an encoding gives the bytes back without their leading zero bytes. */
  lemma DecodeOfEncode(b: seq<nat>)
    requires ValidDigits(b, 256)
    ensures Decoded(Encoded(b)) == Success(StripZeros(b))
  {
    var ds := Digits(Value(b, 256), 58);
    var all := Zeros(LeadingZeros(b)) + ds;
    DigitsOfText(all);
    LegalIsUnblanked(Text(all));
    FirstIllegalIsExact(Text(all));
    ValueIgnoresZeros(LeadingZeros(b), ds, 58);
    ValueOfDigits(Value(b, 256), 58);
    DigitsOfValue(b, 256);
  }

  /** The round trip is exact if and only if the bytes do not start with zero. */
  lemma RoundTripIsExactIff(b: seq<nat>)
    requires ValidDigits(b, 256)
    ensures Decoded(Encoded(b)) == Success(b) <==> b == [] || b[0] != 0
  {
    DecodeOfEncode(b);
  }

  /** For every legal text, encoding its decoding gives the text back without its leading `1`s. */
  lemma EncodeOfDecode(text: string)
    requires Legal(text)
    ensures Decoded(text).Success? && ValidDigits(Decoded(text).value, 256)
    ensures Encoded(Decoded(text).value) == StripOnes(text)
  {
    LegalIsUnblanked(text);
    FirstIllegalIsExact(text);
    var ds := TextDigits(text);
    var bytes := Digits(Value(ds, 58), 256);
    assert LeadingZeros(bytes) == 0;
    ValueOfDigits(Value(ds, 58), 256);
    DigitsOfValue(ds, 58);
    assert Zeros(0) + StripZeros(ds) == StripZeros(ds);
    StripOnesIsStripZeros(text);
  }

  /** For every text the decoder accepts, blanks count as `1`s. */
  lemma EncodeOfAccepted(text: string)
    requires forall i :: 0 <= i < |text| ==> Accepted(text[i])
    ensures Decoded(text).Success? && ValidDigits(Decoded(text).value, 256)
    ensures Encoded(Decoded(text).value) == StripOnes(Unblanked(text))
  {
    BlankIsNoSymbol();
    LegalIsUnblanked(Unblanked(text));
    EncodeOfDecode(Unblanked(text));
  }

  function StripOnes(text: string): string
  {
    if text != [] && text[0] == Symbol(0) then StripOnes(text[1..]) else text
  }

  lemma {:induction false} StripOnesIsStripZeros(text: string)
    requires Legal(text)
    ensures ValidDigits(StripZeros(TextDigits(text)), 58)
    ensures Text(StripZeros(TextDigits(text))) == StripOnes(text)
  {
    TextOfDigits(text);
    if text != [] {
      PositionOfSymbol(0);
      assert text[0] == Symbol(0) <==> TextDigits(text)[0] == 0;
      if text[0] == Symbol(0) {
        assert TextDigits(text)[1..] == TextDigits(text[1..]);
        StripOnesIsStripZeros(text[1..]);
      }
    }
  }

  /** The decoding rule of the base58 draft: each leading `1` is a zero byte. */
  ghost function StandardDecoded(text: string): seq<nat>
    requires Legal(text)
  {
    Zeros(LeadingZeros(TextDigits(text))) + Digits(Value(TextDigits(text), 58), 256)
  }

  lemma {:induction false} LeadingZerosPrefix(n: nat, ds: seq<nat>)
    requires ds != [] ==> ds[0] != 0
    ensures LeadingZeros(Zeros(n) + ds) == n
  {
    if n > 0 {
      assert (Zeros(n) + ds)[1..] == Zeros(n - 1) + ds;
      LeadingZerosPrefix(n - 1, ds);
    } else {
      assert Zeros(0) + ds == ds;
    }
  }

  /** The encoder follows the draft: the standard decoder inverts it on all byte strings. */
  lemma StandardDecodeOfEncode(b: seq<nat>)
    requires ValidDigits(b, 256)
    ensures Legal(Encoded(b)) && StandardDecoded(Encoded(b)) == b
  {
    var ds := Digits(Value(b, 256), 58);
    DigitsOfText(Zeros(LeadingZeros(b)) + ds);
    LeadingZerosPrefix(LeadingZeros(b), ds);
    ValueIgnoresZeros(LeadingZeros(b), ds, 58);
    ValueOfDigits(Value(b, 256), 58);
    DigitsOfValue(b, 256);
    ZerosThenRest(b);
  }

  lemma EncodeIsInjective(a: seq<nat>, b: seq<nat>)
    requires ValidDigits(a, 256) && ValidDigits(b, 256)
    requires Encoded(a) == Encoded(b)
    ensures a == b
  {
    StandardDecodeOfEncode(a);
    StandardDecodeOfEncode(b);
  }

  lemma TwoDigits(high: nat, low: nat)
    requires 0 < high < 58 && low < 58
    ensures Digits(high * 58 + low, 58) == [high, low]
  {
    assert Digits(high, 58) == Digits(high / 58, 58) + [high % 58];
  }

  lemma ValueOfBytes(b: nat, c: nat)
    ensures Value([b], 256) == b && Value([b, c], 256) == b * 256 + c
  {
    assert [b][..0] == [] && [b, c][..1] == [b];
  }

  lemma TextOfTwo(a: nat, b: nat)
    requires a < 58 && b < 58
    ensures Text([a, b]) == [Symbol(a), Symbol(b)] && Text([0, a, b]) == [Symbol(0), Symbol(a), Symbol(b)]
  {
  }

  lemma FewSymbols()
    ensures Symbol(0) == '1' && Symbol(1) == '2' && Symbol(4) == '5' && Symbol(24) == 'R' && Symbol(39) == 'g'
  {
    AlphabetSize();
  }

  /** The alphabet, the order of the digits, and the order of the bytes, on three texts. */
  lemma KnownTexts()
    ensures Encoded([97]) == "2g" && Encoded([1, 0]) == "5R" && Encoded([0, 97]) == "12g"
  {
    FewSymbols();
    OneByteText(97, 1, 39);
    TwoByteText();
  }

  lemma OneByteText(b: nat, high: nat, low: nat)
    requires 0 < high < 58 && low < 58 && b == high * 58 + low && b < 256
    ensures Encoded([b]) == [Symbol(high), Symbol(low)] && Encoded([0, b]) == [Symbol(0), Symbol(high), Symbol(low)]
  {
    TwoDigits(high, low);
    ValueOfBytes(b, 0);
    ValueOfBytes(0, b);
    TextOfTwo(high, low);
    assert [0, b][1..] == [b];
    assert Zeros(0) + [high, low] == [high, low] && Zeros(1) + [high, low] == [0, high, low];
  }

  lemma TwoByteText()
    ensures Encoded([1, 0]) == [Symbol(4), Symbol(24)]
  {
    TwoDigits(4, 24);
    ValueOfBytes(1, 0);
    TextOfTwo(4, 24);
    assert Zeros(0) + [4, 24] == [4, 24];
  }
}
