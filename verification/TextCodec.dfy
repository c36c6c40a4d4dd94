/** Fingerprints as text: EncodeFingerprint and DecodeFingerprint of pkg/fpindex/client.go, and what they use of the
    strings and strconv packages. */
module TextCodec {
  import opened Results
  import opened Words

  // ---- Signed and unsigned words ----

  const WORD := 0x1_0000_0000

  /** int32(hash) */
  function Signed(h: uint32): (v: int)
    ensures -0x8000_0000 <= v < 0x8000_0000
  {
    if h as int < 0x8000_0000 then h as int else h as int - WORD
  }

  /** uint32(value) */
  function Unsigned(v: int): uint32
    requires -0x8000_0000 <= v < 0x8000_0000
  {
    if v >= 0 then v as uint32 else (v + WORD) as uint32
  }

  lemma UnsignedSigned(h: uint32)
    ensures Unsigned(Signed(h)) == h
    ensures Signed(h) == h as int || Signed(h) == h as int - 4_294_967_296
  {
  }

  // ---- Decimal numbers ----

  predicate IsDigit(c: char) { '0' <= c <= '9' }

  function Digit(d: nat): char
    requires d < 10
  {
    '0' + d as char
  }

  /** Decimal digits without leading zeros. */
  function Digits(n: nat): (s: string)
    ensures s != [] && forall i :: 0 <= i < |s| ==> IsDigit(s[i])
  {
    if n < 10 then [Digit(n)] else Digits(n / 10) + [Digit(n % 10)]
  }

  /** strconv.FormatInt(v, 10) */
  function FormatInt(v: int): string {
    if v < 0 then "-" + Digits(-v) else Digits(v)
  }

  function DigitValue(c: char): nat
    requires IsDigit(c)
  {
    c as int - '0' as int
  }

  function DigitsValue(s: string): nat
    requires forall i :: 0 <= i < |s| ==> IsDigit(s[i])
  {
    if s == [] then 0 else 10 * DigitsValue(s[..|s| - 1]) + DigitValue(s[|s| - 1])
  }

  /** Bad syntax and values out of range are not told apart. */
  datatype DecodeError = NotANumber

  predicate AllDigits(s: string) { s != "" && forall i :: 0 <= i < |s| ==> IsDigit(s[i]) }

  function WithoutSign(s: string): string {
    if s != "" && (s[0] == '+' || s[0] == '-') then s[1..] else s
  }

  /** strconv.ParseInt(s, 10, 32): an optional sign and at least one digit. */
  function ParseInt(s: string): (r: Result<int, DecodeError>)
    ensures r.Success? ==> -0x8000_0000 <= r.value < 0x8000_0000
  {
    if !AllDigits(WithoutSign(s)) then Failure(NotANumber)
    else
      var n: int := DigitsValue(WithoutSign(s));
      var v := if s[0] == '-' then -n else n;
      if -0x8000_0000 <= v < 0x8000_0000 then Success(v) else Failure(NotANumber)
  }

  /** Accepted is an optional sign and at least one digit, if the number fits 32 bits with a sign. */
  lemma ParseMeaning(s: string, v: int)
    ensures ParseInt(s) == Success(v) <==>
            && -2_147_483_648 <= v <= 2_147_483_647
            && var digits := if s != "" && (s[0] == '+' || s[0] == '-') then s[1..] else s;
               digits != "" && (forall i :: 0 <= i < |digits| ==> '0' <= digits[i] <= '9') &&
               DigitsValue(digits) == if s[0] == '-' then -v else v
  {
    hide DigitsValue;
    var digits := WithoutSign(s);
    assert AllDigits(digits) <==> digits != "" && forall i :: 0 <= i < |digits| ==> '0' <= digits[i] <= '9';
  }

  lemma {:induction false} DigitsBack(n: nat)
    ensures DigitsValue(Digits(n)) == n
    decreases n
  {
    if n >= 10 {
      DigitsBack(n / 10);
      assert Digits(n)[..|Digits(n)| - 1] == Digits(n / 10);
    } else {
      assert Digits(n)[..0] == [];
    }
  }

  lemma ParseFormatted(v: int)
    requires -0x8000_0000 <= v < 0x8000_0000
    ensures ParseInt(FormatInt(v)) == Success(v)
  {
    hide Digits, DigitsValue;
    if v < 0 {
      DigitsBack(-v);
      assert FormatInt(v)[1..] == Digits(-v);
    } else {
      DigitsBack(v);
      assert IsDigit(Digits(v)[0]);
    }
  }

  function Power10(n: nat): nat {
    if n == 0 then 1 else 10 * Power10(n - 1)
  }

  /** A digit in front counts by its place. */
  lemma {:induction false} LeadingDigit(c: char, s: string)
    requires IsDigit(c) && forall i :: 0 <= i < |s| ==> IsDigit(s[i])
    ensures DigitsValue([c] + s) == (c as int - '0' as int) * Power10(|s|) + DigitsValue(s)
    decreases |s|
  {
    hide Power10;
    PowersOfTen(|s|);
    if s == [] {
      assert ([c] + s)[..0] == [];
    } else {
      var n := |s| - 1;
      assert ([c] + s)[..|s|] == [c] + s[..n];
      LeadingDigit(c, s[..n]);
      TenTimes(c as int - '0' as int, Power10(n), DigitsValue(s[..n]));
    }
  }

  lemma PowersOfTen(n: nat)
    ensures Power10(n) == if n == 0 then 1 else 10 * Power10(n - 1)
  {
  }

  lemma TenTimes(digit: int, power: int, rest: int)
    ensures 10 * (digit * power + rest) == digit * (10 * power) + 10 * rest
  {
  }

  lemma {:induction false} NoLeadingZero(n: nat)
    ensures Digits(n)[0] == '0' <==> n == 0
    decreases n
  {
    if n >= 10 {
      NoLeadingZero(n / 10);
    }
  }

  /** What is printed is the number in decimal: its sign if it is negative, and its digits without a leading zero. */
  lemma FormatMeaning(v: int)
    ensures var s := FormatInt(v);
            var digits := if v < 0 then s[1..] else s;
            && (v < 0 ==> s[0] == '-') && digits != [] && (forall i :: 0 <= i < |digits| ==> '0' <= digits[i] <= '9')
            && (digits[0] == '0' <==> v == 0) && DigitsValue(digits) == if v < 0 then -v else v
  {
    hide Digits, DigitsValue;
    var n := if v < 0 then -v else v;
    DigitsBack(n);
    NoLeadingZero(n);
    assert v < 0 ==> FormatInt(v)[1..] == Digits(n);
  }

  // ---- Joining and splitting ----

  /** The items with commas between them. */
  function Join(items: seq<string>): string {
    if items == [] then ""
    else if |items| == 1 then items[0]
    else items[0] + "," + Join(items[1..])
  }

  /** strings.Split(s, ","): the pieces between the commas, at least one. */
  function Split(s: string): (items: seq<string>)
    ensures items != []
  {
    if s == "" then [""]
    else
      var rest := Split(s[1..]);
      if s[0] == ',' then [""] + rest else [[s[0]] + rest[0]] + rest[1..]
  }

  predicate NoComma(s: string) { forall i :: 0 <= i < |s| ==> s[i] != ',' }

  lemma {:induction false} SplitPlain(s: string)
    requires NoComma(s)
    ensures Split(s) == [s]
    decreases |s|
  {
    if s != "" {
      SplitPlain(s[1..]);
      assert [s[0]] + s[1..] == s;
    }
  }

  lemma {:induction false} SplitFirst(s: string, t: string)
    requires NoComma(s)
    ensures Split(s + "," + t) == [s] + Split(t)
    decreases |s|
  {
    var all := s + "," + t;
    if s == "" {
      assert all[1..] == t;
    } else {
      SplitFirst(s[1..], t);
      assert all[1..] == s[1..] + "," + t;
      assert [s[0]] + s[1..] == s;
    }
  }

  lemma {:induction false} SplitJoined(items: seq<string>)
    requires items != [] && forall i :: 0 <= i < |items| ==> NoComma(items[i])
    ensures Split(Join(items)) == items
    decreases |items|
  {
    if |items| == 1 {
      SplitPlain(items[0]);
    } else {
      SplitJoined(items[1..]);
      SplitFirst(items[0], Join(items[1..]));
      assert [items[0]] + items[1..] == items;
    }
  }

  /** What is split gives the pieces back when it is joined, and no piece has a comma. */
  lemma {:induction false} JoinSplit(s: string)
    ensures Join(Split(s)) == s
    ensures forall i :: 0 <= i < |Split(s)| ==> NoComma(Split(s)[i])
    decreases |s|
  {
    if s != "" {
      JoinSplit(s[1..]);
      var rest := Split(s[1..]);
      assert s == [s[0]] + s[1..];
      if s[0] == ',' {
        assert ([""] + rest)[1..] == rest;
      } else {
        assert ([[s[0]] + rest[0]] + rest[1..])[1..] == rest[1..];
        if |rest| > 1 {
          assert [s[0]] + rest[0] + "," + Join(rest[1..]) == [s[0]] + (rest[0] + "," + Join(rest[1..]));
        }
      }
    }
  }

  // ---- The codec ----

  function Items(hashes: seq<uint32>): (items: seq<string>)
    ensures |items| == |hashes|
  {
    seq(|hashes|, i requires 0 <= i < |hashes| => FormatInt(Signed(hashes[i])))
  }

  function Encoded(hashes: seq<uint32>, braces: bool): string {
    if braces then "{" + Join(Items(hashes)) + "}" else Join(Items(hashes))
  }

  lemma {:induction false} JoinMore(items: seq<string>, item: string)
    ensures Join(items + [item]) == if items == [] then item else Join(items) + "," + item
    decreases |items|
  {
    if items != [] {
      assert (items + [item])[1..] == items[1..] + [item];
      JoinMore(items[1..], item);
      assert (items + [item])[0] == items[0];
      if |items| > 1 {
        assert items[0] + "," + (Join(items[1..]) + "," + item) == items[0] + "," + Join(items[1..]) + "," + item;
      }
    }
  }

  method EncodeFingerprint(hashes: seq<uint32>, braces: bool) returns (s: string)
    ensures s == Encoded(hashes, braces)
  {
    hide FormatInt, Signed, Join;
    s := "";
    if braces {
      s := s + "{";
    }
    ghost var prefix := s;
    var items := Items(hashes);
    assert Join(items[..0]) == "" by {
      EmptyJoin();
    }
    for i := 0 to |hashes|
      invariant s == prefix + Join(items[..i])
    {
      assert items[..i + 1] == items[..i] + [items[i]];
      JoinMore(items[..i], items[i]);
      ghost var before := s;
      if i > 0 {
        s := s + ",";
      } else {
        EmptyJoin();
      }
      s := s + FormatInt(Signed(hashes[i]));
      assert s == prefix + Join(items[..i + 1]);
    }
    assert items[..|hashes|] == items;
    if braces {
      s := s + "}";
    }
  }

  lemma EmptyJoin()
    ensures Join([]) == ""
  {
  }

  // ---- Decoding ----

  predicate Brace(c: char) { c == '{' || c == '}' }

  function TrimLeft(s: string): string {
    if s != "" && Brace(s[0]) then TrimLeft(s[1..]) else s
  }

  function TrimRight(s: string): string {
    if s != "" && Brace(s[|s| - 1]) then TrimRight(s[..|s| - 1]) else s
  }

  /** Removes all braces at both ends, if there is one of each kind outside. */
  function Unbraced(s: string): string {
    if s != "" && s[0] == '{' && s[|s| - 1] == '}' then TrimRight(TrimLeft(s)) else s
  }

  lemma {:induction false} TrimmedLeft(s: string) returns (n: nat)
    ensures n <= |s| && TrimLeft(s) == s[n..] && (forall i :: 0 <= i < n ==> Brace(s[i])) && (n < |s| ==> !Brace(s[n]))
    decreases |s|
  {
    n := 0;
    if s != "" && Brace(s[0]) {
      n := TrimmedLeft(s[1..]);
      assert s[1..][n..] == s[n + 1..];
      assert forall i :: 0 < i < n + 1 ==> s[i] == s[1..][i - 1];
      n := n + 1;
    }
  }

  lemma {:induction false} TrimmedRight(s: string) returns (n: nat)
    ensures n <= |s| && TrimRight(s) == s[..n] && (forall i :: n <= i < |s| ==> Brace(s[i])) && (n > 0 ==> !Brace(s[n - 1]))
    decreases |s|
  {
    n := |s|;
    if s != "" && Brace(s[|s| - 1]) {
      n := TrimmedRight(s[..|s| - 1]);
      assert s[..|s| - 1][..n] == s[..n];
    } else {
      assert s[..|s|] == s;
    }
  }

  /** All braces at both ends go, but only from a text that starts with an opening one and ends with a closing one. */
  lemma UnbracedMeaning(s: string) returns (m: nat, n: nat)
    ensures m <= n <= |s| && Unbraced(s) == s[m..n]
    ensures s == "" || s[0] != '{' || s[|s| - 1] != '}' ==> m == 0 && n == |s|
    ensures s != "" && s[0] == '{' && s[|s| - 1] == '}' ==>
              && (forall i :: 0 <= i < m || n <= i < |s| ==> s[i] == '{' || s[i] == '}')
              && (m < n ==> s[m] != '{' && s[m] != '}' && s[n - 1] != '{' && s[n - 1] != '}')
  {
    m, n := 0, |s|;
    if s != "" && s[0] == '{' && s[|s| - 1] == '}' {
      m := TrimmedLeft(s);
      var t := s[m..];
      var k := TrimmedRight(t);
      n := m + k;
      assert t[..k] == s[m..n];
      assert forall i :: n <= i < |s| ==> s[i] == t[i - m];
    }
  }

  function ParseItems(items: seq<string>): Result<seq<uint32>, DecodeError> {
    if items == [] then Success([])
    else
      match ParseInt(items[0])
      case Failure(e) => Failure(e)
      case Success(v) =>
        match ParseItems(items[1..])
        case Failure(e) => Failure(e)
        case Success(rest) => Success([Unsigned(v)] + rest)
  }

  function Decoded(s: string): Result<seq<uint32>, DecodeError> {
    ParseItems(Split(Unbraced(s)))
  }

  /** A result with `hashes` in front. */
  function Preceded(hashes: seq<uint32>, r: Result<seq<uint32>, DecodeError>): Result<seq<uint32>, DecodeError> {
    match r
    case Failure(e) => Failure(e)
    case Success(rest) => Success(hashes + rest)
  }

  lemma PrecededByNothing(r: Result<seq<uint32>, DecodeError>)
    ensures Preceded([], r) == r
  {
    match r
    case Failure(_) =>
    case Success(rest) => assert [] + rest == rest;
  }

  lemma ParseNext(hashes: seq<uint32>, items: seq<string>, i: nat)
    requires i < |items|
    ensures match ParseInt(items[i])
            case Failure(e) => Preceded(hashes, ParseItems(items[i..])) == Failure(e)
            case Success(v) => Preceded(hashes, ParseItems(items[i..])) == Preceded(hashes + [Unsigned(v)], ParseItems(items[i + 1..]))
  {
    hide ParseInt, Unsigned;
    assert items[i..][1..] == items[i + 1..];
    match ParseInt(items[i])
    case Failure(_) =>
    case Success(v) =>
      match ParseItems(items[i + 1..])
      case Failure(_) =>
      case Success(rest) => assert hashes + ([Unsigned(v)] + rest) == hashes + [Unsigned(v)] + rest;
  }

  method DecodeFingerprint(encoded: string) returns (r: Result<seq<uint32>, DecodeError>)
    ensures r == Decoded(encoded)
  {
    hide ParseInt, Unsigned, Unbraced, Split;
    var items := Split(Unbraced(encoded));
    var hashes := new uint32[|items|];
    assert items[0..] == items && hashes[..0] == [];
    PrecededByNothing(ParseItems(items));
    for i := 0 to |items|
      invariant ParseItems(items) == Preceded(hashes[..i], ParseItems(items[i..]))
    {
      ParseNext(hashes[..i], items, i);
      var value := ParseInt(items[i]);
      if value.Failure? {
        return Failure(value.error);
      }
      ghost var before := hashes[..i];
      hashes[i] := Unsigned(value.value);
      assert hashes[..i + 1] == before + [Unsigned(value.value)];
    }
    assert items[|items|..] == [] && hashes[..|items|] + [] == hashes[..];
    r := Success(hashes[..]);
  }

  // ---- The round trip ----

  predicate Plain(s: string) { forall i :: 0 <= i < |s| ==> !Brace(s[i]) }

  lemma ItemsPlain(h: uint32)
    ensures var s := FormatInt(Signed(h)); s != "" && NoComma(s) && Plain(s)
  {
    hide Digits, Signed;
  }

  lemma {:induction false} JoinPlain(items: seq<string>)
    requires items != [] && forall i :: 0 <= i < |items| ==> items[i] != "" && Plain(items[i])
    ensures Join(items) != "" && Plain(Join(items))
    decreases |items|
  {
    if |items| > 1 {
      JoinPlain(items[1..]);
    }
  }

  lemma BracesOff(j: string)
    requires j != "" && Plain(j)
    ensures Unbraced("{" + j + "}") == j && Unbraced(j) == j
  {
    var s := "{" + j + "}";
    assert Brace(s[0]) && s[1..] == j + "}";
    assert TrimLeft(s) == TrimLeft(j + "}");
    assert !Brace((j + "}")[0]);
    assert TrimLeft(s) == j + "}";
    var t := j + "}";
    assert Brace(t[|t| - 1]) && t[..|t| - 1] == j;
    assert TrimRight(t) == TrimRight(j);
    assert !Brace(j[|j| - 1]);
  }

  lemma {:induction false} ParseFormattedItems(hashes: seq<uint32>)
    ensures ParseItems(Items(hashes)) == Success(hashes)
    decreases |hashes|
  {
    hide FormatInt, ParseInt, Signed, Unsigned;
    if hashes != [] {
      ParseFormatted(Signed(hashes[0]));
      UnsignedSigned(hashes[0]);
      ParseFormattedItems(hashes[1..]);
      assert Items(hashes)[1..] == Items(hashes[1..]);
      assert [hashes[0]] + hashes[1..] == hashes;
    }
  }

  /** Decoding gives back what was encoded, with or without braces. */
  lemma RoundTrip(hashes: seq<uint32>, braces: bool)
    requires hashes != []
    ensures Decoded(Encoded(hashes, braces)) == Success(hashes)
  {
    hide FormatInt, Signed, Unbraced, Split;
    var items := Items(hashes);
    forall i | 0 <= i < |items|
      ensures items[i] != "" && NoComma(items[i]) && Plain(items[i])
    {
      ItemsPlain(hashes[i]);
    }
    JoinPlain(items);
    BracesOff(Join(items));
    SplitJoined(items);
    ParseFormattedItems(hashes);
  }

  lemma EmptyFails(braces: bool)
    ensures Decoded(Encoded([], braces)).Failure?
  {
    assert Items([]) == [];
    if braces {
      assert "{" + "" + "}" == "{}";
      assert "{}"[1..] == "}" && "}"[1..] == "";
      assert TrimLeft("{}") == TrimLeft("}") == TrimLeft("") == "";
      assert Unbraced("{}") == "";
    }
    assert Split("") == [""];
    assert ParseInt("").Failure?;
  }

  /** The codec gives back exactly the lists that are not empty. */
  lemma RoundTripIff(hashes: seq<uint32>, braces: bool)
    ensures Decoded(Encoded(hashes, braces)) == Success(hashes) <==> hashes != []
  {
    hide Decoded, Encoded;
    if hashes == [] {
      EmptyFails(braces);
    } else {
      RoundTrip(hashes, braces);
    }
  }

  /** Four numbers, with and without braces. */
  lemma FourNumbers()
    ensures Encoded([0xffff_ffff, 1, 2, 3], false) == "-1,1,2,3"
    ensures Encoded([0xffff_ffff, 1, 2, 3], true) == "{-1,1,2,3}"
    ensures Decoded("-1,1,2,3") == Decoded("{-1,1,2,3}") == Success([0xffff_ffff, 1, 2, 3])
  {
    hide Decoded, Join, FormatInt, Signed;
    var hashes: seq<uint32> := [0xffff_ffff, 1, 2, 3];
    RoundTrip(hashes, false);
    RoundTrip(hashes, true);
    FourItems();
    assert Items(hashes) == ["-1", "1", "2", "3"];
    JoinFour("-1", "1", "2", "3");
    assert "-1" + "," + "1" + "," + "2" + "," + "3" == "-1,1,2,3";
  }

  lemma FourItems()
    ensures FormatInt(Signed(0xffff_ffff)) == "-1" && FormatInt(Signed(1)) == "1" && FormatInt(Signed(2)) == "2" && FormatInt(Signed(3)) == "3"
  {
    assert Digits(1) == "1" && Digits(2) == "2" && Digits(3) == "3";
    assert Signed(0xffff_ffff) == -1;
    assert "-" + "1" == "-1";
  }

  lemma JoinFour(a: string, b: string, c: string, d: string)
    ensures Join([a, b, c, d]) == a + "," + b + "," + c + "," + d
  {
    hide Join;
    EmptyJoin();
    JoinMore([], a);
    JoinMore([a], b);
    JoinMore([a, b], c);
    JoinMore([a, b, c], d);
    assert [] + [a] == [a] && [a] + [b] == [a, b] && [a, b] + [c] == [a, b, c] && [a, b, c] + [d] == [a, b, c, d];
  }

  // ---- What decoding accepts ----

  /** Whatever is accepted can be printed and read again. */
  lemma DecodedIsNotEmpty(s: string)
    ensures Decoded(s).Success? ==> Decoded(s).value != []
  {
    hide ParseInt, Split, Unbraced;
  }

  lemma Reencode(s: string, braces: bool)
    requires Decoded(s).Success?
    ensures Decoded(Encoded(Decoded(s).value, braces)) == Decoded(s)
  {
    hide Decoded, Encoded;
    DecodedIsNotEmpty(s);
    RoundTrip(Decoded(s).value, braces);
  }
}
