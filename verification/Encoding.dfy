/** The library functions behind the credential text: splitting, decimal numbers and
    unpadded base64 (sections 3.2 and 4 of RFC 4648). */
module Encoding {
  import opened Types
  import opened Strings

  type Byte = x: int | 0 <= x < 256
  type Bytes = seq<Byte>
  type Sextet = x: int | 0 <= x < 64

  // strings.Split with a one-character separator.

  function Split(s: string, sep: char): (parts: seq<string>)
    ensures parts != []
  {
    if s == "" then [""]
    else
      var rest := Split(s[1..], sep);
      if s[0] == sep then [""] + rest else [[s[0]] + rest[0]] + rest[1..]
  }

  predicate Free(s: string, c: char) {
    forall i :: 0 <= i < |s| ==> s[i] != c
  }

  lemma {:induction false} SplitPart(part: string, sep: char, rest: string)
    requires Free(part, sep)
    ensures Split(part + [sep] + rest, sep) == [part] + Split(rest, sep)
  {
    var s := part + [sep] + rest;
    if part == "" {
      assert s == [sep] + rest && s[1..] == rest;
    } else {
      assert s[1..] == part[1..] + [sep] + rest;
      SplitPart(part[1..], sep, rest);
      assert [part[0]] + part[1..] == part;
    }
  }

  lemma {:induction false} SplitWhole(part: string, sep: char)
    requires Free(part, sep)
    ensures Split(part, sep) == [part]
  {
    if part != "" {
      SplitWhole(part[1..], sep);
      assert [part[0]] + part[1..] == part;
    }
  }

  /** `strings.Cut` at the first separator. */
  function Cut(s: string, sep: char): Option<(string, string)> {
    if s == "" then None
    else if s[0] == sep then Some(("", s[1..]))
    else match Cut(s[1..], sep)
      case None => None
      case Some((before, after)) => Some(([s[0]] + before, after))
  }

  // Decimal numbers.

  predicate IsNumeral(s: string) {
    s != "" && forall i :: 0 <= i < |s| ==> IsDigit(s[i])
  }

  function Decimal(n: nat): (s: string)
    ensures IsNumeral(s)
  {
    var digit := [('0' as int + n % 10) as char];
    if n < 10 then digit else Decimal(n / 10) + digit
  }

  function Value(s: string): nat
    requires forall i :: 0 <= i < |s| ==> IsDigit(s[i])
  {
    if s == "" then 0
    else
      assert IsDigit(s[|s| - 1]);
      Value(s[..|s| - 1]) * 10 + (s[|s| - 1] as int - '0' as int)
  }

  /** `strconv.ParseUint(s, 10, bits)`; the limit is the largest value of the type. */
  function ParseUint(s: string, limit: nat): Option<nat> {
    if IsNumeral(s) && Value(s) <= limit then Some(Value(s)) else None
  }

  lemma {:induction false} DecimalValue(n: nat)
    ensures Value(Decimal(n)) == n
  {
    var s := Decimal(n);
    if n >= 10 {
      DecimalValue(n / 10);
      assert s[..|s| - 1] == Decimal(n / 10);
    }
  }

  lemma {:induction false} DecimalLength(n: nat, digits: nat, bound: nat)
    requires digits > 0 && n < bound && bound <= Pow10(digits)
    ensures |Decimal(n)| <= digits
  {
    if n >= 10 {
      assert n / 10 < Pow10(digits - 1);
      DecimalLength(n / 10, digits - 1, Pow10(digits - 1));
    }
  }

  function Pow10(k: nat): nat {
    if k == 0 then 1 else 10 * Pow10(k - 1)
  }

  // Base64 without padding.

  function Symbol(x: Sextet): char {
    if x < 26 then ('A' as int + x) as char
    else if x < 52 then ('a' as int + x - 26) as char
    else if x < 62 then ('0' as int + x - 52) as char
    else if x == 62 then '+'
    else '/'
  }

  function SextetOf(c: char): Option<Sextet> {
    if 'A' <= c <= 'Z' then Some(c as int - 'A' as int)
    else if 'a' <= c <= 'z' then Some(c as int - 'a' as int + 26)
    else if '0' <= c <= '9' then Some(c as int - '0' as int + 52)
    else if c == '+' then Some(62)
    else if c == '/' then Some(63)
    else None
  }

  lemma SymbolSextet(x: Sextet)
    ensures SextetOf(Symbol(x)) == Some(x)
  {}

  // Three bytes are four sextets and back.

  function First(b0: Byte): Sextet { b0 / 4 }

  function Second(b0: Byte, b1: Byte): Sextet { b0 % 4 * 16 + b1 / 16 }

  function Third(b1: Byte, b2: Byte): Sextet { b1 % 16 * 4 + b2 / 64 }

  function Fourth(b2: Byte): Sextet { b2 % 64 }

  function Byte0(x0: Sextet, x1: Sextet): Byte { x0 * 4 + x1 / 16 }

  function Byte1(x1: Sextet, x2: Sextet): Byte { x1 % 16 * 16 + x2 / 4 }

  function Byte2(x2: Sextet, x3: Sextet): Byte { x2 % 4 * 64 + x3 }

  lemma Regroup(b0: Byte, b1: Byte, b2: Byte)
    ensures Byte0(First(b0), Second(b0, b1)) == b0
    ensures Byte1(Second(b0, b1), Third(b1, b2)) == b1
    ensures Byte2(Third(b1, b2), Fourth(b2)) == b2
  {}

  /** A final group of one or two bytes is filled with zero bits. */
  function Encode(b: Bytes): string
    decreases |b|
  {
    if b == [] then ""
    else if |b| == 1 then [Symbol(First(b[0])), Symbol(Second(b[0], 0))]
    else if |b| == 2 then [Symbol(First(b[0])), Symbol(Second(b[0], b[1])), Symbol(Third(b[1], 0))]
    else
      [Symbol(First(b[0])), Symbol(Second(b[0], b[1])), Symbol(Third(b[1], b[2])), Symbol(Fourth(b[2]))]
      + Encode(b[3..])
  }

  /** The decoder skips line breaks wherever they stand. */
  function WithoutLineBreaks(s: string): string {
    if s == "" then ""
    else if s[0] == '\n' || s[0] == '\r' then WithoutLineBreaks(s[1..])
    else [s[0]] + WithoutLineBreaks(s[1..])
  }

  /** Unused trailing bits are dropped, as in Go's non-strict encodings. */
  function DecodeSymbols(s: string): Option<Bytes> {
    if s == "" then Some([])
    else if |s| == 1 || SextetOf(s[0]).None? || SextetOf(s[1]).None? then None
    else
      var x0, x1 := SextetOf(s[0]).value, SextetOf(s[1]).value;
      var b0 := Byte0(x0, x1);
      if |s| == 2 then Some([b0])
      else if SextetOf(s[2]).None? then None
      else
        var x2 := SextetOf(s[2]).value;
        var b1 := Byte1(x1, x2);
        if |s| == 3 then Some([b0, b1])
        else if SextetOf(s[3]).None? then None
        else
          var b2 := Byte2(x2, SextetOf(s[3]).value);
          match DecodeSymbols(s[4..])
          case None => None
          case Some(rest) => Some([b0, b1, b2] + rest)
  }

  function Decode(s: string): Option<Bytes> {
    DecodeSymbols(WithoutLineBreaks(s))
  }

  predicate IsSymbol(c: char) {
    SextetOf(c).Some?
  }

  lemma {:induction false} EncodeShape(b: Bytes)
    ensures forall i :: 0 <= i < |Encode(b)| ==> IsSymbol(Encode(b)[i])
    ensures |Encode(b)| == (8 * |b| + 5) / 6
    decreases |b|
  {
    if |b| >= 3 {
      EncodeShape(b[3..]);
    }
  }

  lemma {:induction false} SymbolsKept(s: string)
    requires forall i :: 0 <= i < |s| ==> IsSymbol(s[i])
    ensures WithoutLineBreaks(s) == s
  {
    if s != "" {
      assert IsSymbol(s[0]);
      SymbolsKept(s[1..]);
      assert s == [s[0]] + s[1..];
    }
  }

  lemma {:induction false} DecodeSymbolsEncode(b: Bytes)
    ensures DecodeSymbols(Encode(b)) == Some(b)
    decreases |b|
  {
    hide Symbol, SextetOf, First, Second, Third, Fourth, Byte0, Byte1, Byte2;
    if b != [] {
      var b0 := b[0];
      var b1 := if |b| > 1 then b[1] else 0;
      var b2 := if |b| > 2 then b[2] else 0;
      SymbolSextet(First(b0));
      SymbolSextet(Second(b0, b1));
      SymbolSextet(Third(b1, b2));
      SymbolSextet(Fourth(b2));
      Regroup(b0, b1, b2);
      if |b| == 1 {
        assert b == [b0];
      } else if |b| == 2 {
        assert b == [b0, b1];
      } else {
        DecodeSymbolsEncode(b[3..]);
        assert Encode(b)[4..] == Encode(b[3..]);
        assert b == [b0, b1, b2] + b[3..];
      }
    }
  }

  lemma DecodeEncode(b: Bytes)
    ensures Decode(Encode(b)) == Some(b)
  {
    EncodeShape(b);
    SymbolsKept(Encode(b));
    DecodeSymbolsEncode(b);
  }
}
