/** The parts of Go's `strings` package the services use, on ASCII text. */
module Strings {

  predicate IsSpace(c: char) {
    c == ' ' || '\t' <= c <= '\r'
  }

  predicate IsDigit(c: char) {
    '0' <= c <= '9'
  }

  predicate IsTrimmed(s: string) {
    s != "" ==> !IsSpace(s[0]) && !IsSpace(s[|s| - 1])
  }

  function TrimLeft(s: string): (r: string)
    ensures r != "" ==> !IsSpace(r[0])
    ensures |r| <= |s|
  {
    if s != "" && IsSpace(s[0]) then TrimLeft(s[1..]) else s
  }

  function TrimRight(s: string): (r: string)
    ensures |r| <= |s|
    ensures r != "" ==> !IsSpace(r[|r| - 1]) && r[0] == s[0]
  {
    if s != "" && IsSpace(s[|s| - 1]) then TrimRight(s[..|s| - 1]) else s
  }

  function TrimSpace(s: string): (r: string)
    ensures IsTrimmed(r)
    ensures |r| <= |s|
  {
    TrimRight(TrimLeft(s))
  }

  /** Trimming is the identity exactly on text without outer white space. */
  lemma TrimSpaceFixed(s: string)
    ensures TrimSpace(s) == s <==> IsTrimmed(s)
  {}

  ghost predicate BlankOutside(raw: string, i: nat, j: nat) {
    forall x | 0 <= x < |raw| && !(i <= x < j) :: IsSpace(raw[x])
  }

  /** `s` with white space around it, or not, is `raw`. */
  ghost predicate Surrounded(raw: string, s: string) {
    exists i: nat, j: nat :: i <= j <= |raw| && raw[i..j] == s && BlankOutside(raw, i, j)
  }

  /** Trimming finds the one text without outer white space that `raw` surrounds. */
  lemma TrimSpaceIff(raw: string, s: string)
    ensures TrimSpace(raw) == s <==> IsTrimmed(s) && Surrounded(raw, s)
  {
    var i := TrimLeftCuts(raw);
    var j := TrimRightCuts(raw[i..]);
    assert raw[i..][..j] == raw[i..i + j];
    assert forall x | i + j <= x < |raw| :: raw[x] == raw[i..][x - i];
    assert BlankOutside(raw, i, i + j);
    assert Surrounded(raw, TrimSpace(raw));
    if IsTrimmed(s) && Surrounded(raw, s) {
      TrimmedOnce(raw, s, TrimSpace(raw));
    }
  }

  lemma {:induction false} TrimLeftCuts(s: string)
    returns (i: nat)
    ensures i <= |s| && TrimLeft(s) == s[i..] && forall x | 0 <= x < i :: IsSpace(s[x])
  {
    if s != "" && IsSpace(s[0]) {
      i := TrimLeftCuts(s[1..]);
      assert forall x | 1 <= x < i + 1 :: s[x] == s[1..][x - 1];
      i := i + 1;
    } else {
      i := 0;
    }
  }

  lemma {:induction false} TrimRightCuts(s: string)
    returns (j: nat)
    ensures j <= |s| && TrimRight(s) == s[..j] && forall x | j <= x < |s| :: IsSpace(s[x])
  {
    if s != "" && IsSpace(s[|s| - 1]) {
      j := TrimRightCuts(s[..|s| - 1]);
      assert s[..|s| - 1][..j] == s[..j];
    } else {
      j := |s|;
    }
  }

  lemma TrimmedOnce(raw: string, s: string, t: string)
    requires IsTrimmed(s) && IsTrimmed(t) && Surrounded(raw, s) && Surrounded(raw, t)
    ensures s == t
  {
    var i: nat, j: nat :| i <= j <= |raw| && raw[i..j] == s && BlankOutside(raw, i, j);
    var k: nat, l: nat :| k <= l <= |raw| && raw[k..l] == t && BlankOutside(raw, k, l);
    if s != "" {
      assert !IsSpace(raw[i]) && !IsSpace(raw[j - 1]);
      assert k <= i && j <= l;
    }
    if t != "" {
      assert !IsSpace(raw[k]) && !IsSpace(raw[l - 1]);
      assert i <= k && l <= j;
    }
  }

  function LowerChar(c: char): char {
    if 'A' <= c <= 'Z' then (c as int + 32) as char else c
  }

  function UpperChar(c: char): char {
    if 'a' <= c <= 'z' then (c as int - 32) as char else c
  }

  /** Each case is undone by the other, and letters are all that has one. */
  lemma CaseRoundTrip(c: char)
    ensures 'A' <= c <= 'Z' <==> LowerChar(c) != c
    ensures 'a' <= c <= 'z' <==> UpperChar(c) != c
    ensures 'A' <= c <= 'Z' ==> UpperChar(LowerChar(c)) == c
    ensures 'a' <= c <= 'z' ==> LowerChar(UpperChar(c)) == c
  {}

  function ToLower(s: string): (r: string)
    ensures |r| == |s|
    ensures forall i :: 0 <= i < |s| ==> r[i] == LowerChar(s[i])
  {
    seq(|s|, i requires 0 <= i < |s| => LowerChar(s[i]))
  }

  function ToUpper(s: string): (r: string)
    ensures |r| == |s|
    ensures forall i :: 0 <= i < |s| ==> r[i] == UpperChar(s[i])
  {
    seq(|s|, i requires 0 <= i < |s| => UpperChar(s[i]))
  }

  lemma ToLowerIdempotent(s: string)
    ensures ToLower(ToLower(s)) == ToLower(s)
  {
    assert forall i :: 0 <= i < |s| ==> ToLower(ToLower(s))[i] == ToLower(s)[i];
  }

  lemma ToLowerTrimmed(s: string)
    requires IsTrimmed(s)
    ensures IsTrimmed(ToLower(s))
  {}

  /** Lexicographic order on code points, the order of `sort.Strings`. */
  predicate Less(a: string, b: string) {
    if b == "" then false
    else if a == "" then true
    else a[0] < b[0] || (a[0] == b[0] && Less(a[1..], b[1..]))
  }

  lemma {:induction false} LessTrichotomy(a: string, b: string)
    ensures Less(a, b) || a == b || Less(b, a)
    ensures !(Less(a, b) && Less(b, a))
    ensures !Less(a, a)
  {
    if a != "" {
      LessTrichotomy(a[1..], a[1..]);
      if b != "" {
        LessTrichotomy(a[1..], b[1..]);
        if a[0] == b[0] && a[1..] == b[1..] {
          assert a == [a[0]] + a[1..] && b == [b[0]] + b[1..];
        }
      }
    }
  }

  lemma {:induction false} LessTransitive(a: string, b: string, c: string)
    requires Less(a, b) && Less(b, c)
    ensures Less(a, c)
  {
    if a != "" && a[0] == b[0] && b[0] == c[0] {
      LessTransitive(a[1..], b[1..], c[1..]);
    }
  }
}
