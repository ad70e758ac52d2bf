/** Login identifiers: the Go scanners of `pkg/identity/domain/types.go`, the CHECK
    constraints of the user table, and the language they share.

    `net/mail.ParseAddress` is replaced by an ASCII addr-spec predicate (section
    3.4.1 of RFC 5322, without quoted local parts, which the services refuse because
    the parsed address differs from the text). */
module Identifiers {
  import opened Types
  import opened Strings

  const MAX_USERNAME_LENGTH := 64
  const MAX_PHONE_LENGTH := 16
  const MAX_EMAIL_LENGTH := 254
  const MAX_LOGIN_IDENTIFIER_LENGTH := 254

  predicate IsLower(c: char) { 'a' <= c <= 'z' }

  predicate IsUpper(c: char) { 'A' <= c <= 'Z' }

  predicate IsLowerAlnum(c: char) { IsLower(c) || IsDigit(c) }

  predicate IsUsernameChar(c: char) { IsLowerAlnum(c) || c == '-' || c == '_' }

  predicate IsUsername(s: string) {
    && 1 <= |s| <= MAX_USERNAME_LENGTH
    && IsLower(s[0])
    && IsLowerAlnum(s[|s| - 1])
    && forall i :: 0 <= i < |s| ==> IsUsernameChar(s[i])
  }

  predicate IsPhone(s: string) {
    && 8 <= |s| <= MAX_PHONE_LENGTH
    && s[0] == '+'
    && '1' <= s[1] <= '9'
    && forall i :: 2 <= i < |s| ==> IsDigit(s[i])
  }

  predicate IsAtext(c: char) {
    || IsLower(c) || IsUpper(c) || IsDigit(c)
    || c == '!' || '#' <= c <= '\'' || c == '*' || c == '+' || c == '-'
    || c == '/' || c == '=' || c == '?' || '^' <= c <= '`' || '{' <= c <= '~'
  }

  predicate IsDtext(c: char) {
    33 as char <= c <= 90 as char || 94 as char <= c <= 126 as char
  }

  predicate IsDotAtom(s: string) {
    && s != ""
    && (forall i :: 0 <= i < |s| ==> IsAtext(s[i]) || s[i] == '.')
    && s[0] != '.' && s[|s| - 1] != '.'
    && forall i :: 0 <= i < |s| - 1 ==> s[i] != '.' || s[i + 1] != '.'
  }

  predicate IsDomainLiteral(s: string) {
    && |s| >= 2 && s[0] == '[' && s[|s| - 1] == ']'
    && forall i :: 1 <= i < |s| - 1 ==> IsDtext(s[i])
  }

  predicate IsDomain(s: string) {
    IsDotAtom(s) || IsDomainLiteral(s)
  }

  predicate SplitsAt(s: string, k: int) {
    0 <= k < |s| && s[k] == '@' && IsDotAtom(s[..k]) && IsDomain(s[k + 1..])
  }

  predicate IsAddrSpec(s: string) {
    exists k :: 0 <= k < |s| && SplitsAt(s, k)
  }

  function Username(raw: string): Result<string> {
    var value := TrimSpace(raw);
    if IsUsername(value) then Ok(value) else Err(ErrInvalidUsername)
  }

  function PhoneNumber(raw: string): Result<string> {
    var value := TrimSpace(raw);
    if value == "" then Ok("")
    else if IsPhone(value) then Ok(value)
    else Err(ErrInvalidPhone)
  }

  function EmailAddress(raw: string): Result<string> {
    var value := TrimSpace(raw);
    if value == "" then Ok("")
    else if |value| > MAX_EMAIL_LENGTH || !IsAddrSpec(value) then Err(ErrInvalidEmail)
    else if !IsAddrSpec(ToLower(value)) then Err(ErrInvalidEmail)
    else Ok(ToLower(value))
  }

  /** `normalizeContactValue` of `contact.go`: the empty value is refused here. */
  function ContactValue(kind: Kind, raw: string): Result<string> {
    var normalized := if kind == Phone then PhoneNumber(raw) else EmailAddress(raw);
    if normalized == Ok("") then Err(if kind == Phone then ErrInvalidPhone else ErrInvalidEmail)
    else normalized
  }

  // The scanning loops.

  method NormalizeUsername(raw: string) returns (r: Result<string>)
    ensures r == Username(raw)
  {
    var value := TrimSpace(raw);
    if value == "" || |value| > MAX_USERNAME_LENGTH {
      return Err(ErrInvalidUsername);
    }
    if value[0] < 'a' || value[0] > 'z' {
      return Err(ErrInvalidUsername);
    }
    var last := value[|value| - 1];
    if (last < 'a' || last > 'z') && (last < '0' || last > '9') {
      return Err(ErrInvalidUsername);
    }
    for i := 1 to |value|
      invariant forall j :: 0 <= j < i ==> IsUsernameChar(value[j])
    {
      if !IsLower(value[i]) && !IsDigit(value[i]) && value[i] != '-' && value[i] != '_' {
        assert !IsUsernameChar(value[i]);
        return Err(ErrInvalidUsername);
      }
    }
    assert IsUsername(value);
    return Ok(value);
  }

  method NormalizePhone(raw: string) returns (r: Result<string>)
    ensures r == PhoneNumber(raw)
  {
    var value := TrimSpace(raw);
    if value == "" {
      return Ok("");
    }
    if |value| < 8 || |value| > MAX_PHONE_LENGTH || value[0] != '+' {
      return Err(ErrInvalidPhone);
    }
    if value[1] < '1' || value[1] > '9' {
      return Err(ErrInvalidPhone);
    }
    for i := 2 to |value|
      invariant forall j :: 2 <= j < i ==> IsDigit(value[j])
    {
      if value[i] < '0' || value[i] > '9' {
        return Err(ErrInvalidPhone);
      }
    }
    return Ok(value);
  }

  // The two CHECK constraints on the user table.

  /** Just enough of POSIX regular expressions for the constraint. */
  datatype Regex =
    | Class(accepts: char -> bool)
    | Cat(first: Regex, second: Regex)
    | Star(body: Regex)
    | Opt(body: Regex)

  ghost predicate Matches(r: Regex, s: string)
    decreases |s|, r
  {
    match r
    case Class(accepts) => |s| == 1 && accepts(s[0])
    case Cat(first, second) => exists k :: 0 <= k <= |s| && Matches(first, s[..k]) && Matches(second, s[k..])
    case Star(body) => s == "" || exists k :: 0 < k <= |s| && Matches(body, s[..k]) && Matches(r, s[k..])
    case Opt(body) => s == "" || Matches(body, s)
  }

  /** `^[a-z]([a-z0-9_-]*[a-z0-9])?$`; the anchors make it match the whole text. */
  function UsernameRegex(): Regex {
    Cat(Class(IsLower), Opt(Cat(Star(Class(IsUsernameChar)), Class(IsLowerAlnum))))
  }

  ghost predicate PostgresUsernameCheck(s: string) {
    Matches(UsernameRegex(), s) && 1 <= |s| <= 64
  }

  /** GLOB patterns: `*` and one-character sets. */
  datatype Glob = AnyRun | OneOf(accepts: char -> bool)

  ghost predicate GlobMatches(p: seq<Glob>, s: string)
    decreases |p|, |s|
  {
    if p == [] then s == ""
    else match p[0]
      case AnyRun => exists k :: 0 <= k <= |s| && GlobMatches(p[1..], s[k..])
      case OneOf(accepts) => s != "" && accepts(s[0]) && GlobMatches(p[1..], s[1..])
  }

  /** SQLite text functions stop at the first NUL character. */
  function SqliteText(s: string): (r: string)
    ensures r <= s
    ensures forall i :: 0 <= i < |r| ==> r[i] != 0 as char
    ensures r == s <==> (forall i :: 0 <= i < |s| ==> s[i] != 0 as char)
  {
    if s == "" || s[0] == 0 as char then ""
    else
      var rest := SqliteText(s[1..]);
      assert s == [s[0]] + s[1..];
      [s[0]] + rest
  }

  function NotUsernameChar(): char -> bool {
    c => !IsUsernameChar(c)
  }

  ghost predicate SqliteUsernameCheck(s: string) {
    var t := SqliteText(s);
    && 1 <= |t| <= 64
    && GlobMatches([OneOf(IsLower)], t[..1])
    && GlobMatches([OneOf(IsLowerAlnum)], t[|t| - 1..])
    && !GlobMatches([AnyRun, OneOf(NotUsernameChar()), AnyRun], t)
  }

  lemma MatchesClass(accepts: char -> bool, s: string)
    ensures Matches(Class(accepts), s) <==> |s| == 1 && accepts(s[0])
  {}

  lemma MatchesCat(first: Regex, second: Regex, s: string)
    ensures Matches(Cat(first, second), s)
       <==> exists k :: 0 <= k <= |s| && Matches(first, s[..k]) && Matches(second, s[k..])
  {}

  lemma MatchesOpt(body: Regex, s: string)
    ensures Matches(Opt(body), s) <==> s == "" || Matches(body, s)
  {}

  lemma {:induction false} StarOfClass(accepts: char -> bool, s: string)
    ensures Matches(Star(Class(accepts)), s) <==> forall i :: 0 <= i < |s| ==> accepts(s[i])
    decreases |s|
  {
    if s != "" {
      StarOfClass(accepts, s[1..]);
      if Matches(Star(Class(accepts)), s) {
        var k :| 0 < k <= |s| && Matches(Class(accepts), s[..k]) && Matches(Star(Class(accepts)), s[k..]);
        assert k == 1 && s[..1][0] == s[0];
        assert forall i :: 1 <= i < |s| ==> s[i] == s[1..][i - 1];
      }
      if forall i :: 0 <= i < |s| ==> accepts(s[i]) {
        assert Matches(Class(accepts), s[..1]) && Matches(Star(Class(accepts)), s[1..]);
      }
    }
  }

  /** The optional tail of the username pattern: username characters, then a
      letter or digit. */
  lemma UsernameTail(s: string)
    ensures Matches(Cat(Star(Class(IsUsernameChar)), Class(IsLowerAlnum)), s)
       <==> s != "" && IsLowerAlnum(s[|s| - 1]) && forall i :: 0 <= i < |s| ==> IsUsernameChar(s[i])
  {
    hide Matches;
    var star, last := Star(Class(IsUsernameChar)), Class(IsLowerAlnum);
    MatchesCat(star, last, s);
    if Matches(Cat(star, last), s) {
      var k :| 0 <= k <= |s| && Matches(star, s[..k]) && Matches(last, s[k..]);
      TailAt(s, k);
    }
    if s != "" {
      TailAt(s, |s| - 1);
    }
  }

  lemma TailAt(s: string, k: nat)
    requires k <= |s|
    ensures Matches(Star(Class(IsUsernameChar)), s[..k]) && Matches(Class(IsLowerAlnum), s[k..])
       <==> k == |s| - 1 && IsLowerAlnum(s[k]) && forall i :: 0 <= i < |s| ==> IsUsernameChar(s[i])
  {
    hide Matches;
    StarOfClass(IsUsernameChar, s[..k]);
    MatchesClass(IsLowerAlnum, s[k..]);
    assert forall i :: 0 <= i < k ==> s[i] == s[..k][i];
    assert k < |s| ==> s[k..][0] == s[k];
  }

  /** PostgreSQL's regular expression and length bound accept exactly what the Go
      scanner accepts. */
  lemma PostgresAgrees(s: string)
    ensures PostgresUsernameCheck(s) <==> IsUsername(s)
  {
    hide Matches;
    var tail := Cat(Star(Class(IsUsernameChar)), Class(IsLowerAlnum));
    MatchesCat(Class(IsLower), Opt(tail), s);
    if PostgresUsernameCheck(s) {
      var k :| 0 <= k <= |s| && Matches(Class(IsLower), s[..k]) && Matches(Opt(tail), s[k..]);
      MatchesClass(IsLower, s[..k]);
      HeadAndTail(s);
    }
    if IsUsername(s) {
      HeadAndTail(s);
    }
  }

  lemma HeadAndTail(s: string)
    requires s != ""
    ensures (Matches(Class(IsLower), s[..1])
             && Matches(Opt(Cat(Star(Class(IsUsernameChar)), Class(IsLowerAlnum))), s[1..]))
       <==> IsLower(s[0]) && IsLowerAlnum(s[|s| - 1]) && forall i :: 0 <= i < |s| ==> IsUsernameChar(s[i])
  {
    hide Matches;
    var rest := s[1..];
    MatchesClass(IsLower, s[..1]);
    MatchesOpt(Cat(Star(Class(IsUsernameChar)), Class(IsLowerAlnum)), rest);
    UsernameTail(rest);
    assert s[..1][0] == s[0];
    assert forall i :: 1 <= i < |s| ==> s[i] == rest[i - 1];
    assert |s| > 1 ==> rest[|rest| - 1] == s[|s| - 1];
  }

  lemma ContainsGlob(accepts: char -> bool, s: string)
    ensures GlobMatches([AnyRun, OneOf(accepts), AnyRun], s) <==> exists i :: 0 <= i < |s| && accepts(s[i])
  {
    var p := [AnyRun, OneOf(accepts), AnyRun];
    assert p[1..] == [OneOf(accepts), AnyRun] && p[1..][1..] == [AnyRun] && [AnyRun][1..] == [];
    if GlobMatches(p, s) {
      var k :| 0 <= k <= |s| && GlobMatches(p[1..], s[k..]);
      assert s[k..][0] == s[k];
    }
    if i :| 0 <= i < |s| && accepts(s[i]) {
      var rest := s[i..][1..];
      assert rest[|rest|..] == "" && GlobMatches([], rest[|rest|..]);
      assert GlobMatches([AnyRun], rest);
      assert GlobMatches(p[1..], s[i..]);
    }
  }

  /** SQLite's GLOB constraint accepts exactly what the Go scanner accepts of the
      text SQLite sees. */
  lemma SqliteAgrees(s: string)
    ensures SqliteUsernameCheck(s) <==> IsUsername(SqliteText(s))
  {
    var t := SqliteText(s);
    ContainsGlob(NotUsernameChar(), t);
    if t != "" {
      OneGlob(IsLower, t[..1]);
      OneGlob(IsLowerAlnum, t[|t| - 1..]);
    }
  }

  lemma OneGlob(accepts: char -> bool, s: string)
    requires |s| == 1
    ensures GlobMatches([OneOf(accepts)], s) <==> accepts(s[0])
  {
    assert [OneOf(accepts)][1..] == [];
  }

  /** The three definitions of a username agree: on every text for PostgreSQL, and
      for SQLite up to a NUL, which no normalized username contains. */
  lemma UsernameLanguagesAgree(s: string)
    ensures PostgresUsernameCheck(s) <==> Username(s) == Ok(s)
    ensures Username(s) == Ok(s) <==> SqliteUsernameCheck(s) && SqliteText(s) == s
  {
    UsernameFixed(s);
    PostgresAgrees(s);
    SqliteAgrees(s);
    assert IsUsername(s) ==> forall i :: 0 <= i < |s| ==> IsUsernameChar(s[i]);
  }

  lemma {:induction false} TextBeforeNul(s: string, rest: string)
    requires forall i :: 0 <= i < |s| ==> s[i] != 0 as char
    ensures SqliteText(s + [0 as char] + rest) == s
  {
    var t := s + [0 as char] + rest;
    if s != "" {
      TextBeforeNul(s[1..], rest);
      assert t[1..] == s[1..] + [0 as char] + rest;
    }
  }

  /** On its own SQLite's constraint is weaker: it does not see what follows a NUL. */
  lemma SqliteIgnoresTail(name: string, rest: string)
    requires IsUsername(name)
    ensures SqliteUsernameCheck(name + [0 as char] + rest) && !IsUsername(name + [0 as char] + rest)
  {
    var s := name + [0 as char] + rest;
    assert forall i :: 0 <= i < |name| ==> IsUsernameChar(name[i]);
    TextBeforeNul(name, rest);
    SqliteAgrees(s);
    assert s[|name|] == 0 as char && !IsUsernameChar(s[|name|]);
  }

  lemma UsernameFixed(s: string)
    ensures Username(s) == Ok(s) <==> IsUsername(s)
  {
    TrimSpaceFixed(s);
  }

  // Normalization.

  lemma AddrSpecLower(s: string)
    requires IsAddrSpec(s)
    ensures IsAddrSpec(ToLower(s))
  {
    hide SplitsAt;
    var k :| 0 <= k < |s| && SplitsAt(s, k);
    SplitLower(s, k);
  }

  lemma SplitLower(s: string, k: nat)
    requires k < |s| && SplitsAt(s, k)
    ensures SplitsAt(ToLower(s), k)
  {
    DotAtomLower(s[..k]);
    DomainLower(s[k + 1..]);
    hide IsDotAtom, IsDomain;
    assert ToLower(s)[..k] == ToLower(s[..k]);
    assert ToLower(s)[k + 1..] == ToLower(s[k + 1..]);
  }

  lemma DomainLower(s: string)
    requires IsDomain(s)
    ensures IsDomain(ToLower(s))
  {
    if IsDotAtom(s) {
      DotAtomLower(s);
    } else {
      assert forall i :: 1 <= i < |s| - 1 ==> IsDtext(s[i]);
    }
  }

  lemma DotAtomLower(s: string)
    requires IsDotAtom(s)
    ensures IsDotAtom(ToLower(s))
  {
    forall i | 0 <= i < |s|
      ensures ToLower(s)[i] == '.' <==> s[i] == '.'
      ensures IsAtext(ToLower(s)[i]) || ToLower(s)[i] == '.'
    {
      assert IsAtext(s[i]) || s[i] == '.';
    }
  }

  /** The second parse, of the lower-cased address, refuses nothing that the first
      accepted. */
  lemma EmailAcceptedIff(raw: string)
    ensures EmailAddress(raw).Ok? <==>
              TrimSpace(raw) == "" || (|TrimSpace(raw)| <= MAX_EMAIL_LENGTH && IsAddrSpec(TrimSpace(raw)))
    ensures EmailAddress(raw) == if EmailAddress(raw).Ok? then Ok(ToLower(TrimSpace(raw))) else Err(ErrInvalidEmail)
  {
    if IsAddrSpec(TrimSpace(raw)) {
      AddrSpecLower(TrimSpace(raw));
    }
  }

  lemma AddrSpecTrimmed(s: string)
    requires IsAddrSpec(s)
    ensures IsTrimmed(s) && '@' in s && s != "" && s[0] != '@'
  {
    var k :| 0 <= k < |s| && SplitsAt(s, k);
    assert IsAtext(s[..k][0]) && s[..k][0] == s[0];
    var domain := s[k + 1..];
    assert domain[|domain| - 1] == s[|s| - 1];
    if IsDotAtom(domain) {
      assert IsAtext(domain[|domain| - 1]);
    }
  }

  // Each normalizer is idempotent, and only white space normalizes to nothing.

  lemma NormalizedUsername(raw: string)
    requires Username(raw).Ok?
    ensures IsUsername(Username(raw).value)
    ensures Username(Username(raw).value) == Username(raw)
  {
    TrimSpaceFixed(TrimSpace(raw));
  }

  lemma NormalizedPhone(raw: string)
    requires PhoneNumber(raw).Ok?
    ensures PhoneNumber(PhoneNumber(raw).value) == PhoneNumber(raw)
    ensures PhoneNumber(raw) == Ok("") <==> TrimSpace(raw) == ""
  {
    TrimSpaceFixed(TrimSpace(raw));
  }

  lemma NormalizedEmail(raw: string)
    requires EmailAddress(raw).Ok?
    ensures EmailAddress(EmailAddress(raw).value) == EmailAddress(raw)
    ensures EmailAddress(raw) == Ok("") <==> TrimSpace(raw) == ""
  {
    var value := TrimSpace(raw);
    if value == "" {
      TrimSpaceFixed("");
    } else {
      var lower := ToLower(value);
      AddrSpecTrimmed(lower);
      TrimSpaceFixed(lower);
      ToLowerIdempotent(value);
    }
  }

  predicate IsEmail(s: string) {
    |s| <= MAX_EMAIL_LENGTH && IsAddrSpec(s) && ToLower(s) == s
  }

  /** The accepted values, described without the normalizers. */
  lemma NormalizedShapes(s: string)
    ensures PhoneNumber(s) == Ok(s) && s != "" <==> IsPhone(s)
    ensures EmailAddress(s) == Ok(s) && s != "" <==> IsEmail(s)
  {
    TrimSpaceFixed(s);
    if IsAddrSpec(s) {
      AddrSpecTrimmed(s);
    }
  }

  /** No text is normal for two kinds. */
  lemma KindsDisjoint(s: string)
    ensures !(IsUsername(s) && IsPhone(s))
    ensures !(IsUsername(s) && IsEmail(s))
    ensures !(IsPhone(s) && IsEmail(s))
  {
    if IsEmail(s) {
      AddrSpecTrimmed(s);
    }
    if IsUsername(s) {
      NoAtInUsername(s);
    }
    if IsPhone(s) {
      NoAtInPhone(s);
    }
  }

  // Login identifiers.

  datatype IdentifierKind = ByUsername | ByPhone | ByEmail

  datatype LoginIdentifier = LoginIdentifier(kind: IdentifierKind, value: string)

  function NormalizeLoginIdentifier(raw: string): Result<LoginIdentifier> {
    if |raw| > MAX_LOGIN_IDENTIFIER_LENGTH then Err(ErrInvalidIdentifier)
    else
      var value := TrimSpace(raw);
      if value == "" then Err(ErrInvalidIdentifier)
      else if '@' in value then
        match EmailAddress(value)
        case Ok(v) => Ok(LoginIdentifier(ByEmail, v))
        case Err(_) => Err(ErrInvalidIdentifier)
      else if value[0] == '+' then
        match PhoneNumber(value)
        case Ok(v) => Ok(LoginIdentifier(ByPhone, v))
        case Err(_) => Err(ErrInvalidIdentifier)
      else
        match Username(value)
        case Ok(v) => Ok(LoginIdentifier(ByUsername, v))
        case Err(_) => Err(ErrInvalidIdentifier)
  }

  predicate ValidateLoginIdentifier(id: LoginIdentifier) {
    && id.value != ""
    && match id.kind
       case ByUsername => Username(id.value) == Ok(id.value)
       case ByPhone => PhoneNumber(id.value) == Ok(id.value)
       case ByEmail => EmailAddress(id.value) == Ok(id.value)
  }

  /** A stored value names exactly its own identifier: no stored username, phone
      number or email address is read as another kind or another value. */
  lemma StoredValueResolvesToItself(id: LoginIdentifier)
    ensures ValidateLoginIdentifier(id) ==> NormalizeLoginIdentifier(id.value) == Ok(id)
  {
    if ValidateLoginIdentifier(id) {
      var s := id.value;
      match id.kind
      case ByEmail => EmailResolves(s);
      case ByPhone => PhoneResolves(s);
      case ByUsername => UsernameResolves(s);
    }
  }

  lemma UsernameResolves(s: string)
    requires Username(s) == Ok(s)
    ensures NormalizeLoginIdentifier(s) == Ok(LoginIdentifier(ByUsername, s))
  {
    TrimSpaceFixed(s);
    NoAtInUsername(s);
  }

  lemma NoAtInUsername(s: string)
    requires IsUsername(s)
    ensures '@' !in s
  {
    forall i | 0 <= i < |s|
      ensures s[i] != '@'
    {
      assert IsUsernameChar(s[i]);
    }
  }

  lemma PhoneResolves(s: string)
    requires PhoneNumber(s) == Ok(s) && s != ""
    ensures NormalizeLoginIdentifier(s) == Ok(LoginIdentifier(ByPhone, s))
  {
    TrimSpaceFixed(s);
    NoAtInPhone(s);
  }

  lemma NoAtInPhone(s: string)
    requires IsPhone(s)
    ensures '@' !in s
  {
    forall i | 2 <= i < |s|
      ensures s[i] != '@'
    {
      assert IsDigit(s[i]);
    }
  }

  lemma EmailResolves(s: string)
    requires EmailAddress(s) == Ok(s) && s != ""
    ensures NormalizeLoginIdentifier(s) == Ok(LoginIdentifier(ByEmail, s))
  {
    NormalizedShapes(s);
    AddrSpecTrimmed(s);
    TrimSpaceFixed(s);
  }

  /** `ValidateLoginIdentifier` accepts exactly the outputs of
      `NormalizeLoginIdentifier`. */
  lemma ValidIffProduced(id: LoginIdentifier)
    ensures ValidateLoginIdentifier(id) <==> exists raw :: NormalizeLoginIdentifier(raw) == Ok(id)
  {
    if ValidateLoginIdentifier(id) {
      StoredValueResolvesToItself(id);
    }
    if raw :| NormalizeLoginIdentifier(raw) == Ok(id) {
      ProducedIsValid(raw);
    }
  }

  lemma ProducedIsValid(raw: string)
    requires NormalizeLoginIdentifier(raw).Ok?
    ensures ValidateLoginIdentifier(NormalizeLoginIdentifier(raw).value)
  {
    var value := TrimSpace(raw);
    TrimSpaceFixed(value);
    if '@' in value {
      NormalizedEmail(value);
    } else if value[0] == '+' {
      NormalizedPhone(value);
    } else {
      NormalizedUsername(value);
    }
  }

  // What is accepted, without the normalizers.

  /** A username is read from exactly the texts that have it between white space. */
  lemma UsernameAcceptedIff(raw: string, name: string)
    ensures Username(raw) == Ok(name) <==> IsUsername(name) && Surrounded(raw, name)
    ensures Username(raw).Err? ==> Username(raw).error == ErrInvalidUsername
  {
    TrimSpaceIff(raw, name);
  }

  lemma PhoneAcceptedIff(raw: string, number: string)
    ensures PhoneNumber(raw) == Ok(number) <==> (IsPhone(number) || number == "") && Surrounded(raw, number)
    ensures PhoneNumber(raw).Err? ==> PhoneNumber(raw).error == ErrInvalidPhone
  {
    TrimSpaceIff(raw, number);
    if IsPhone(number) {
      var last := number[|number| - 1];
      assert IsDigit(last);
    }
  }

  /** The value of a contact: a phone number between white space, or an address between
      white space in lower case; never the empty text. */
  lemma ContactValueIff(kind: Kind, raw: string, value: string)
    ensures ContactValue(kind, raw) == Ok(value) <==>
              if kind == Phone then IsPhone(value) && Surrounded(raw, value)
              else value != "" && EmailAddress(raw) == Ok(value)
    ensures ContactValue(kind, raw).Err? ==>
              ContactValue(kind, raw).error == if kind == Phone then ErrInvalidPhone else ErrInvalidEmail
  {
    PhoneAcceptedIff(raw, value);
    hide IsAddrSpec;
  }

  /** A text that is not too long is read as exactly the kinds it is accepted for, and
      refused if it is accepted for none. */
  lemma LoginIdentifierIff(raw: string, id: LoginIdentifier)
    ensures NormalizeLoginIdentifier(raw) == Ok(id) <==>
              && |raw| <= MAX_LOGIN_IDENTIFIER_LENGTH && id.value != ""
              && match id.kind
                 case ByUsername => Username(raw) == Ok(id.value)
                 case ByPhone => PhoneNumber(raw) == Ok(id.value)
                 case ByEmail => EmailAddress(raw) == Ok(id.value)
    ensures NormalizeLoginIdentifier(raw).Err? ==> NormalizeLoginIdentifier(raw).error == ErrInvalidIdentifier
  {
    hide TrimSpace, Username, PhoneNumber, EmailAddress;
    var value := TrimSpace(raw);
    ReadAlike(raw);
    if value != "" {
      ShapesOfText(value);
    }
  }

  lemma ReadAlike(raw: string)
    ensures var value := TrimSpace(raw);
            && Username(raw) == Username(value) && PhoneNumber(raw) == PhoneNumber(value)
            && EmailAddress(raw) == EmailAddress(value)
            && (value == "" ==> EmailAddress(raw) == PhoneNumber(raw) == Ok("") && Username(raw).Err?)
            && (value != "" ==> EmailAddress(raw) != Ok("") && PhoneNumber(raw) != Ok("") && Username(raw) != Ok(""))
  {
    TrimSpaceFixed(TrimSpace(raw));
    hide TrimSpace, IsAddrSpec;
  }

  /** The first character and the `@` tell the kinds apart. */
  lemma ShapesOfText(value: string)
    requires IsTrimmed(value) && value != ""
    ensures Username(value).Ok? ==> '@' !in value && value[0] != '+'
    ensures PhoneNumber(value).Ok? ==> '@' !in value && value[0] == '+'
    ensures EmailAddress(value).Ok? ==> '@' in value
  {
    TrimSpaceFixed(value);
    hide TrimSpace;
    if IsUsername(value) {
      NoAtInUsername(value);
    }
    if IsPhone(value) {
      NoAtInPhone(value);
    }
    if IsAddrSpec(value) {
      AddrSpecTrimmed(value);
    }
    hide IsAddrSpec;
  }

  predicate IsNormal(kind: Kind, value: string) {
    ContactValue(kind, value) == Ok(value)
  }

  lemma NormalNotBlank(kind: Kind, value: string)
    requires IsNormal(kind, value)
    ensures TrimSpace(value) != ""
  {}

  function ContactIdentifier(kind: Kind, value: string): LoginIdentifier {
    LoginIdentifier(if kind == Phone then ByPhone else ByEmail, value)
  }

  /** What a contact is bound under is a login identifier of its kind. */
  lemma ContactValueNormal(kind: Kind, raw: string)
    requires ContactValue(kind, raw).Ok?
    ensures IsNormal(kind, ContactValue(kind, raw).value)
    ensures ValidateLoginIdentifier(ContactIdentifier(kind, ContactValue(kind, raw).value))
  {
    if kind == Phone {
      NormalizedPhone(raw);
    } else {
      NormalizedEmail(raw);
    }
  }

  function KindName(kind: IdentifierKind): string {
    match kind
    case ByUsername => "username"
    case ByPhone => "phone"
    case ByEmail => "email"
  }

  /** The text hashed into a login throttling key; `None` is the shared bucket of
      malformed and oversized input. */
  function Preimage(id: LoginIdentifier): string {
    KindName(id.kind) + [0 as char] + id.value
  }

  function AttemptPreimage(raw: string): Option<string> {
    match NormalizeLoginIdentifier(raw)
    case Ok(id) => Some(Preimage(id))
    case Err(_) => None
  }

  /** Two inputs share a throttling bucket exactly when they normalize alike. */
  lemma AttemptPreimageInjective(a: string, b: string)
    ensures AttemptPreimage(a) == AttemptPreimage(b)
       <==> (NormalizeLoginIdentifier(a).Err? && NormalizeLoginIdentifier(b).Err?)
            || NormalizeLoginIdentifier(a) == NormalizeLoginIdentifier(b)
  {
    var x, y := NormalizeLoginIdentifier(a), NormalizeLoginIdentifier(b);
    if x.Ok? && y.Ok? {
      PreimageInjective(x.value, y.value);
    }
  }

  lemma PreimageInjective(x: LoginIdentifier, y: LoginIdentifier)
    ensures Preimage(x) == Preimage(y) <==> x == y
  {
    if Preimage(x) == Preimage(y) {
      assert Preimage(x)[0] == KindName(x.kind)[0] && Preimage(y)[0] == KindName(y.kind)[0];
      var n := |KindName(x.kind)| + 1;
      assert Preimage(x)[n..] == x.value && Preimage(y)[n..] == y.value;
    }
  }
}
