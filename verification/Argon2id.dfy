/** The Argon2id credential text of `internal/identity/service/password.go`: printer,
    parser, and what Verify and NeedsRehash read from it.

    The key derivation is a function parameter: `kdf(value, salt, iterations, memory,
    parallelism, length)`.  The version `19` is the one of section 3.1 of RFC 9106. */
module Argon2id {
  import opened Types
  import opened Encoding

  const MIN_MEMORY := 8 * 1024
  const MAX_MEMORY := 256 * 1024
  const MAX_UINT32 := 0xFFFF_FFFF
  const MAX_UINT8 := 0xFF
  const MAX_ENCODED := 4096

  datatype Params = Params(memory: nat, iterations: nat, parallelism: nat, saltLength: nat, keyLength: nat)
  {
    predicate Valid() {
      && MIN_MEMORY <= memory <= MAX_MEMORY
      && 0 < iterations <= 20
      && 0 < parallelism <= 64
      && memory >= 8 * parallelism
      && 8 <= saltLength <= 256
      && 16 <= keyLength <= 128
    }
  }

  datatype Parsed = Parsed(params: Params, salt: Bytes, key: Bytes)

  type Kdf = (string, Bytes, nat, nat, nat, nat) -> Bytes

  function ThreeFields(a: string, b: string, c: string): string {
    a + "," + b + "," + c
  }

  function ParameterText(p: Params): string {
    ThreeFields("m=" + Decimal(p.memory), "t=" + Decimal(p.iterations), "p=" + Decimal(p.parallelism))
  }

  function Credential(parameters: string, salt: string, key: string): string {
    "$argon2id$v=19$" + parameters + "$" + salt + "$" + key
  }

  function Print(p: Params, salt: Bytes, key: Bytes): string {
    Credential(ParameterText(p), Encode(salt), Encode(key))
  }

  // Parsing.

  predicate IsField(cut: Option<(string, string)>) {
    cut.Some? && cut.value.0 in {"m", "t", "p"} && cut.value.1 != ""
  }

  /** The fields read left to right; a malformed or repeated key refuses them all. */
  function Fields(fields: seq<string>): Option<map<string, string>> {
    if fields == [] then Some(map[])
    else
      match Fields(fields[..|fields| - 1])
      case None => None
      case Some(values) =>
        var cut := Cut(fields[|fields| - 1], '=');
        if !IsField(cut) || cut.value.0 in values then None
        else Some(values[cut.value.0 := cut.value.1])
  }

  method ParseFields(fields: seq<string>) returns (r: Option<map<string, string>>)
    ensures r == Fields(fields)
  {
    var values: map<string, string> := map[];
    for i := 0 to |fields|
      invariant Fields(fields[..i]) == Some(values)
    {
      assert fields[..i + 1][..i] == fields[..i];
      var cut := Cut(fields[i], '=');
      if cut.None? || (cut.value.0 != "m" && cut.value.0 != "t" && cut.value.0 != "p") || cut.value.1 == ""
         || cut.value.0 in values
      {
        FieldsPrefix(fields, i + 1);
        return None;
      }
      values := values[cut.value.0 := cut.value.1];
    }
    assert fields[..|fields|] == fields;
    return Some(values);
  }

  lemma {:induction false} FieldsPrefix(fields: seq<string>, k: nat)
    requires k <= |fields| && Fields(fields[..k]).None?
    ensures Fields(fields).None?
    decreases |fields|
  {
    if k < |fields| {
      assert fields[..|fields| - 1][..k] == fields[..k];
      FieldsPrefix(fields[..|fields| - 1], k);
    } else {
      assert fields[..k] == fields;
    }
  }

  function Lookup(values: map<string, string>, key: string): string {
    if key in values then values[key] else ""
  }

  function ParseParameters(text: string): Option<(nat, nat, nat)> {
    var fields := Split(text, ',');
    if |fields| != 3 then None
    else match Fields(fields)
      case None => None
      case Some(values) =>
        var m := ParseUint(Lookup(values, "m"), MAX_UINT32);
        var t := ParseUint(Lookup(values, "t"), MAX_UINT32);
        var p := ParseUint(Lookup(values, "p"), MAX_UINT8);
        if m.None? || t.None? || p.None? then None else Some((m.value, t.value, p.value))
  }

  function ParseParts(parts: seq<string>): Option<Parsed> {
    if |parts| != 6 || parts[0] != "" || parts[1] != "argon2id" || parts[2] != "v=19" then None
    else match ParseParameters(parts[3])
      case None => None
      case Some((m, t, p)) =>
        var salt, key := Decode(parts[4]), Decode(parts[5]);
        if salt.None? || key.None? || |salt.value| < 8 || |salt.value| > 256 || |key.value| < 16 || |key.value| > 128
        then None
        else Some(Parsed(Params(m, t, p, |salt.value|, |key.value|), salt.value, key.value))
  }

  function Parse(encoded: string): Option<Parsed> {
    if |encoded| == 0 || |encoded| > MAX_ENCODED then None else ParseParts(Split(encoded, '$'))
  }

  // Using a credential.

  function Hash(kdf: Kdf, p: Params, salt: Bytes, value: string): string {
    Print(p, salt, kdf(value, salt, p.iterations, p.memory, p.parallelism, p.keyLength))
  }

  predicate Verify(kdf: Kdf, encoded: string, value: string) {
    match Parse(encoded)
    case None => false
    case Some(Parsed(p, salt, key)) =>
      p.Valid() && kdf(value, salt, p.iterations, p.memory, p.parallelism, |key|) == key
  }

  predicate NeedsRehash(current: Params, encoded: string) {
    match Parse(encoded)
    case None => true
    case Some(Parsed(p, salt, key)) =>
      !p.Valid() || |salt| != p.saltLength || |key| != p.keyLength || p != current
  }

  // Splitting what the printer joins.

  lemma SplitCredential(parameters: string, salt: string, key: string)
    requires Free(parameters, '$') && Free(salt, '$') && Free(key, '$')
    ensures Split(Credential(parameters, salt, key), '$') == ["", "argon2id", "v=19", parameters, salt, key]
  {
    var tail3 := salt + "$" + key;
    var tail2 := parameters + "$" + tail3;
    var tail1 := "v=19" + "$" + tail2;
    var tail0 := "argon2id" + "$" + tail1;
    assert Credential(parameters, salt, key) == "" + "$" + tail0;
    SplitPart("", '$', tail0);
    SplitPart("argon2id", '$', tail1);
    SplitPart("v=19", '$', tail2);
    SplitPart(parameters, '$', tail3);
    SplitPart(salt, '$', key);
    SplitWhole(key, '$');
  }

  lemma SplitFields(a: string, b: string, c: string)
    requires Free(a, ',') && Free(b, ',') && Free(c, ',')
    ensures Split(ThreeFields(a, b, c), ',') == [a, b, c]
  {
    assert ThreeFields(a, b, c) == a + "," + (b + "," + c);
    SplitPart(a, ',', b + "," + c);
    SplitPart(b, ',', c);
    SplitWhole(c, ',');
  }

  lemma ThreeFieldsValue(a: string, b: string, c: string)
    ensures Fields([a, b, c]) == Added(Added(Added(Some(map[]), a), b), c)
  {
    assert [a, b, c][..2] == [a, b] && [a, b][..1] == [a] && [a][..0] == [];
    assert Fields([a]) == Added(Some(map[]), a);
    assert Fields([a, b]) == Added(Fields([a]), b);
  }

  /** One turn of the parser's loop. */
  function Added(values: Option<map<string, string>>, field: string): Option<map<string, string>> {
    var cut := Cut(field, '=');
    if values.None? || !IsField(cut) || cut.value.0 in values.value then None
    else Some(values.value[cut.value.0 := cut.value.1])
  }

  // Round trip.

  lemma CutField(key: char, value: string)
    requires key != '='
    ensures Cut([key] + "=" + value, '=') == Some(([key], value))
  {
    var s := [key] + "=" + value;
    assert s[1..] == "=" + value && s[1..][1..] == value;
    assert Cut(s[1..], '=') == Some(("", value)) && [key] + "" == [key];
  }

  lemma NumeralField(key: char, n: nat)
    requires key in {'m', 't', 'p'}
    ensures Free([key] + "=" + Decimal(n), ',') && Free([key] + "=" + Decimal(n), '$')
  {}

  lemma SymbolsFree(b: Bytes)
    ensures Free(Encode(b), '$')
  {
    EncodeShape(b);
    forall i | 0 <= i < |Encode(b)|
      ensures Encode(b)[i] != '$'
    {
      assert IsSymbol(Encode(b)[i]);
    }
  }

  lemma PrintedFields(m: string, t: string, p: string)
    requires m != "" && t != "" && p != ""
    ensures Fields(["m=" + m, "t=" + t, "p=" + p]) == Some(map["m" := m, "t" := t, "p" := p])
  {
    ThreeFieldsValue("m=" + m, "t=" + t, "p=" + p);
    CutField('m', m);
    CutField('t', t);
    CutField('p', p);
    assert "m=" + m == ['m'] + "=" + m && "t=" + t == ['t'] + "=" + t && "p=" + p == ['p'] + "=" + p;
  }

  lemma ParameterTextParses(p: Params)
    requires p.memory <= MAX_UINT32 && p.iterations <= MAX_UINT32 && p.parallelism <= MAX_UINT8
    ensures ParseParameters(ParameterText(p)) == Some((p.memory, p.iterations, p.parallelism))
  {
    var m, t, q := Decimal(p.memory), Decimal(p.iterations), Decimal(p.parallelism);
    NumeralField('m', p.memory);
    NumeralField('t', p.iterations);
    NumeralField('p', p.parallelism);
    SplitFields("m=" + m, "t=" + t, "p=" + q);
    PrintedFields(m, t, q);
    DecimalValue(p.memory);
    DecimalValue(p.iterations);
    DecimalValue(p.parallelism);
  }

  lemma ParameterTextFree(p: Params)
    ensures Free(ParameterText(p), '$')
  {
    NumeralField('m', p.memory);
    NumeralField('t', p.iterations);
    NumeralField('p', p.parallelism);
  }

  /** Printed credentials are far below the parser's limit. */
  lemma PrintLength(p: Params, salt: Bytes, key: Bytes)
    requires p.memory <= MAX_UINT32 && p.iterations <= MAX_UINT32 && p.parallelism <= MAX_UINT8
    requires |salt| <= 256 && |key| <= 128
    ensures 0 < |Print(p, salt, key)| <= 561
  {
    hide Encode, Decimal;
    EncodeShape(salt);
    EncodeShape(key);
    Pow10Values();
    DecimalLength(p.memory, 10, MAX_UINT32 + 1);
    DecimalLength(p.iterations, 10, MAX_UINT32 + 1);
    DecimalLength(p.parallelism, 3, MAX_UINT8 + 1);
  }

  lemma Pow10Values()
    ensures Pow10(10) == 10_000_000_000 && Pow10(3) == 1000
  {
    assert Pow10(4) == 10_000;
    assert Pow10(6) == 1_000_000;
    assert Pow10(8) == 100_000_000;
  }

  /** Parsing a printed credential returns what was printed, for every parameter the
      parser's integer types can hold. */
  lemma ParsePrint(p: Params, salt: Bytes, key: Bytes)
    requires p.memory <= MAX_UINT32 && p.iterations <= MAX_UINT32 && p.parallelism <= MAX_UINT8
    requires |salt| == p.saltLength && 8 <= |salt| <= 256
    requires |key| == p.keyLength && 16 <= |key| <= 128
    ensures |Print(p, salt, key)| <= MAX_ENCODED
    ensures Parse(Print(p, salt, key)) == Some(Parsed(p, salt, key))
  {
    hide Split, Decode, Encode, ParseParameters, ParameterText;
    PrintLength(p, salt, key);
    ParameterTextFree(p);
    SymbolsFree(salt);
    SymbolsFree(key);
    SplitCredential(ParameterText(p), Encode(salt), Encode(key));
    ParameterTextParses(p);
    DecodeEncode(salt);
    DecodeEncode(key);
  }

  /** Whatever the parser accepts, printing it again gives a text it reads the same. */
  lemma ReprintParsed(encoded: string)
    requires Parse(encoded).Some?
    ensures var r := Parse(encoded).value; Parse(Print(r.params, r.salt, r.key)) == Some(r)
  {
    hide ParseParameters, Decode, Split;
    var r := Parse(encoded).value;
    ParametersInRange(Split(encoded, '$')[3]);
    ParsePrint(r.params, r.salt, r.key);
  }

  lemma ParametersInRange(text: string)
    ensures ParseParameters(text).Some? ==>
              var (m, t, p) := ParseParameters(text).value; m <= MAX_UINT32 && t <= MAX_UINT32 && p <= MAX_UINT8
  {}

  // Order and completeness of the parameter fields.

  /** Three accepted fields name each parameter once. */
  lemma AllParametersPresent(a: string, b: string, c: string)
    requires Fields([a, b, c]).Some?
    ensures Fields([a, b, c]).value.Keys == {"m", "t", "p"}
  {
    ThreeFieldsValue(a, b, c);
  }

  lemma FieldOrderIrrelevant(a: string, b: string, c: string)
    ensures Fields([a, b, c]) == Fields([b, a, c])
    ensures Fields([a, b, c]) == Fields([a, c, b])
  {
    ThreeFieldsValue(a, b, c);
    ThreeFieldsValue(b, a, c);
    ThreeFieldsValue(a, c, b);
    hide Cut;
    SwapAdded(Some(map[]), a, b);
    SwapAdded(Added(Some(map[]), a), b, c);
  }

  lemma SwapAdded(values: Option<map<string, string>>, a: string, b: string)
    ensures Added(Added(values, a), b) == Added(Added(values, b), a)
  {
    hide Cut;
    var one, two := Added(Added(values, a), b), Added(Added(values, b), a);
    if one.Some? && two.Some? {
      assert one.value == two.value;
    }
  }

  /** The parameters may stand in any of the six orders. */
  lemma ParameterOrderIrrelevant(a: string, b: string, c: string, salt: string, key: string)
    requires Free(a, ',') && Free(b, ',') && Free(c, ',')
    requires Free(a, '$') && Free(b, '$') && Free(c, '$') && Free(salt, '$') && Free(key, '$')
    ensures Parse(Credential(ThreeFields(a, b, c), salt, key)) == Parse(Credential(ThreeFields(a, c, b), salt, key))
         == Parse(Credential(ThreeFields(b, a, c), salt, key)) == Parse(Credential(ThreeFields(b, c, a), salt, key))
         == Parse(Credential(ThreeFields(c, a, b), salt, key)) == Parse(Credential(ThreeFields(c, b, a), salt, key))
  {
    hide Parse, Credential, ThreeFields;
    SwapFirst(a, b, c, salt, key);
    SwapLast(a, b, c, salt, key);
    SwapLast(b, a, c, salt, key);
    SwapFirst(a, c, b, salt, key);
    SwapLast(c, b, a, salt, key);
  }

  lemma SwapFirst(a: string, b: string, c: string, salt: string, key: string)
    requires Free(a, ',') && Free(b, ',') && Free(c, ',')
    requires Free(a, '$') && Free(b, '$') && Free(c, '$') && Free(salt, '$') && Free(key, '$')
    ensures Parse(Credential(ThreeFields(a, b, c), salt, key)) == Parse(Credential(ThreeFields(b, a, c), salt, key))
  {
    hide Split, Fields, Decode;
    SplitFields(a, b, c);
    SplitFields(b, a, c);
    SplitCredential(ThreeFields(a, b, c), salt, key);
    SplitCredential(ThreeFields(b, a, c), salt, key);
    FieldOrderIrrelevant(a, b, c);
  }

  lemma SwapLast(a: string, b: string, c: string, salt: string, key: string)
    requires Free(a, ',') && Free(b, ',') && Free(c, ',')
    requires Free(a, '$') && Free(b, '$') && Free(c, '$') && Free(salt, '$') && Free(key, '$')
    ensures Parse(Credential(ThreeFields(a, b, c), salt, key)) == Parse(Credential(ThreeFields(a, c, b), salt, key))
  {
    hide Split, Fields, Decode;
    SplitFields(a, b, c);
    SplitFields(a, c, b);
    SplitCredential(ThreeFields(a, b, c), salt, key);
    SplitCredential(ThreeFields(a, c, b), salt, key);
    FieldOrderIrrelevant(a, b, c);
  }

  // What a stored credential means.

  /** A key derivation that returns as many bytes as asked. */
  ghost predicate IsKdf(kdf: Kdf) {
    forall v, salt, t, m, p, n :: |kdf(v, salt, t, m, p, n)| == n
  }

  /** A hash verifies against exactly the values that derive the same key, its own
      value first of all. */
  lemma VerifyHash(kdf: Kdf, p: Params, salt: Bytes, v: string, w: string)
    requires IsKdf(kdf) && p.Valid() && |salt| == p.saltLength
    ensures Verify(kdf, Hash(kdf, p, salt, v), v)
    ensures Verify(kdf, Hash(kdf, p, salt, v), w)
       <==> kdf(w, salt, p.iterations, p.memory, p.parallelism, p.keyLength)
            == kdf(v, salt, p.iterations, p.memory, p.parallelism, p.keyLength)
  {
    hide Parse, Print;
    ParsePrint(p, salt, kdf(v, salt, p.iterations, p.memory, p.parallelism, p.keyLength));
  }

  /** A hash needs rehashing exactly when its parameters are not the current ones. */
  lemma NeedsRehashHash(kdf: Kdf, p: Params, salt: Bytes, v: string, current: Params)
    requires IsKdf(kdf) && p.Valid() && |salt| == p.saltLength
    ensures NeedsRehash(current, Hash(kdf, p, salt, v)) <==> p != current
  {
    hide Parse, Print;
    ParsePrint(p, salt, kdf(v, salt, p.iterations, p.memory, p.parallelism, p.keyLength));
  }
}
