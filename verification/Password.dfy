/** The stored form of a password hash, `$argon2id$v=19$m=...,t=...,p=...$salt$hash`, its parser, and
    password verification with the key derivation left open. */
module Password {
  import opened Models
  import opened Decimal
  import Base64
  import Strings

  type Byte = Base64.Byte

  const UINT8: int := 0x100
  const UINT32: int := 0x1_0000_0000
  const INT64: int := 0x8000_0000_0000_0000

  /** Argon2 version 0x13 (section 3.1 of RFC 9106). */
  const VERSION: nat := 0x13

  datatype Params = Params(memory: nat, iterations: nat, parallelism: nat, saltLength: nat, keyLength: nat)

  predicate InRange(p: Params) {
    && p.memory < UINT32 && p.iterations < UINT32 && p.parallelism < UINT8
    && p.saltLength < UINT32 && p.keyLength < UINT32
  }

  const DEFAULT_PARAMS: Params := Params(64 * 1024, 3, 2, 16, 32)

  // ---------- the printer ----------

  function ParamsText(p: Params): string {
    "m=" + Digits(p.memory) + ",t=" + Digits(p.iterations) + ",p=" + Digits(p.parallelism)
  }

  function Encode(p: Params, salt: seq<Byte>, hash: seq<Byte>): string {
    "$argon2id$" + (("v=" + Digits(VERSION)) + ("$" + (ParamsText(p) + ("$" +
      (Base64.Encode(salt) + ("$" + Base64.Encode(hash)))))))
  }

  // ---------- the parser ----------

  datatype Error = BadFormat | BadAlgorithm | BadVersion | OtherVersion | BadParams | BadSalt | BadHash

  datatype Decoded = Decoded(params: Params, salt: seq<Byte>, hash: seq<Byte>) | Rejected(error: Error)

  function Split(s: string): (parts: seq<string>)
    ensures |parts| >= 1
  {
    if s == "" then [""]
    else if s[0] == '$' then [""] + Split(s[1..])
    else var rest := Split(s[1..]); [[s[0]] + rest[0]] + rest[1..]
  }

  /** Blanks that Sscanf skips before a number; a newline there is an error. */
  predicate IsBlank(c: char) {
    Strings.IsSpace(c) && c != '\n'
  }

  function DigitRun(s: string): (n: nat)
    ensures n <= |s| && AllDigits(s[..n])
  {
    if s != "" && IsDigit(s[0]) then
      var n := DigitRun(s[1..]);
      assert s[..n + 1] == [s[0]] + s[1..][..n];
      n + 1
    else 0
  }

  datatype Scan<T> = Got(value: T, rest: string) | Fail

  /** Literal text in a Sscanf format. */
  function ScanText(text: string, s: string): Scan<()> {
    if text <= s then Got((), s[|text|..]) else Fail
  }

  /** `%d` into an unsigned integer below `bound`: blanks are skipped, overflow is an error. */
  function ScanUint(s: string, bound: nat): Scan<nat> {
    var t := Strings.TrimLeft(s, IsBlank);
    var n := DigitRun(t);
    if n > 0 && Value(t[..n]) < bound then Got(Value(t[..n]), t[n..]) else Fail
  }

  /** `%d` into an int: as above with an optional sign. */
  function ScanInt(s: string): Scan<int> {
    var t := Strings.TrimLeft(s, IsBlank);
    var signed := t != "" && (t[0] == '+' || t[0] == '-');
    var u := if signed then t[1..] else t;
    var n := DigitRun(u);
    if n == 0 then Fail
    else
      var size: int := Value(u[..n]);
      var v := if signed && t[0] == '-' then 0 - size else size;
      if -INT64 <= v < INT64 then Got(v, u[n..]) else Fail
  }

  /** The number after literal text; input left over at the end of a Sscanf is ignored. */
  function ScanField(text: string, s: string, bound: nat): Scan<nat> {
    match ScanText(text, s)
    case Fail => Fail
    case Got(_, rest) => ScanUint(rest, bound)
  }

  function ScanVersion(s: string): Scan<int> {
    match ScanText("v=", s)
    case Fail => Fail
    case Got(_, rest) => ScanInt(rest)
  }

  /** "m=%d,t=%d,p=%d". */
  function ScanParams(s: string): Option<(nat, nat, nat)> {
    match ScanField("m=", s, UINT32)
    case Fail => None
    case Got(m, s1) =>
      match ScanField(",t=", s1, UINT32)
      case Fail => None
      case Got(t, s2) =>
        match ScanField(",p=", s2, UINT8)
        case Fail => None
        case Got(p, _) => Some((m, t, p))
  }

  /** decodeArgon2Hash. */
  function Decode(encoded: string): Decoded {
    DecodeParts(Split(encoded))
  }

  function DecodeParts(parts: seq<string>): Decoded {
    if |parts| != 6 then Rejected(BadFormat)
    else if parts[1] != "argon2id" then Rejected(BadAlgorithm)
    else
      Assemble(ScanVersion(parts[2]), ScanParams(parts[3]), Base64.Decode(parts[4]), Base64.Decode(parts[5]))
  }

  /** The checks on the last four parts, in the order in which they are made. */
  function Assemble(version: Scan<int>, params: Option<(nat, nat, nat)>,
                    salt: Option<seq<Byte>>, hash: Option<seq<Byte>>): Decoded
  {
    if version.Fail? then Rejected(BadVersion)
    else if version.value != VERSION then Rejected(OtherVersion)
    else if params.None? then Rejected(BadParams)
    else if salt.None? then Rejected(BadSalt)
    else if hash.None? then Rejected(BadHash)
    else
      Decoded(Params(params.value.0, params.value.1, params.value.2, |salt.value| % UINT32, |hash.value| % UINT32),
              salt.value, hash.value)
  }

  // ---------- the round trip ----------

  lemma {:induction false} SplitAtFirst(a: string, rest: string)
    requires '$' !in a
    ensures Split(a + ("$" + rest)) == [a] + Split(rest)
  {
    var s := a + ("$" + rest);
    if a == "" {
      assert s[1..] == rest;
    } else {
      assert s[0] == a[0] && s[1..] == a[1..] + ("$" + rest);
      SplitAtFirst(a[1..], rest);
      assert [a[0]] + a[1..] == a;
      assert ([a[1..]] + Split(rest))[1..] == Split(rest);
    }
  }

  lemma {:induction false} SplitWhole(a: string)
    requires '$' !in a
    ensures Split(a) == [a]
  {
    if a != "" {
      assert a[0] in a;
      SplitWhole(a[1..]);
      assert [a[0]] + a[1..] == a;
    }
  }

  lemma {:induction false} DigitRunStops(d: string, rest: string)
    requires AllDigits(d)
    requires rest != "" ==> !IsDigit(rest[0])
    ensures DigitRun(d + rest) == |d|
  {
    if d == "" {
      assert d + rest == rest;
    } else {
      assert (d + rest)[1..] == d[1..] + rest;
      DigitRunStops(d[1..], rest);
    }
  }

  /** Scanning a printed number stops right after it. */
  lemma ScanUintReadsDigits(n: nat, rest: string, bound: nat)
    requires n < bound
    requires rest != "" ==> !IsDigit(rest[0])
    ensures ScanUint(Digits(n) + rest, bound) == Got(n, rest)
  {
    DigitsRoundTrip(n);
    var d := Digits(n);
    var t := d + rest;
    assert t[0] == d[0] && !IsBlank(t[0]);
    DigitRunStops(d, rest);
    assert t[..|d|] == d && t[|d|..] == rest;
  }

  /** The white space that is skipped before a number. */
  predicate IsSkipped(c: char) {
    || c in {' ', '\t', '\r', '\U{0B}', '\U{0C}', '\U{85}', '\U{A0}', '\U{1680}'} || '\U{2000}' <= c <= '\U{200A}'
    || c in {'\U{2028}', '\U{2029}', '\U{202F}', '\U{205F}', '\U{3000}'}
  }

  lemma {:induction false} SkipBlanks(blanks: string, rest: string)
    requires forall i :: 0 <= i < |blanks| ==> IsSkipped(blanks[i])
    requires rest != "" ==> !IsBlank(rest[0])
    ensures Strings.TrimLeft(blanks + rest, IsBlank) == rest
  {
    if blanks == "" {
      assert blanks + rest == rest;
    } else {
      assert (blanks + rest)[0] == blanks[0] && (blanks + rest)[1..] == blanks[1..] + rest;
      SkipBlanks(blanks[1..], rest);
    }
  }

  /** Numbers are read after any white space but a line feed, and a signed one after either sign. */
  lemma NumbersAfterBlanks(blanks: string, n: nat, rest: string, bound: nat)
    requires forall i :: 0 <= i < |blanks| ==> IsSkipped(blanks[i])
    requires n < bound && (rest != "" ==> !IsDigit(rest[0]))
    ensures ScanUint(blanks + (Digits(n) + rest), bound) == Got(n, rest)
    ensures ScanUint(blanks + ("\n" + (Digits(n) + rest)), bound) == Fail
  {
    ScanUintReadsDigits(n, rest, bound);
    DigitsRoundTrip(n);
    var t := Digits(n) + rest;
    assert t[0] == Digits(n)[0] && !IsBlank(t[0]);
    SkipBlanks(blanks, t);
    SkipBlanks("", t);
    assert "" + t == t;
    SkipBlanks(blanks, "\n" + t);
  }

  lemma SignsAreRead(n: nat)
    ensures n < 0x8000_0000_0000_0000 ==> ScanInt("+" + Digits(n)) == Got(n, "")
    ensures n <= 0x8000_0000_0000_0000 ==> ScanInt("-" + Digits(n)) == Got(0 - n, "")
  {
    var d := Digits(n);
    DigitsRoundTrip(n);
    DigitRunStops(d, "");
    assert d + "" == d && d[..|d|] == d && d[|d|..] == "";
    assert ("+" + d)[1..] == d && ("-" + d)[1..] == d;
  }

  lemma ScanTextReadsText(text: string, rest: string)
    ensures ScanText(text, text + rest) == Got((), rest)
  {
    assert (text + rest)[|text|..] == rest;
  }

  lemma ScanFieldReadsDigits(text: string, n: nat, rest: string, bound: nat)
    requires n < bound
    requires rest != "" ==> !IsDigit(rest[0])
    ensures ScanField(text, text + (Digits(n) + rest), bound) == Got(n, rest)
  {
    ScanTextReadsText(text, Digits(n) + rest);
    ScanUintReadsDigits(n, rest, bound);
  }

  lemma ScanParamsReadsText(p: Params)
    requires InRange(p)
    ensures ScanParams(ParamsText(p)) == Some((p.memory, p.iterations, p.parallelism))
  {
    var r2 := ",p=" + (Digits(p.parallelism) + "");
    var r1 := ",t=" + (Digits(p.iterations) + r2);
    assert ParamsText(p) == "m=" + (Digits(p.memory) + r1);
    ScanFieldReadsDigits("m=", p.memory, r1, UINT32);
    ScanFieldReadsDigits(",t=", p.iterations, r2, UINT32);
    ScanFieldReadsDigits(",p=", p.parallelism, "", UINT8);
  }

  lemma ScanVersionReadsText()
    ensures ScanVersion("v=" + Digits(VERSION)).Got? && ScanVersion("v=" + Digits(VERSION)).value == VERSION
  {
    ScanTextReadsText("v=", Digits(VERSION));
    ScanIntReadsDigits(VERSION);
  }

  lemma NoDollar(p: Params, b: seq<Byte>)
    ensures '$' !in ParamsText(p) && '$' !in Base64.Encode(b)
  {
    DigitsRoundTrip(p.memory);
    DigitsRoundTrip(p.iterations);
    DigitsRoundTrip(p.parallelism);
    Base64.RoundTrip(b);
  }

  lemma SplitBody(p: Params, salt: seq<Byte>, hash: seq<Byte>)
    ensures Split(ParamsText(p) + ("$" + (Base64.Encode(salt) + ("$" + Base64.Encode(hash)))))
            == [ParamsText(p), Base64.Encode(salt), Base64.Encode(hash)]
  {
    NoDollar(p, salt);
    NoDollar(p, hash);
    SplitWhole(Base64.Encode(hash));
    SplitAtFirst(Base64.Encode(salt), Base64.Encode(hash));
    SplitAtFirst(ParamsText(p), Base64.Encode(salt) + ("$" + Base64.Encode(hash)));
  }

  lemma SplitHeader(version: string, body: string)
    requires '$' !in version
    ensures Split("$argon2id$" + (version + ("$" + body))) == ["", "argon2id", version] + Split(body)
  {
    var rest := version + ("$" + body);
    assert "$argon2id$" + rest == "" + ("$" + ("argon2id" + ("$" + rest)));
    SplitAtFirst(version, body);
    SplitAtFirst("argon2id", rest);
    SplitAtFirst("", "argon2id" + ("$" + rest));
  }

  lemma SplitEncoded(p: Params, salt: seq<Byte>, hash: seq<Byte>)
    ensures Split(Encode(p, salt, hash))
            == ["", "argon2id", "v=" + Digits(VERSION), ParamsText(p), Base64.Encode(salt), Base64.Encode(hash)]
  {
    DigitsRoundTrip(VERSION);
    SplitBody(p, salt, hash);
    SplitHeader("v=" + Digits(VERSION), ParamsText(p) + ("$" + (Base64.Encode(salt) + ("$" + Base64.Encode(hash)))));
  }

  /** The codec round trip: for all parameters, salts and hashes, decoding the encoded string returns
      the same memory, iterations, parallelism, salt and hash, with the lengths recovered. */
  lemma CodecRoundTrip(p: Params, salt: seq<Byte>, hash: seq<Byte>)
    requires InRange(p) && |salt| == p.saltLength && |hash| == p.keyLength
    ensures Decode(Encode(p, salt, hash)) == Decoded(p, salt, hash)
  {
    SplitEncoded(p, salt, hash);
    PartsRoundTrip(p, salt, hash);
  }

  /** The round trip holds if and only if the three numbers fit their fields; otherwise the parameters are
      rejected. */
  lemma CodecRoundTripExactly(p: Params, salt: seq<Byte>, hash: seq<Byte>)
    requires |salt| == p.saltLength < 0x1_0000_0000 && |hash| == p.keyLength < 0x1_0000_0000
    ensures var fits := p.memory < 0x1_0000_0000 && p.iterations < 0x1_0000_0000 && p.parallelism < 0x100;
            Decode(Encode(p, salt, hash)) == if fits then Decoded(p, salt, hash) else Rejected(BadParams)
  {
    if InRange(p) {
      CodecRoundTrip(p, salt, hash);
    } else {
      SplitEncoded(p, salt, hash);
      ScanVersionReadsText();
      ScanParamsOverflows(p);
    }
  }

  lemma ScanFieldOverflows(text: string, n: nat, rest: string, bound: nat)
    requires n >= bound
    requires rest != "" ==> !IsDigit(rest[0])
    ensures ScanField(text, text + (Digits(n) + rest), bound) == Fail
  {
    ScanTextReadsText(text, Digits(n) + rest);
    DigitsRoundTrip(n);
    var d := Digits(n);
    var t := d + rest;
    assert t[0] == d[0] && !IsBlank(t[0]);
    DigitRunStops(d, rest);
    assert t[..|d|] == d;
  }

  lemma ScanParamsOverflows(p: Params)
    requires p.memory >= UINT32 || p.iterations >= UINT32 || p.parallelism >= UINT8
    ensures ScanParams(ParamsText(p)) == None
  {
    var r2 := ",p=" + (Digits(p.parallelism) + "");
    var r1 := ",t=" + (Digits(p.iterations) + r2);
    assert ParamsText(p) == "m=" + (Digits(p.memory) + r1);
    if p.memory >= UINT32 {
      ScanFieldOverflows("m=", p.memory, r1, UINT32);
    } else {
      ScanFieldReadsDigits("m=", p.memory, r1, UINT32);
      if p.iterations >= UINT32 {
        ScanFieldOverflows(",t=", p.iterations, r2, UINT32);
      } else {
        ScanFieldReadsDigits(",t=", p.iterations, r2, UINT32);
        ScanFieldOverflows(",p=", p.parallelism, "", UINT8);
      }
    }
  }

  // ---------- what is rejected ----------

  lemma {:induction false} SplitCounts(s: string)
    ensures |Split(s)| == multiset(s)['$'] + 1
  {
    if s != "" {
      SplitCounts(s[1..]);
      assert s == [s[0]] + s[1..];
    }
  }

  /** A string has the right number of fields if and only if it has five dollar signs. */
  lemma BadFormatExactly(s: string)
    ensures Decode(s) == Rejected(BadFormat) <==> multiset(s)['$'] != 5
  {
    SplitCounts(s);
  }

  lemma SplitSix(f0: string, f1: string, f2: string, f3: string, f4: string, f5: string)
    requires '$' !in f0 && '$' !in f1 && '$' !in f2 && '$' !in f3 && '$' !in f4 && '$' !in f5
    ensures Split(f0 + ("$" + (f1 + ("$" + (f2 + ("$" + (f3 + ("$" + (f4 + ("$" + f5)))))))))) == [f0, f1, f2, f3, f4, f5]
  {
    var r4 := f4 + ("$" + f5);
    var r3 := f3 + ("$" + r4);
    var r2 := f2 + ("$" + r3);
    SplitWhole(f5);
    SplitAtFirst(f4, f5);
    SplitAtFirst(f3, r4);
    SplitAtFirst(f2, r3);
    SplitAtFirst(f1, r2);
    SplitAtFirst(f0, f1 + ("$" + r2));
  }

  /** Six fields under another algorithm, or with another version number, are rejected for that reason. */
  lemma OthersAreRejected(f0: string, f1: string, f2: string, f3: string, f4: string, f5: string, version: nat)
    requires '$' !in f0 && '$' !in f1 && '$' !in f2 && '$' !in f3 && '$' !in f4 && '$' !in f5
    ensures var s := f0 + ("$" + (f1 + ("$" + (f2 + ("$" + (f3 + ("$" + (f4 + ("$" + f5)))))))));
            && (f1 != "argon2id" ==> Decode(s) == Rejected(BadAlgorithm))
            && (f1 == "argon2id" && f2 == "v=" + Digits(version) && version != 19 ==>
                  Decode(s) == Rejected(if version < 0x8000_0000_0000_0000 then OtherVersion else BadVersion))
  {
    SplitSix(f0, f1, f2, f3, f4, f5);
    if f2 == "v=" + Digits(version) {
      ScanIntReadsDigits(version);
      ScanTextReadsText("v=", Digits(version));
    }
  }

  lemma ScanIntReadsDigits(n: nat)
    ensures ScanInt(Digits(n)) == if n < 0x8000_0000_0000_0000 then Got(n, "") else Fail
  {
    var d := Digits(n);
    DigitsRoundTrip(n);
    assert IsDigit(d[0]) && !IsBlank(d[0]);
    DigitRunStops(d, "");
    assert d + "" == d && d[..|d|] == d && d[|d|..] == "";
  }

  lemma PartsRoundTrip(p: Params, salt: seq<Byte>, hash: seq<Byte>)
    requires InRange(p) && |salt| == p.saltLength && |hash| == p.keyLength
    ensures DecodeParts(["", "argon2id", "v=" + Digits(VERSION), ParamsText(p), Base64.Encode(salt), Base64.Encode(hash)])
            == Decoded(p, salt, hash)
  {
    var version, params := ScanVersion("v=" + Digits(VERSION)), ScanParams(ParamsText(p));
    ScanVersionReadsText();
    ScanParamsReadsText(p);
    Base64.RoundTrip(salt);
    Base64.RoundTrip(hash);
    AssembleRestores(version, params, p, salt, hash);
  }

  lemma AssembleRestores(version: Scan<int>, params: Option<(nat, nat, nat)>, p: Params, salt: seq<Byte>, hash: seq<Byte>)
    requires InRange(p) && |salt| == p.saltLength && |hash| == p.keyLength
    requires version.Got? && version.value == VERSION
    requires params == Some((p.memory, p.iterations, p.parallelism))
    ensures Assemble(version, params, Some(salt), Some(hash)) == Decoded(p, salt, hash)
  {
  }

  lemma ReencodeDecoded(d: Decoded)
    requires d.Decoded? && InRange(d.params)
    requires d.params.saltLength == |d.salt| && d.params.keyLength == |d.hash|
    ensures Decode(Encode(d.params, d.salt, d.hash)) == d
  {
    CodecRoundTrip(d.params, d.salt, d.hash);
  }

  lemma AssembledIsInRange(version: Scan<int>, params: Option<(nat, nat, nat)>,
                           salt: Option<seq<Byte>>, hash: Option<seq<Byte>>)
    requires params.Some? ==> var (m, t, p) := params.value; m < UINT32 && t < UINT32 && p < UINT8
    ensures var d := Assemble(version, params, salt, hash);
            d.Decoded? ==> && InRange(d.params)
                           && (|d.salt| < UINT32 ==> d.params.saltLength == |d.salt|)
                           && (|d.hash| < UINT32 ==> d.params.keyLength == |d.hash|)
  {
  }

  /** Whatever string is accepted, writing its contents out again gives a string that decodes alike. */
  lemma ReencodingIsStable(encoded: string, d: Decoded)
    requires d == Decode(encoded) && d.Decoded?
    requires |d.salt| < UINT32 && |d.hash| < UINT32
    ensures Decode(Encode(d.params, d.salt, d.hash)) == d
  {
    var parts := Split(encoded);
    var params := ScanParams(parts[3]);
    if params.Some? {
      ScannedIsInRange(parts[3]);
    }
    AssembledIsInRange(ScanVersion(parts[2]), params, Base64.Decode(parts[4]), Base64.Decode(parts[5]));
    ReencodeDecoded(d);
  }

  lemma ScannedIsInRange(s: string)
    requires ScanParams(s).Some?
    ensures var (m, t, p) := ScanParams(s).value; m < UINT32 && t < UINT32 && p < UINT8
  {
  }

  // ---------- hashing and verification ----------

  /** Key derivation: password, salt, iterations, memory, parallelism, key length. */
  type Kdf = (string, seq<Byte>, nat, nat, nat, nat) -> seq<Byte>

  ghost predicate HonoursLength(kdf: Kdf) {
    forall pw, salt, t, m, p, n :: |kdf(pw, salt, t, m, p, n)| == n
  }

  /** The derivation refuses to run (panics) without at least one pass, one lane and one byte of key. */
  predicate Runs(p: Params) {
    p.iterations >= 1 && p.parallelism >= 1 && p.keyLength >= 1
  }

  function Derive(kdf: Kdf, password: string, salt: seq<Byte>, p: Params): seq<Byte> {
    kdf(password, salt, p.iterations, p.memory, p.parallelism, p.keyLength)
  }

  datatype Hashed = Stored(encoded: string) | HashPanic

  /** HashPassword, with the random salt as a parameter. */
  function HashPassword(kdf: Kdf, password: string, params: Option<Params>, salt: seq<Byte>): Hashed
    requires |salt| == (if params.Some? then params.value else DEFAULT_PARAMS).saltLength
  {
    var p := if params.Some? then params.value else DEFAULT_PARAMS;
    if Runs(p) then Stored(Encode(p, salt, Derive(kdf, password, salt, p))) else HashPanic
  }

  datatype Verdict = Answer(ok: bool) | Invalid(error: Error) | VerifyPanic

  function VerifyPassword(kdf: Kdf, password: string, encoded: string): Verdict {
    match Decode(encoded)
    case Rejected(e) => Invalid(e)
    case Decoded(p, salt, hash) =>
      if Runs(p) then Answer(hash == Derive(kdf, password, salt, p)) else VerifyPanic
  }

  /** A hash is stored if and only if the derivation runs; it holds the key derived from the password, the salt
      and the parameters; and it accepts exactly the passwords from which the same key is derived. */
  lemma VerifyMatchesHash(kdf: Kdf, password: string, attempt: string, params: Option<Params>, salt: seq<Byte>)
    requires HonoursLength(kdf)
    requires params.Some? ==>
               && params.value.memory < 0x1_0000_0000 && params.value.iterations < 0x1_0000_0000 && params.value.parallelism < 0x100
               && params.value.saltLength < 0x1_0000_0000 && params.value.keyLength < 0x1_0000_0000
    requires |salt| == (if params.Some? then params.value else DEFAULT_PARAMS).saltLength
    ensures var p := if params.Some? then params.value else Params(65536, 3, 2, 16, 32);
            var h := HashPassword(kdf, password, params, salt);
            var key := kdf(password, salt, p.iterations, p.memory, p.parallelism, p.keyLength);
            && (h.Stored? <==> p.iterations >= 1 && p.parallelism >= 1 && p.keyLength >= 1)
            && (h.Stored? ==>
                  && Decode(h.encoded) == Decoded(p, salt, key)
                  && VerifyPassword(kdf, attempt, h.encoded)
                     == Answer(key == kdf(attempt, salt, p.iterations, p.memory, p.parallelism, p.keyLength)))
    ensures attempt == password && HashPassword(kdf, password, params, salt).Stored? ==>
              VerifyPassword(kdf, attempt, HashPassword(kdf, password, params, salt).encoded) == Answer(true)
  {
    var p := if params.Some? then params.value else DEFAULT_PARAMS;
    CodecRoundTrip(p, salt, Derive(kdf, password, salt, p));
  }

  lemma DefaultNumbers()
    ensures Digits(VERSION) == "19" && Digits(65536) == "65536" && Digits(3) == "3" && Digits(2) == "2"
  {
    assert Digits(1) == "1";
    assert Digits(6) == "6";
    assert Digits(65) == "65";
    assert Digits(655) == "655";
    assert Digits(6553) == "6553";
  }

  lemma DefaultParamsText()
    ensures ParamsText(DEFAULT_PARAMS) == "m=65536,t=3,p=2"
  {
    DefaultNumbers();
  }

  lemma DefaultHeader(rest: string)
    ensures "$argon2id$" + (("v=" + "19") + ("$" + ("m=65536,t=3,p=2" + ("$" + rest))))
            == "$argon2id$v=19$m=65536,t=3,p=2$" + rest
  {
  }

  /** The documented shape of a stored hash, for the default parameters. */
  lemma DocumentedFormat(salt: seq<Byte>, hash: seq<Byte>)
    ensures Encode(DEFAULT_PARAMS, salt, hash)
            == "$argon2id$v=19$m=65536,t=3,p=2$" + (Base64.Encode(salt) + ("$" + Base64.Encode(hash)))
  {
    DefaultNumbers();
    DefaultParamsText();
    DefaultHeader(Base64.Encode(salt) + ("$" + Base64.Encode(hash)));
  }
}
