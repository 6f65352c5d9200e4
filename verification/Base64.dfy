/** Unpadded standard base64 (section 4 of RFC 4648, without padding as section 3.2 allows), as Go's
    RawStdEncoding reads and writes it: bytes to sextets, sextets to symbols. */
module Base64 {
  import opened Models

  type Byte = x: int | 0 <= x < 256
  type Sextet = x: int | 0 <= x < 64

  // ---------- bytes and sextets ----------

  function Four(x: Byte, y: Byte, z: Byte): (r: seq<Sextet>)
    ensures |r| == 4
  {
    [x / 4, x % 4 * 16 + y / 16, y % 16 * 4 + z / 64, z % 64]
  }

  function Three(p: Sextet, q: Sextet, r: Sextet, s: Sextet): (b: seq<Byte>)
    ensures |b| == 3
  {
    [p * 4 + q / 16, q % 16 * 16 + r / 4, r % 4 * 64 + s]
  }

  lemma Digit16(hi: int, lo: int)
    requires 0 <= lo < 16
    ensures (hi * 16 + lo) / 16 == hi && (hi * 16 + lo) % 16 == lo
  {
  }

  lemma Digit4(hi: int, lo: int)
    requires 0 <= lo < 4
    ensures (hi * 4 + lo) / 4 == hi && (hi * 4 + lo) % 4 == lo
  {
  }

  lemma ThreeRestoresFour(x: Byte, y: Byte, z: Byte)
    ensures var f := Four(x, y, z); Three(f[0], f[1], f[2], f[3]) == [x, y, z]
    ensures y == 0 && z == 0 ==> Four(x, y, z)[2] == Four(x, y, z)[3] == 0
    ensures z == 0 ==> Four(x, y, z)[3] == 0
  {
    Digit16(x % 4, y / 16);
    Digit4(y % 16, z / 64);
  }

  /** A last group of one or two bytes is completed with zeros, and the sextets they cause are left out. */
  function Sextets(b: seq<Byte>): seq<Sextet> {
    if |b| == 0 then []
    else if |b| == 1 then Four(b[0], 0, 0)[..2]
    else if |b| == 2 then Four(b[0], b[1], 0)[..3]
    else Four(b[0], b[1], b[2]) + Sextets(b[3..])
  }

  /** Groups of four; a last group of two or three sextets gives one or two bytes, its spare bits are
      dropped; a last group of one sextet is an error. */
  function Bytes(s: seq<Sextet>): Option<seq<Byte>> {
    if |s| == 0 then Some([])
    else if |s| == 1 then None
    else if |s| == 2 then Some(Three(s[0], s[1], 0, 0)[..1])
    else if |s| == 3 then Some(Three(s[0], s[1], s[2], 0)[..2])
    else
      match Bytes(s[4..])
      case None => None
      case Some(rest) => Some(Three(s[0], s[1], s[2], s[3]) + rest)
  }

  lemma PrependGroup(f: seq<Sextet>, t: seq<Sextet>, rest: seq<Byte>)
    requires |f| == 4 && Bytes(t) == Some(rest)
    ensures Bytes(f + t) == Some(Three(f[0], f[1], f[2], f[3]) + rest)
  {
    assert (f + t)[4..] == t;
  }

  lemma {:induction false} SextetsRoundTrip(b: seq<Byte>)
    ensures Bytes(Sextets(b)) == Some(b)
  {
    if |b| == 1 {
      ThreeRestoresFour(b[0], 0, 0);
      assert [b[0], 0, 0][..1] == b;
    } else if |b| == 2 {
      ThreeRestoresFour(b[0], b[1], 0);
      assert [b[0], b[1], 0][..2] == b;
    } else if |b| > 2 {
      SextetsRoundTrip(b[3..]);
      ThreeRestoresFour(b[0], b[1], b[2]);
      PrependGroup(Four(b[0], b[1], b[2]), Sextets(b[3..]), b[3..]);
      assert b == [b[0], b[1], b[2]] + b[3..];
    }
  }

  // ---------- sextets and symbols ----------

  function Symbol(i: Sextet): char {
    if i < 26 then 'A' + i as char
    else if i < 52 then 'a' + (i - 26) as char
    else if i < 62 then '0' + (i - 52) as char
    else if i == 62 then '+' else '/'
  }

  predicate IsSymbol(c: char) {
    'A' <= c <= 'Z' || 'a' <= c <= 'z' || '0' <= c <= '9' || c == '+' || c == '/'
  }

  function Index(c: char): Sextet
    requires IsSymbol(c)
  {
    if 'A' <= c <= 'Z' then (c - 'A') as int
    else if 'a' <= c <= 'z' then (c - 'a') as int + 26
    else if '0' <= c <= '9' then (c - '0') as int + 52
    else if c == '+' then 62 else 63
  }

  lemma SymbolRoundTrip(i: Sextet)
    ensures IsSymbol(Symbol(i)) && Index(Symbol(i)) == i
  {
  }

  /** Table 1 of RFC 4648, by character code: A-Z, a-z, 0-9, plus and slash. */
  lemma SymbolIsFromTable(i: Sextet)
    ensures Symbol(i) as int == if i < 26 then 65 + i else if i < 52 then 97 + i - 26
                                else if i < 62 then 48 + i - 52 else if i == 62 then 43 else 47
  {
  }

  predicate AllSymbols(s: string) {
    forall i :: 0 <= i < |s| ==> IsSymbol(s[i])
  }

  function Symbols(s: seq<Sextet>): (r: string)
    ensures |r| == |s|
    ensures forall i :: 0 <= i < |s| ==> r[i] == Symbol(s[i])
  {
    seq(|s|, i requires 0 <= i < |s| => Symbol(s[i]))
  }

  function Indices(s: string): (r: seq<Sextet>)
    requires AllSymbols(s)
    ensures |r| == |s|
    ensures forall i :: 0 <= i < |s| ==> r[i] == Index(s[i])
  {
    seq(|s|, i requires 0 <= i < |s| => Index(s[i]))
  }

  lemma SymbolsRoundTrip(s: seq<Sextet>)
    ensures AllSymbols(Symbols(s)) && Indices(Symbols(s)) == s
  {
    forall i | 0 <= i < |s|
      ensures IsSymbol(Symbols(s)[i]) && Index(Symbols(s)[i]) == s[i]
    {
      SymbolRoundTrip(s[i]);
    }
  }

  // ---------- the codec ----------

  function Encode(b: seq<Byte>): string {
    Symbols(Sextets(b))
  }

  function DropLineBreaks(s: string): string {
    if s == "" then ""
    else if s[0] == '\r' || s[0] == '\n' then DropLineBreaks(s[1..])
    else [s[0]] + DropLineBreaks(s[1..])
  }

  /** DecodeString: line breaks are ignored, any other foreign character is an error. */
  function Decode(s: string): Option<seq<Byte>> {
    var t := DropLineBreaks(s);
    if AllSymbols(t) then Bytes(Indices(t)) else None
  }

  lemma BytesOfGroups(s: seq<Sextet>)
    requires |s| >= 4
    ensures Bytes(s).Some? <==> Bytes(s[4..]).Some?
  {
  }

  lemma {:induction false} BytesExist(s: seq<Sextet>)
    ensures Bytes(s).Some? <==> |s| % 4 != 1
  {
    if |s| >= 4 {
      BytesOfGroups(s);
      BytesExist(s[4..]);
      assert |s[4..]| == |s| - 4;
    } else {
      assert Bytes(s).Some? <==> |s| != 1;
    }
  }

  lemma {:induction false} DroppedLength(s: string)
    ensures |DropLineBreaks(s)| == |s| - multiset(s)['\r'] - multiset(s)['\n']
    ensures forall c :: c in DropLineBreaks(s) <==> c in s && c != '\r' && c != '\n'
  {
    if s != "" {
      DroppedLength(s[1..]);
      assert s == [s[0]] + s[1..];
    }
  }

  /** A string is accepted if and only if it holds nothing but the 64 symbols and line breaks, and the number
      of symbols does not leave a single one over. */
  lemma DecodesExactly(s: string)
    ensures Decode(s).Some? <==>
            && (forall c :: c in s ==>
                  'A' <= c <= 'Z' || 'a' <= c <= 'z' || '0' <= c <= '9' || c in {'+', '/', '\r', '\n'})
            && (|s| - multiset(s)['\r'] - multiset(s)['\n']) % 4 != 1
  {
    var t := DropLineBreaks(s);
    DroppedLength(s);
    assert AllSymbols(t) <==> forall c :: c in t ==> IsSymbol(c);
    if AllSymbols(t) {
      BytesExist(Indices(t));
    }
  }

  lemma {:induction false} NoLineBreaks(s: string)
    requires AllSymbols(s)
    ensures DropLineBreaks(s) == s
  {
    if s != "" {
      NoLineBreaks(s[1..]);
    }
  }

  /** Decoding what was encoded gives the bytes back, for every byte string. */
  lemma RoundTrip(b: seq<Byte>)
    ensures AllSymbols(Encode(b))
    ensures Decode(Encode(b)) == Some(b)
  {
    SymbolsRoundTrip(Sextets(b));
    NoLineBreaks(Encode(b));
    SextetsRoundTrip(b);
  }

  lemma KnownFoo()
    ensures Encode([]) == "" && Encode([102]) == "Zg" && Encode([102, 111]) == "Zm8" && Encode([102, 111, 111]) == "Zm9v"
  {
    assert Sextets([]) == [];
    assert [102, 111, 111][3..] == [];
    assert Sextets([102]) == [25, 32];
    assert Sextets([102, 111]) == [25, 38, 60];
    assert Sextets([102, 111, 111]) == [25, 38, 61, 47];
  }

  lemma KnownBar()
    ensures Encode([98]) == "Yg" && Encode([98, 97]) == "YmE" && Encode([98, 97, 114]) == "YmFy"
  {
    assert [98, 97, 114][3..] == [];
    assert Sextets([98]) == [24, 32];
    assert Sextets([98, 97]) == [24, 38, 4];
    assert Sextets([98, 97, 114]) == [24, 38, 5, 50];
  }

  /** The text of a whole group is followed by the text of the rest. */
  lemma EncodeGroup(group: seq<Byte>, rest: seq<Byte>)
    requires |group| == 3
    ensures Encode(group + rest) == Encode(group) + Encode(rest)
  {
    assert (group + rest)[3..] == rest && group[3..] == [];
    assert Sextets(group + rest) == Sextets(group) + Sextets(rest);
  }

  /** The seven test vectors of section 10 of RFC 4648, without their padding: the prefixes of "foobar". */
  lemma KnownAnswers()
    ensures Encode([]) == "" && Encode([102]) == "Zg" && Encode([102, 111]) == "Zm8"
    ensures Encode([102, 111, 111]) == "Zm9v" && Encode([102, 111, 111, 98]) == "Zm9vYg"
    ensures Encode([102, 111, 111, 98, 97]) == "Zm9vYmE" && Encode([102, 111, 111, 98, 97, 114]) == "Zm9vYmFy"
  {
    KnownFoo();
    KnownBar();
    EncodeGroup([102, 111, 111], [98]);
    EncodeGroup([102, 111, 111], [98, 97]);
    EncodeGroup([102, 111, 111], [98, 97, 114]);
  }
}
