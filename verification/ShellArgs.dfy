/** The tokenizer of the interactive shell: splits a line on blanks, respecting double quotes. Strings
    are byte strings. */
module ShellArgs {
  import opened Strings

  predicate IsBlank(c: char) {
    c == ' ' || c == '\t'
  }

  // ---------- the reference: cut at unquoted blanks, drop quotes, drop empty pieces ----------

  /** The pieces between unquoted blanks, quotes included. */
  function Pieces(line: string, inQuote: bool): (r: seq<string>)
    ensures r != []
  {
    if line == "" then [""]
    else
      var c := line[0];
      if !inQuote && IsBlank(c) then [""] + Pieces(line[1..], false)
      else
        var rest := Pieces(line[1..], if c == '"' then !inQuote else inQuote);
        [[c] + rest[0]] + rest[1..]
  }

  function Unquote(s: string): string {
    if s == "" then "" else (if s[0] == '"' then "" else [s[0]]) + Unquote(s[1..])
  }

  function NonEmpty(pieces: seq<string>): seq<string> {
    if pieces == [] then [] else Flush(pieces[0]) + NonEmpty(pieces[1..])
  }

  function UnquoteAll(pieces: seq<string>): (r: seq<string>)
    ensures |r| == |pieces|
  {
    if pieces == [] then [] else [Unquote(pieces[0])] + UnquoteAll(pieces[1..])
  }

  function Tokens(line: string): seq<string> {
    NonEmpty(UnquoteAll(Pieces(line, false)))
  }

  // ---------- the loop ----------

  /** What the loop makes of the rest of a line, when `buf` has been read of the current token. */
  function Scan(line: string, buf: string, inQuote: bool): seq<string>
    decreases |line|
  {
    if line == "" then Flush(buf)
    else
      var c := line[0];
      if c == '"' then Scan(line[1..], buf, !inQuote)
      else if !inQuote && IsBlank(c) then Flush(buf) + Scan(line[1..], "", false)
      else Scan(line[1..], buf + [c], inQuote)
  }

  lemma UnquoteFirst(c: char, s: string)
    ensures Unquote([c] + s) == if c == '"' then Unquote(s) else [c] + Unquote(s)
  {
    assert ([c] + s)[1..] == s;
  }

  /** The loop and the reference agree, from any point of the line. */
  lemma {:induction false} ScanIsReference(line: string, buf: string, inQuote: bool)
    ensures var pieces := UnquoteAll(Pieces(line, inQuote));
            Scan(line, buf, inQuote) == Flush(buf + pieces[0]) + NonEmpty(pieces[1..])
    decreases |line|
  {
    if line == "" {
      assert UnquoteAll([""]) == [""];
      assert buf + "" == buf;
    } else if !inQuote && IsBlank(line[0]) {
      ScanIsReference(line[1..], "", false);
      var more := UnquoteAll(Pieces(line[1..], false));
      assert UnquoteAll(Pieces(line, inQuote)) == [""] + more;
      assert buf + "" == buf && "" + more[0] == more[0];
    } else {
      var c := line[0];
      var inside := if c == '"' then !inQuote else inQuote;
      ScanIsReference(line[1..], if c == '"' then buf else buf + [c], inside);
      var more := Pieces(line[1..], inside);
      UnquoteFirst(c, more[0]);
      assert Pieces(line, inQuote)[1..] == more[1..];
      Reassociate(buf, [c], Unquote(more[0]));
    }
  }

  lemma ScanIsTokens(line: string)
    ensures Scan(line, "", false) == Tokens(line)
  {
    ScanIsReference(line, "", false);
    var pieces := UnquoteAll(Pieces(line, false));
    assert "" + pieces[0] == pieces[0];
  }

  /** parseArgs: a byte loop over a buffer, an in-quote flag and the list of arguments. */
  method ParseArgs(line: string) returns (args: seq<string>)
    ensures args == Tokens(line)
  {
    args := [];
    var buf := "";
    var inQuote := false;
    assert line[0..] == line;
    for i := 0 to |line|
      invariant Scan(line, "", false) == args + Scan(line[i..], buf, inQuote)
    {
      assert line[i..][0] == line[i] && line[i..][1..] == line[i + 1..];
      var c := line[i];
      if c == '"' {
        inQuote := !inQuote;
      } else if inQuote {
        buf := buf + [c];
      } else if c == ' ' || c == '\t' {
        if |buf| > 0 {
          args := args + [buf];
          buf := "";
        }
      } else {
        buf := buf + [c];
      }
    }
    assert line[|line|..] == "";
    if |buf| > 0 {
      args := args + [buf];
    }
    ScanIsTokens(line);
  }

  // ---------- what the tokens are ----------

  /** The bytes of a line other than quotes and unquoted blanks. */
  function Kept(line: string, inQuote: bool): string {
    if line == "" then ""
    else if line[0] == '"' then Kept(line[1..], !inQuote)
    else if !inQuote && (line[0] == ' ' || line[0] == '\t') then Kept(line[1..], false)
    else [line[0]] + Kept(line[1..], inQuote)
  }

  lemma {:induction false} ConcatFlush(buf: string, tokens: seq<string>)
    ensures Concat(Flush(buf) + tokens) == buf + Concat(tokens)
  {
    if buf == "" {
      assert Flush(buf) + tokens == tokens;
    } else {
      assert (Flush(buf) + tokens)[1..] == tokens;
    }
  }

  lemma Reassociate(a: string, b: string, c: string)
    ensures a + b + c == a + (b + c)
  {
  }

  predicate KeepsBytes(line: string, buf: string, inQuote: bool) {
    Concat(Scan(line, buf, inQuote)) == buf + Kept(line, inQuote)
  }

  lemma BlankKeepsBytes(line: string, buf: string)
    requires line != "" && line[0] != '"' && IsBlank(line[0]) && KeepsBytes(line[1..], "", false)
    ensures KeepsBytes(line, buf, false)
  {
    ConcatFlush(buf, Scan(line[1..], "", false));
    assert "" + Kept(line[1..], false) == Kept(line, false);
  }

  lemma ByteKeepsBytes(line: string, buf: string, inQuote: bool)
    requires line != "" && line[0] != '"' && (inQuote || !IsBlank(line[0]))
    requires KeepsBytes(line[1..], buf + [line[0]], inQuote)
    ensures KeepsBytes(line, buf, inQuote)
  {
    Reassociate(buf, [line[0]], Kept(line[1..], inQuote));
  }

  lemma {:induction false} ScanKeepsBytes(line: string, buf: string, inQuote: bool)
    ensures KeepsBytes(line, buf, inQuote)
    decreases |line|
  {
    if line == "" {
      ConcatFlush(buf, []);
      assert Flush(buf) + [] == Flush(buf);
    } else if line[0] == '"' {
      ScanKeepsBytes(line[1..], buf, !inQuote);
    } else if !inQuote && IsBlank(line[0]) {
      ScanKeepsBytes(line[1..], "", false);
      BlankKeepsBytes(line, buf);
    } else {
      ScanKeepsBytes(line[1..], buf + [line[0]], inQuote);
      ByteKeepsBytes(line, buf, inQuote);
    }
  }

  lemma {:induction false} NonEmptyHasNoEmpty(pieces: seq<string>)
    ensures forall t :: t in NonEmpty(pieces) ==> t != ""
  {
    if pieces != [] {
      NonEmptyHasNoEmpty(pieces[1..]);
    }
  }

  /** For every line, no token is empty, and the tokens together are the line without its quotes and
      unquoted blanks. */
  lemma TokensKeepBytes(line: string)
    ensures forall t :: t in Tokens(line) ==> t != ""
    ensures Concat(Tokens(line)) == Kept(line, false)
  {
    NonEmptyHasNoEmpty(UnquoteAll(Pieces(line, false)));
    ScanKeepsBytes(line, "", false);
    ScanIsTokens(line);
  }

  // ---------- two laws that determine the tokens ----------

  predicate EndsInQuote(line: string, inQuote: bool) {
    if line == "" then inQuote else EndsInQuote(line[1..], if line[0] == '"' then !inQuote else inQuote)
  }

  lemma {:induction false} QuotesAlternate(line: string, inQuote: bool)
    ensures EndsInQuote(line, inQuote) <==> (multiset(line)['"'] % 2 == 1) != inQuote
  {
    if line != "" {
      QuotesAlternate(line[1..], if line[0] == '"' then !inQuote else inQuote);
      assert line == [line[0]] + line[1..];
    }
  }

  lemma {:induction false} ScanInParts(a: string, c: char, b: string, buf: string, inQuote: bool)
    requires (c == ' ' || c == '\t') && !EndsInQuote(a, inQuote)
    ensures Scan(a + ([c] + b), buf, inQuote) == Scan(a, buf, inQuote) + Scan(b, "", false)
    decreases |a|
  {
    var line := a + ([c] + b);
    if a == "" {
      assert line[0] == c && line[1..] == b;
    } else {
      assert line[0] == a[0] && line[1..] == a[1..] + ([c] + b);
      if a[0] == '"' {
        ScanInParts(a[1..], c, b, buf, !inQuote);
      } else if !inQuote && IsBlank(a[0]) {
        ScanInParts(a[1..], c, b, "", false);
      } else {
        ScanInParts(a[1..], c, b, buf + [a[0]], inQuote);
      }
    }
  }

  /** A blank or tab after an even number of quotes separates. */
  lemma TokensInParts(a: string, c: char, b: string)
    requires (c == ' ' || c == '\t') && multiset(a)['"'] % 2 == 0
    ensures Tokens(a + ([c] + b)) == Tokens(a) + Tokens(b)
  {
    QuotesAlternate(a, false);
    ScanInParts(a, c, b, "", false);
    ScanIsTokens(a + ([c] + b));
    ScanIsTokens(a);
    ScanIsTokens(b);
  }

  /** A blank or tab stands outside quotes. */
  predicate HasOpenBlank(line: string, inQuote: bool) {
    line != "" &&
    if line[0] == '"' then HasOpenBlank(line[1..], !inQuote)
    else (!inQuote && (line[0] == ' ' || line[0] == '\t')) || HasOpenBlank(line[1..], inQuote)
  }

  lemma {:induction false} ScanOfOne(line: string, buf: string, inQuote: bool)
    requires !HasOpenBlank(line, inQuote)
    ensures Scan(line, buf, inQuote) == Flush(buf + Kept(line, inQuote))
    decreases |line|
  {
    if line == "" {
      assert buf + "" == buf;
    } else if line[0] == '"' {
      ScanOfOne(line[1..], buf, !inQuote);
    } else {
      ScanOfOne(line[1..], buf + [line[0]], inQuote);
      Reassociate(buf, [line[0]], Kept(line[1..], inQuote));
    }
  }

  /** Without such a separator the line is one token, without its quotes, or none if that is empty. */
  lemma TokensOfOne(line: string)
    requires !HasOpenBlank(line, false)
    ensures Tokens(line) == if Kept(line, false) == "" then [] else [Kept(line, false)]
  {
    ScanOfOne(line, "", false);
    ScanIsTokens(line);
    assert "" + Kept(line, false) == Kept(line, false);
  }

  // ---------- quoting and parsing ----------

  function QuoteJoin(args: seq<string>): string {
    if args == [] then ""
    else if |args| == 1 then "\"" + args[0] + "\""
    else "\"" + args[0] + "\"" + " " + QuoteJoin(args[1..])
  }

  lemma {:induction false} InsideQuotes(a: string, rest: string, buf: string)
    requires '"' !in a
    ensures Scan(a + "\"" + rest, buf, true) == Scan(rest, buf + a, false)
    decreases |a|
  {
    var line := a + "\"" + rest;
    if a == "" {
      assert line[1..] == rest && buf + a == buf;
    } else {
      assert line[0] == a[0] && line[1..] == a[1..] + "\"" + rest;
      InsideQuotes(a[1..], rest, buf + [a[0]]);
      assert buf + [a[0]] + a[1..] == buf + a;
    }
  }

  /** Quoting each argument, joining with blanks and parsing gives the arguments back, for every list
      without double quotes; only empty arguments are lost. */
  lemma {:induction false} QuotedRoundTrip(args: seq<string>)
    requires forall a :: a in args ==> '"' !in a
    ensures Tokens(QuoteJoin(args)) == NonEmpty(args)
    decreases |args|, 0
  {
    ScanIsTokens(QuoteJoin(args));
    if args != [] {
      assert args[0] in args;
      var line := QuoteJoin(args);
      var tail := if |args| == 1 then "" else " " + QuoteJoin(args[1..]);
      assert line == "\"" + (args[0] + "\"" + tail);
      assert line[1..] == args[0] + "\"" + tail;
      InsideQuotes(args[0], tail, "");
      assert "" + args[0] == args[0];
      AfterArgument(args[0], args[1..], tail);
    }
  }

  lemma AfterArgument(a: string, args: seq<string>, tail: string)
    requires forall x :: x in args ==> '"' !in x
    requires tail == if args == [] then "" else " " + QuoteJoin(args)
    ensures Scan(tail, a, false) == Flush(a) + NonEmpty(args)
    decreases |args|, 1
  {
    if args != [] {
      assert tail[1..] == QuoteJoin(args);
      ScanIsTokens(QuoteJoin(args));
      QuotedRoundTrip(args);
    }
  }

  lemma {:induction false} NonEmptyKeepsAll(args: seq<string>)
    ensures |NonEmpty(args)| <= |args|
    ensures NonEmpty(args) == args <==> "" !in args
  {
    if args != [] {
      NonEmptyKeepsAll(args[1..]);
      assert args == [args[0]] + args[1..];
      assert "" in args <==> args[0] == "" || "" in args[1..];
      if args[0] != "" {
        assert NonEmpty(args)[1..] == NonEmpty(args[1..]);
      }
    }
  }

  /** The round trip is exact if and only if no argument is empty. */
  lemma RoundTripExactly(args: seq<string>)
    requires forall a :: a in args ==> '"' !in a
    ensures Tokens(QuoteJoin(args)) == args <==> "" !in args
  {
    QuotedRoundTrip(args);
    NonEmptyKeepsAll(args);
  }
}
