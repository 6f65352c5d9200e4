/** The search_files step: an early-stopping scan over files, capped in size. Strings are byte strings;
    the directory walk with its filters is the list of files it visits. */
module SearchFiles {
  import opened Decimal
  import opened Strings

  /** A visited file. A file that cannot be opened is skipped. */
  datatype File = File(rel: string, openable: bool, lines: seq<string>)

  const MAX_LINE: nat := 64 * 1024

  predicate Fits(line: string) {
    |line| < MAX_LINE
  }

  const MARKER := "...[truncated]"

  function CapString(s: string, cap: int): string {
    if cap <= 0 || |s| <= cap then s else s[..cap] + "\n" + MARKER
  }

  // ---------- what there is to find ----------

  type Pattern = string -> bool

  function Entry(rel: string, number: nat, line: string): string {
    rel + ":" + Digits(number) + ":" + line + "\n"
  }

  /** The matches in the first `n` lines, in order. */
  function Entries(re: Pattern, f: File, n: nat): seq<string>
    requires n <= |f.lines|
  {
    if n == 0 then []
    else if re(f.lines[n - 1]) then Entries(re, f, n - 1) + [Entry(f.rel, n, f.lines[n - 1])]
    else Entries(re, f, n - 1)
  }

  /** How many lines the scanner delivers: all, or those before the first line that is too long. */
  function Readable(lines: seq<string>): (n: nat)
    ensures n <= |lines|
    ensures n < |lines| ==> !Fits(lines[n])
    ensures forall i :: 0 <= i < n ==> Fits(lines[i])
  {
    if lines == [] || !Fits(lines[0]) then 0 else 1 + Readable(lines[1..])
  }

  function FileEntries(re: Pattern, f: File): seq<string> {
    if f.openable then Entries(re, f, Readable(f.lines)) else []
  }

  predicate Broken(f: File) {
    f.openable && Readable(f.lines) < |f.lines|
  }

  /** A file breaks the search if it can be opened and has a line of 64 KiB or more. */
  lemma BrokenMeans(f: File)
    ensures Broken(f) <==> f.openable && exists i :: 0 <= i < |f.lines| && |f.lines[i]| >= 65536
  {
  }

  /** The entries are the matching lines in order, each as path, line number and text. */
  lemma {:induction false} EntriesMean(re: Pattern, f: File, n: nat) returns (at: seq<nat>)
    requires n <= |f.lines|
    ensures |at| == |Entries(re, f, n)|
    ensures forall k :: 0 <= k < |at| ==> at[k] < n
    ensures forall j, k :: 0 <= j < k < |at| ==> at[j] < at[k]
    ensures forall i :: 0 <= i < n ==> (i in at <==> re(f.lines[i]))
    ensures forall k :: 0 <= k < |at| ==>
              Entries(re, f, n)[k] == f.rel + ":" + Digits(at[k] + 1) + ":" + f.lines[at[k]] + "\n"
  {
    at := [];
    if n > 0 {
      at := EntriesMean(re, f, n - 1);
      if re(f.lines[n - 1]) {
        at := at + [n - 1];
      }
    }
  }

  /** A file that cannot be opened has no entries; one whose lines fit has those of all its lines. */
  lemma FileEntriesMean(re: Pattern, f: File)
    ensures !f.openable ==> FileEntries(re, f) == []
    ensures f.openable && (forall i :: 0 <= i < |f.lines| ==> |f.lines[i]| < 65536) ==>
              FileEntries(re, f) == Entries(re, f, |f.lines|)
  {
  }

  function AllEntries(re: Pattern, files: seq<File>): seq<string> {
    if files == [] then [] else FileEntries(re, files[0]) + AllEntries(re, files[1..])
  }

  // ---------- the early-stopping scan ----------

  /** Appends entries until the text is long enough, then the marker. */
  function Gather(out: string, entries: seq<string>, cap: int): (string, bool)
    decreases |entries|
  {
    if entries == [] then (out, false)
    else
      var more := out + entries[0];
      if |more| >= cap then (more + MARKER, true) else Gather(more, entries[1..], cap)
  }

  lemma {:induction false} GatherInParts(out: string, a: seq<string>, b: seq<string>, cap: int)
    ensures var (mid, stopped) := Gather(out, a, cap);
            Gather(out, a + b, cap) == if stopped then (mid, true) else Gather(mid, b, cap)
    decreases |a|
  {
    if a == [] {
      assert a + b == b;
    } else {
      assert (a + b)[1..] == a[1..] + b;
      GatherInParts(out + a[0], a[1..], b, cap);
    }
  }

  /** searchFilesScanFile. */
  method ScanFile(re: Pattern, f: File, cap: int, before: string) returns (out: string, truncated: bool, failed: bool)
    ensures (out, truncated) == Gather(before, FileEntries(re, f), cap)
    ensures failed <==> !truncated && Broken(f)
  {
    out, truncated, failed := before, false, false;
    if !f.openable {
      return;
    }
    ghost var n := Readable(f.lines);
    var lineNum := 0;
    while lineNum < |f.lines| && Fits(f.lines[lineNum])
      invariant lineNum <= n
      invariant (out, false) == Gather(before, Entries(re, f, lineNum), cap)
    {
      lineNum := lineNum + 1;
      var line := f.lines[lineNum - 1];
      if re(line) {
        var e := Entry(f.rel, lineNum, line);
        GatherInParts(before, Entries(re, f, lineNum - 1), [e], cap);
        out := out + e;
        if |out| >= cap {
          out := out + MARKER;
          StoppedStaysStopped(re, f, before, cap, lineNum, n);
          return out, true, false;
        }
      }
    }
    failed := lineNum < |f.lines|;
  }

  /** Lines after the one that stopped the scan do not matter. */
  lemma {:induction false} StoppedStaysStopped(re: Pattern, f: File, before: string, cap: int, m: nat, n: nat)
    requires m <= n <= |f.lines|
    requires Gather(before, Entries(re, f, m), cap).1
    ensures Gather(before, Entries(re, f, n), cap) == Gather(before, Entries(re, f, m), cap)
    decreases n
  {
    if m < n {
      StoppedStaysStopped(re, f, before, cap, m, n - 1);
      if re(f.lines[n - 1]) {
        GatherInParts(before, Entries(re, f, n - 1), [Entry(f.rel, n, f.lines[n - 1])], cap);
      }
    }
  }

  datatype Outcome = Success(output: string) | Failed

  lemma {:induction false} EntriesInParts(re: Pattern, a: seq<File>, b: seq<File>)
    ensures AllEntries(re, a + b) == AllEntries(re, a) + AllEntries(re, b)
    decreases |a|
  {
    if a == [] {
      assert a + b == b;
    } else {
      assert (a + b)[1..] == a[1..] + b;
      EntriesInParts(re, a[1..], b);
    }
  }

  /** What has been gathered after the first `n` files, and whether the search was stopped there. */
  function After(re: Pattern, files: seq<File>, n: nat, cap: int): (string, bool)
    requires n <= |files|
  {
    Gather("", AllEntries(re, files[..n]), cap)
  }

  lemma AfterNext(re: Pattern, files: seq<File>, n: nat, cap: int)
    requires n < |files| && !After(re, files, n, cap).1
    ensures After(re, files, n + 1, cap) == Gather(After(re, files, n, cap).0, FileEntries(re, files[n]), cap)
  {
    assert files[..n + 1] == files[..n] + [files[n]];
    EntriesInParts(re, files[..n], [files[n]]);
    assert AllEntries(re, [files[n]]) == FileEntries(re, files[n]);
    GatherInParts("", AllEntries(re, files[..n]), FileEntries(re, files[n]), cap);
  }

  predicate Stopped(re: Pattern, files: seq<File>, n: nat, cap: int)
    requires n <= |files|
  {
    After(re, files, n, cap).1
  }

  lemma StaysStopped(re: Pattern, files: seq<File>, m: nat, n: nat, cap: int)
    requires m <= n <= |files| && Stopped(re, files, m, cap)
    ensures Stopped(re, files, n, cap)
  {
    StoppedForGood(re, files, m, n, cap);
  }

  /** Files after the one in which the search stopped do not matter. */
  lemma StoppedForGood(re: Pattern, files: seq<File>, m: nat, n: nat, cap: int)
    requires m <= n <= |files| && After(re, files, m, cap).1
    ensures After(re, files, n, cap) == After(re, files, m, cap)
  {
    assert files[..n] == files[..m] + files[m..n];
    EntriesInParts(re, files[..m], files[m..n]);
    GatherInParts("", AllEntries(re, files[..m]), AllEntries(re, files[m..n]), cap);
  }

  /** File `i` has an overlong line, and the search was not stopped in or before that file. */
  predicate FailsAt(re: Pattern, files: seq<File>, cap: int, i: nat) {
    i < |files| && Broken(files[i]) && !Stopped(re, files, i + 1, cap)
  }

  predicate Fails(re: Pattern, files: seq<File>, cap: int) {
    exists i :: 0 <= i < |files| && FailsAt(re, files, cap, i)
  }

  predicate NoneBroken(files: seq<File>, n: nat)
    requires n <= |files|
  {
    forall k :: 0 <= k < n ==> !Broken(files[k])
  }

  /** The search stops in file `m` and has met no overlong line before: it does not fail. */
  lemma StoppedDoesNotFail(re: Pattern, files: seq<File>, m: nat, cap: int)
    requires m < |files| && Stopped(re, files, m + 1, cap) && NoneBroken(files, m)
    ensures !Fails(re, files, cap)
  {
    forall i | 0 <= i < |files|
      ensures !FailsAt(re, files, cap, i)
    {
      if m <= i {
        StaysStopped(re, files, m + 1, i + 1, cap);
      }
    }
  }

  lemma AfterAll(re: Pattern, files: seq<File>, cap: int)
    ensures After(re, files, |files|, cap) == Gather("", AllEntries(re, files), cap)
  {
    assert files[..|files|] == files;
  }

  /** searchFilesStep: walk the files, stop everything once truncated, fail on a scanner error. */
  method Search(re: Pattern, files: seq<File>, cap: int) returns (r: Outcome)
    ensures r.Failed? <==> Fails(re, files, cap)
    ensures r.Success? ==> r.output == CapString(Gather("", AllEntries(re, files), cap).0, cap)
  {
    AfterAll(re, files, cap);
    var out := "";
    var i := 0;
    while i < |files|
      invariant i <= |files|
      invariant (out, false) == After(re, files, i, cap)
      invariant NoneBroken(files, i)
    {
      var truncated, failed;
      AfterNext(re, files, i, cap);
      out, truncated, failed := ScanFile(re, files[i], cap, out);
      if truncated {
        StoppedDoesNotFail(re, files, i, cap);
        StoppedForGood(re, files, i + 1, |files|, cap);
        return Success(CapString(out, cap));
      }
      if failed {
        assert FailsAt(re, files, cap, i);
        return Failed;
      }
      i := i + 1;
    }
    return Success(CapString(out, cap));
  }

  // ---------- it refines "collect everything, then cap" ----------

  /** The result as a function of the whole text. */
  function Expected(full: string, cap: int): string
    requires cap > 0
  {
    if |full| < cap then full else full[..cap] + "\n" + MARKER
  }

  lemma ExpectedMeans(full: string, cap: int)
    requires cap > 0
    ensures Expected(full, cap) == if |full| < cap then full else full[..cap] + "\n...[truncated]"
  {
    assert "\n" + MARKER == "\n...[truncated]";
    if |full| >= cap {
      assert full[..cap] + "\n" + MARKER == full[..cap] + ("\n" + MARKER);
    }
  }

  lemma {:induction false} GatherIsPrefix(out: string, entries: seq<string>, cap: int)
    requires 0 < cap && |out| < cap
    ensures var (text, stopped) := Gather(out, entries, cap); var full := out + Concat(entries);
            && (stopped <==> |full| >= cap && entries != [])
            && (!stopped ==> text == full)
            && (stopped ==> |text| > cap && text[..cap] == full[..cap])
    decreases |entries|
  {
    if entries == [] {
      assert out + "" == out;
    } else {
      var more := out + entries[0];
      assert out + Concat(entries) == more + Concat(entries[1..]);
      if |more| >= cap {
        assert (more + MARKER)[..cap] == more[..cap] == (more + Concat(entries[1..]))[..cap];
      } else {
        GatherIsPrefix(more, entries[1..], cap);
      }
    }
  }

  /** For every list of files whose lines fit and every positive cap, the early-stopping output is the
      full match text if that is shorter than the cap, and otherwise its first `cap` bytes followed by
      the marker. */
  lemma EarlyStopRefinesFullScan(re: Pattern, files: seq<File>, cap: int)
    requires cap > 0
    ensures var full := Concat(AllEntries(re, files));
            CapString(Gather("", AllEntries(re, files), cap).0, cap)
            == if |full| < cap then full else full[..cap] + "\n...[truncated]"
  {
    ExpectedMeans(Concat(AllEntries(re, files)), cap);
    var entries := AllEntries(re, files);
    GatherIsPrefix("", entries, cap);
    assert "" + Concat(entries) == Concat(entries);
  }

  /** It agrees with capping the full text except when that text is exactly as long as the cap: then it
      is complete and still gets the marker. The output never exceeds the cap by more than 15 bytes. */
  lemma DiffersOnlyAtExactCap(full: string, cap: int)
    requires cap > 0
    ensures CapString(full, cap) == if |full| <= cap then full else full[..cap] + "\n...[truncated]"
    ensures Expected(full, cap) == CapString(full, cap) <==> |full| != cap
    ensures |full| == cap ==> Expected(full, cap) == CapString(full, cap) + "\n" + MARKER
    ensures |Expected(full, cap)| <= cap + 15
  {
    assert "\n" + MARKER == "\n...[truncated]";
    if |full| == cap {
      assert full[..cap] == full;
      assert |Expected(full, cap)| > |full|;
    }
  }

  /** Without a positive cap the scan stops at the first match and never cuts it. */
  lemma NonPositiveCap(re: Pattern, files: seq<File>, cap: int)
    requires cap <= 0
    ensures var entries := AllEntries(re, files);
            CapString(Gather("", entries, cap).0, cap) == if entries == [] then "" else entries[0] + "...[truncated]"
  {
    var entries := AllEntries(re, files);
    if entries != [] {
      assert "" + entries[0] == entries[0];
    }
  }
}
