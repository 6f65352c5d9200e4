/** Task naming: the normaliser and the "append -n until free" loop of the task table. */
module TaskNames {
  import opened Decimal
  import opened Strings

  // ---------- the runes the normaliser looks at ----------

  predicate IsSlugChar(c: char) {
    'a' <= c <= 'z' || '0' <= c <= '9'
  }

  /** Lower case, for one rune. Outside A-Z only the dotted capital I and the Kelvin sign become a
      letter a-z; every other rune becomes (or stays) one that the next step replaces by a dash. */
  function LowerRune(c: char): char {
    if 'A' <= c <= 'Z' then c + 32 as char
    else if c == '\U{130}' then 'i'
    else if c == '\U{212A}' then 'k'
    else c
  }

  function Lower(s: string): (r: string)
    ensures |r| == |s|
    ensures forall i :: 0 <= i < |s| ==> r[i] == LowerRune(s[i])
  {
    seq(|s|, i requires 0 <= i < |s| => LowerRune(s[i]))
  }

  // ---------- the library steps ----------

  const Dash: char -> bool := c => c == '-'

  /** Replaces each maximal run of runes outside [a-z0-9] by one dash; `inRun` says that the rune
      before `s` was already part of such a run. */
  function DashRuns(s: string, inRun: bool): string {
    if s == "" then ""
    else if IsSlugChar(s[0]) then [s[0]] + DashRuns(s[1..], false)
    else if inRun then DashRuns(s[1..], true)
    else "-" + DashRuns(s[1..], true)
  }

  /** "--" does not occur in `s`. */
  predicate SingleDashes(s: string) {
    forall i :: 0 < i < |s| && s[i - 1] == '-' ==> s[i] != '-'
  }

  lemma SliceHasSingleDashes(s: string, lo: nat, hi: nat)
    requires lo <= hi <= |s|
    requires SingleDashes(s)
    ensures SingleDashes(s[lo..hi])
  {
    var t := s[lo..hi];
    forall i | 0 < i < |t| && t[i - 1] == '-'
      ensures t[i] != '-'
    {
      assert t[i - 1] == s[lo + i - 1] && t[i] == s[lo + i];
    }
  }

  /** Replaces "--" by "-" once, left to right, without overlaps. */
  function CollapsePairs(s: string): string {
    if s == "" then ""
    else if |s| >= 2 && s[0] == '-' && s[1] == '-' then "-" + CollapsePairs(s[2..])
    else [s[0]] + CollapsePairs(s[1..])
  }

  // ---------- the reference: words joined by single dashes ----------

  /** The maximal runs of [a-z0-9] in `word + s`, where `word` is the run being read. */
  function Words(s: string, word: string): seq<string> {
    if s == "" then Flush(word)
    else if IsSlugChar(s[0]) then Words(s[1..], word + [s[0]])
    else Flush(word) + Words(s[1..], "")
  }

  function Join(words: seq<string>): string {
    if |words| == 0 then ""
    else if |words| == 1 then words[0]
    else words[0] + "-" + Join(words[1..])
  }

  /** What the normaliser should produce, said without its steps. */
  function Slug(name: string): string {
    Join(Words(Lower(name), ""))
  }

  /** Slug runes and dashes only, with no dash at either end. */
  predicate DashForm(s: string) {
    && (forall i :: 0 <= i < |s| ==> IsSlugChar(s[i]) || s[i] == '-')
    && (s != "" ==> s[0] != '-' && s[|s| - 1] != '-')
  }

  /** Empty, or runs of [a-z0-9] joined by single dashes. */
  predicate Canonical(s: string) {
    DashForm(s) && SingleDashes(s)
  }

  // ---------- each step keeps the words ----------

  lemma {:induction false} TrailingKeepsWords(s: string, c: char, word: string)
    requires !IsSlugChar(c)
    ensures Words(s + [c], word) == Words(s, word)
  {
    if s == "" {
      assert (s + [c])[1..] == "";
    } else {
      assert (s + [c])[1..] == s[1..] + [c];
      if IsSlugChar(s[0]) {
        TrailingKeepsWords(s[1..], c, word + [s[0]]);
      } else {
        TrailingKeepsWords(s[1..], c, "");
      }
    }
  }

  lemma {:induction false} TrimLeftKeepsWords(s: string, cut: char -> bool)
    requires forall c :: cut(c) ==> !IsSlugChar(c)
    ensures Words(TrimLeft(s, cut), "") == Words(s, "")
  {
    if s != "" && cut(s[0]) {
      TrimLeftKeepsWords(s[1..], cut);
    }
  }

  lemma {:induction false} TrimRightKeepsWords(s: string, cut: char -> bool)
    requires forall c :: cut(c) ==> !IsSlugChar(c)
    ensures Words(TrimRight(s, cut), "") == Words(s, "")
  {
    if s != "" && cut(s[|s| - 1]) {
      var t := s[..|s| - 1];
      TrimRightKeepsWords(t, cut);
      TrailingKeepsWords(t, s[|s| - 1], "");
      assert s == t + [s[|s| - 1]];
    }
  }

  lemma TrimKeepsWords(s: string, cut: char -> bool)
    requires forall c :: cut(c) ==> !IsSlugChar(c)
    ensures Words(Trim(s, cut), "") == Words(s, "")
  {
    TrimLeftKeepsWords(s, cut);
    TrimRightKeepsWords(TrimLeft(s, cut), cut);
  }

  lemma {:induction false} DashRunsKeepsWords(s: string, inRun: bool, word: string)
    requires inRun ==> word == ""
    ensures Words(DashRuns(s, inRun), word) == Words(s, word)
  {
    if s == "" {
    } else if IsSlugChar(s[0]) {
      DashRunsKeepsWords(s[1..], false, word + [s[0]]);
      assert DashRuns(s, inRun)[1..] == DashRuns(s[1..], false);
    } else {
      DashRunsKeepsWords(s[1..], true, "");
      if !inRun {
        assert DashRuns(s, inRun)[1..] == DashRuns(s[1..], true);
      }
    }
  }

  lemma {:induction false} CollapseKeepsWords(s: string, word: string)
    ensures Words(CollapsePairs(s), word) == Words(s, word)
  {
    if s == "" {
    } else if |s| >= 2 && s[0] == '-' && s[1] == '-' {
      CollapseKeepsWords(s[2..], "");
      assert CollapsePairs(s)[1..] == CollapsePairs(s[2..]);
      assert s[1..][1..] == s[2..];
    } else {
      assert CollapsePairs(s)[1..] == CollapsePairs(s[1..]);
      CollapseKeepsWords(s[1..], if IsSlugChar(s[0]) then word + [s[0]] else "");
    }
  }

  /** Trimming blanks before lowering is the same, for the words, as not trimming at all. */
  lemma TrimSpaceKeepsWords(s: string)
    ensures Words(Lower(Trim(s, IsSpace)), "") == Words(Lower(s), "")
  {
    LowerTrimLeft(s);
    LowerTrimRight(TrimLeft(s, IsSpace));
  }

  lemma SpaceIsNoSlugChar(c: char)
    requires IsSpace(c)
    ensures !IsSlugChar(LowerRune(c))
  {
  }

  lemma LowerInit(s: string)
    requires s != ""
    ensures Lower(s) == Lower(s[..|s| - 1]) + [LowerRune(s[|s| - 1])]
  {
  }

  lemma {:induction false} LowerTrimLeft(s: string)
    ensures Words(Lower(TrimLeft(s, IsSpace)), "") == Words(Lower(s), "")
  {
    if s != "" && IsSpace(s[0]) {
      LowerTrimLeft(s[1..]);
      assert Lower(s)[1..] == Lower(s[1..]);
      SpaceIsNoSlugChar(s[0]);
    }
  }

  lemma {:induction false} LowerTrimRight(s: string)
    ensures Words(Lower(TrimRight(s, IsSpace)), "") == Words(Lower(s), "")
  {
    if s != "" && IsSpace(s[|s| - 1]) {
      var t := s[..|s| - 1];
      LowerTrimRight(t);
      LowerInit(s);
      SpaceIsNoSlugChar(s[|s| - 1]);
      TrailingKeepsWords(Lower(t), LowerRune(s[|s| - 1]), "");
    }
  }

  // ---------- each step moves towards the canonical form ----------

  lemma {:induction false} DashRunsShape(s: string, inRun: bool)
    ensures var r := DashRuns(s, inRun);
            && (forall i :: 0 <= i < |r| ==> IsSlugChar(r[i]) || r[i] == '-')
            && SingleDashes(r)
            && (inRun && r != "" ==> r[0] != '-')
  {
    if s != "" {
      DashRunsShape(s[1..], !IsSlugChar(s[0]));
    }
  }

  /** Slug runes and dashes only, and no "--". */
  predicate Dashed(s: string) {
    && (forall i :: 0 <= i < |s| ==> IsSlugChar(s[i]) || s[i] == '-')
    && SingleDashes(s)
  }

  lemma {:induction false} TrimLeftShape(s: string)
    requires Dashed(s)
    ensures var r := TrimLeft(s, Dash); Dashed(r) && (r != "" ==> r[0] != '-')
  {
    if s != "" && s[0] == '-' {
      SliceHasSingleDashes(s, 1, |s|);
      TrimLeftShape(s[1..]);
    }
  }

  lemma {:induction false} TrimRightShape(s: string)
    requires Dashed(s)
    requires s != "" ==> s[0] != '-'
    ensures Canonical(TrimRight(s, Dash))
  {
    if s != "" && s[|s| - 1] == '-' {
      SliceHasSingleDashes(s, 0, |s| - 1);
      assert s[0..|s| - 1] == s[..|s| - 1];
      TrimRightShape(s[..|s| - 1]);
    }
  }

  /** After the regular expression and the trim there is no double dash left to collapse. */
  lemma TrimmedRunsAreCanonical(s: string)
    ensures Canonical(Trim(DashRuns(s, false), Dash))
  {
    DashRunsShape(s, false);
    TrimLeftShape(DashRuns(s, false));
    TrimRightShape(TrimLeft(DashRuns(s, false), Dash));
  }

  lemma {:induction false} CollapseShape(s: string)
    requires forall i :: 0 <= i < |s| ==> IsSlugChar(s[i]) || s[i] == '-'
    ensures forall i :: 0 <= i < |CollapsePairs(s)| ==> IsSlugChar(CollapsePairs(s)[i]) || CollapsePairs(s)[i] == '-'
  {
    if s == "" {
    } else if |s| >= 2 && s[0] == '-' && s[1] == '-' {
      CollapseShape(s[2..]);
    } else {
      CollapseShape(s[1..]);
    }
  }

  lemma {:induction false} CollapseEnds(s: string)
    requires s != ""
    ensures var r := CollapsePairs(s); r != "" && r[0] == s[0] && r[|r| - 1] == s[|s| - 1]
  {
    var k := if |s| >= 2 && s[0] == '-' && s[1] == '-' then 2 else 1;
    if |s| > k {
      CollapseEnds(s[k..]);
      assert s[k..][|s| - k - 1] == s[|s| - 1];
      var rest := CollapsePairs(s[k..]);
      assert CollapsePairs(s) == [s[0]] + rest;
    } else {
      assert s[k..] == "";
    }
  }

  /** A pass of the collapse shortens the string if there was a double dash. */
  lemma {:induction false} CollapseShrinks(s: string)
    ensures |CollapsePairs(s)| <= |s|
    ensures !SingleDashes(s) ==> |CollapsePairs(s)| < |s|
  {
    if s == "" {
    } else if |s| >= 2 && s[0] == '-' && s[1] == '-' {
      CollapseShrinks(s[2..]);
    } else {
      CollapseShrinks(s[1..]);
      if SingleDashes(s[1..]) {
        forall i | 0 < i < |s| && s[i - 1] == '-'
          ensures s[i] != '-'
        {
          assert i > 1 ==> s[1..][i - 2] == '-' && s[1..][i - 1] == s[i];
        }
      }
    }
  }

  lemma AfterDash(word: string, s: string)
    requires Canonical(word + s)
    requires s != "" && s[0] == '-'
    ensures word != "" && |s| > 1 && Canonical(s[1..])
  {
    var all := word + s;
    assert all[|word|] == '-';
    assert all[|all| - 1] == s[|s| - 1];
    assert s[1] == all[|word| + 1];
    assert s[1..] == all[|word| + 1..|all|];
    SliceHasSingleDashes(all, |word| + 1, |all|);
  }

  /** A canonical string is its own words, joined: the two readings of "single dashes" agree. */
  lemma {:induction false} JoinWords(s: string, word: string)
    requires Canonical(word + s)
    requires forall i :: 0 <= i < |word| ==> IsSlugChar(word[i])
    ensures Join(Words(s, word)) == word + s
    ensures word + s != "" ==> Words(s, word) != []
  {
    if s == "" {
      assert word + s == word;
    } else if IsSlugChar(s[0]) {
      assert word + [s[0]] + s[1..] == word + s;
      JoinWords(s[1..], word + [s[0]]);
    } else {
      assert s[0] == (word + s)[|word|];
      AfterDash(word, s);
      assert "" + s[1..] == s[1..];
      JoinWords(s[1..], "");
      JoinAtDash(s, word);
    }
  }

  lemma JoinAtDash(s: string, word: string)
    requires word != "" && s != "" && s[0] == '-'
    requires Words(s[1..], "") != [] && Join(Words(s[1..], "")) == s[1..]
    ensures Words(s, word) == [word] + Words(s[1..], "")
    ensures Join(Words(s, word)) == word + s
  {
    var t := s[1..];
    JoinWithFirst(word, Words(t, ""));
    assert s == "-" + t;
    assert word + s == word + "-" + t;
  }

  lemma JoinWithFirst(word: string, words: seq<string>)
    requires words != []
    ensures Join([word] + words) == word + "-" + Join(words)
  {
    assert ([word] + words)[1..] == words;
  }

  // ---------- the normaliser ----------

  /** normalizeTaskName: trim, lower, replace runs, trim dashes, then collapse while "--" occurs. */
  method NormalizeTaskName(name: string) returns (s: string)
    ensures s == Slug(name)
    ensures Canonical(s)
  {
    s := Trim(name, IsSpace);
    TrimSpaceKeepsWords(name);
    if s == "" {
      assert Lower(s) == "";
      return "";
    }
    s := Lower(s);
    ghost var lowered := s;
    s := DashRuns(s, false);
    DashRunsKeepsWords(lowered, false, "");
    s := Trim(s, Dash);
    TrimKeepsWords(DashRuns(lowered, false), Dash);
    TrimmedRunsAreCanonical(lowered);
    while !SingleDashes(s)
      invariant DashForm(s)
      invariant Words(s, "") == Words(lowered, "")
      decreases |s|
    {
      CollapseKeepsWords(s, "");
      CollapseShape(s);
      CollapseEnds(s);
      CollapseShrinks(s);
      s := CollapsePairs(s);
    }
    assert "" + s == s;
    JoinWords(s, "");
  }

  lemma {:induction false} SlugCharsOfWords(s: string, word: string)
    requires forall i :: 0 <= i < |word| ==> IsSlugChar(word[i])
    ensures forall w :: w in Words(s, word) ==> w != "" && forall i :: 0 <= i < |w| ==> IsSlugChar(w[i])
  {
    if s == "" {
    } else if IsSlugChar(s[0]) {
      SlugCharsOfWords(s[1..], word + [s[0]]);
    } else {
      SlugCharsOfWords(s[1..], "");
    }
  }

  lemma {:induction false} JoinIsCanonical(words: seq<string>)
    requires forall w :: w in words ==> w != "" && forall i :: 0 <= i < |w| ==> IsSlugChar(w[i])
    ensures Canonical(Join(words))
    ensures words != [] ==> Join(words) != ""
  {
    if |words| > 1 {
      var rest := Join(words[1..]);
      JoinIsCanonical(words[1..]);
      var w := words[0];
      assert w in words;
      var r := w + "-" + rest;
      assert forall i :: 0 <= i < |r| ==>
          r[i] == if i < |w| then w[i] else if i == |w| then '-' else rest[i - |w| - 1];
      forall i | 0 < i < |r| && r[i - 1] == '-'
        ensures r[i] != '-'
      {
        assert i > |w| + 1 ==> rest[i - |w| - 2] == '-' && r[i] == rest[i - |w| - 1];
      }
    }
  }

  /** Every slug is canonical, and a canonical string is its own slug. */
  lemma SlugIsCanonical(name: string)
    ensures Canonical(Slug(name))
    ensures Canonical(name) ==> Slug(name) == name
  {
    SlugCharsOfWords(Lower(name), "");
    JoinIsCanonical(Words(Lower(name), ""));
    if Canonical(name) {
      assert Lower(name) == name;
      assert "" + name == name;
      JoinWords(name, "");
    }
  }

  /** Normalising twice changes nothing. */
  lemma SlugIsIdempotent(name: string)
    ensures Slug(Slug(name)) == Slug(name)
  {
    SlugIsCanonical(name);
    SlugIsCanonical(Slug(name));
  }

  /** Before the "--" loop the string is already the slug, so the loop never changes it. */
  lemma CollapseLoopNeverRuns(name: string)
    ensures Trim(DashRuns(Lower(Trim(name, IsSpace)), false), Dash) == Slug(name)
    ensures SingleDashes(Slug(name))
  {
    var lowered := Lower(Trim(name, IsSpace));
    var t := Trim(DashRuns(lowered, false), Dash);
    TrimSpaceKeepsWords(name);
    DashRunsKeepsWords(lowered, false, "");
    TrimKeepsWords(DashRuns(lowered, false), Dash);
    TrimmedRunsAreCanonical(lowered);
    assert "" + t == t;
    JoinWords(t, "");
  }

  // ---------- two laws that determine the slug ----------

  /** The runes that a slug keeps, in lower case. */
  predicate IsKept(c: char) {
    'A' <= c <= 'Z' || 'a' <= c <= 'z' || '0' <= c <= '9' || c == '\U{130}' || c == '\U{212A}'
  }

  lemma {:induction false} WordsOfRun(s: string, word: string)
    requires forall i :: 0 <= i < |s| ==> IsSlugChar(s[i])
    ensures Words(s, word) == Flush(word + s)
  {
    if s == "" {
      assert word + s == word;
    } else {
      WordsOfRun(s[1..], word + [s[0]]);
      assert word + [s[0]] + s[1..] == word + s;
    }
  }

  lemma {:induction false} WordsInParts(a: string, c: char, b: string, word: string)
    requires !IsSlugChar(c)
    ensures Words(a + ([c] + b), word) == Words(a, word) + Words(b, "")
  {
    var s := a + ([c] + b);
    if a == "" {
      assert s[0] == c && s[1..] == b;
    } else {
      assert s[0] == a[0] && s[1..] == a[1..] + ([c] + b);
      WordsInParts(a[1..], c, b, if IsSlugChar(a[0]) then word + [a[0]] else "");
    }
  }

  lemma {:induction false} JoinInParts(a: seq<string>, b: seq<string>)
    ensures Join(a + b) == if a == [] then Join(b) else if b == [] then Join(a) else Join(a) + "-" + Join(b)
  {
    if a == [] {
      assert a + b == b;
    } else if b == [] {
      assert a + b == a;
    } else {
      assert (a + b)[1..] == a[1..] + b;
      JoinInParts(a[1..], b);
      if |a| > 1 {
        assert a[0] + "-" + (Join(a[1..]) + "-" + Join(b)) == a[0] + "-" + Join(a[1..]) + "-" + Join(b);
      }
    }
  }

  /** A name made only of letters and digits becomes itself in lower case. */
  lemma SlugOfWord(name: string)
    requires forall i :: 0 <= i < |name| ==> IsKept(name[i])
    ensures |Slug(name)| == |name|
    ensures forall i :: 0 <= i < |name| ==>
              Slug(name)[i] == if 'A' <= name[i] <= 'Z' then name[i] + 32 as char
                               else if name[i] == '\U{130}' then 'i' else if name[i] == '\U{212A}' then 'k' else name[i]
  {
    WordsOfRun(Lower(name), "");
    assert "" + Lower(name) == Lower(name);
    assert Slug(name) == Lower(name);
  }

  /** Any other rune separates: what is before and after it becomes one slug each, joined by a dash. */
  lemma SlugInParts(a: string, c: char, b: string)
    requires !IsKept(c)
    ensures Slug(a + ([c] + b)) == if Slug(a) == "" then Slug(b) else if Slug(b) == "" then Slug(a)
                                   else Slug(a) + "-" + Slug(b)
  {
    var wa, wb := Words(Lower(a), ""), Words(Lower(b), "");
    assert Lower(a + ([c] + b)) == Lower(a) + ([LowerRune(c)] + Lower(b));
    WordsInParts(Lower(a), LowerRune(c), Lower(b), "");
    JoinInParts(wa, wb);
    SlugCharsOfWords(Lower(a), "");
    SlugCharsOfWords(Lower(b), "");
    JoinIsCanonical(wa);
    JoinIsCanonical(wb);
  }

  // ---------- making a name unique ----------

  /** The k-th name tried: the base itself, then base-2, base-3, ... */
  function Candidate(base: string, k: nat): string {
    if k == 0 then base else base + "-" + Digits(k + 1)
  }

  lemma CandidatesDiffer(base: string, j: nat, k: nat)
    requires j < k
    ensures Candidate(base, j) != Candidate(base, k)
  {
    if j == 0 {
      assert |Candidate(base, k)| > |base|;
    } else {
      assert Candidate(base, j)[|base| + 1..] == Digits(j + 1);
      assert Candidate(base, k)[|base| + 1..] == Digits(k + 1);
      DigitsRoundTrip(j + 1);
      DigitsRoundTrip(k + 1);
    }
  }

  /** Pigeonhole: k distinct names cannot all be taken when fewer than k are. */
  lemma {:induction false} TakenCandidates(base: string, used: set<string>, k: nat)
    requires forall i: nat :: i < k ==> Candidate(base, i) in used
    ensures k <= |used|
  {
    if k > 0 {
      var last := Candidate(base, k - 1);
      forall i: nat | i < k - 1
        ensures Candidate(base, i) in used - {last}
      {
        CandidatesDiffer(base, i, k - 1);
      }
      TakenCandidates(base, used - {last}, k - 1);
    }
  }

  /** The first free candidate from the k-th on; the pigeonhole bound makes the search end. */
  function FirstFree(base: string, used: set<string>, k: nat): (r: string)
    requires forall i: nat :: i < k ==> Candidate(base, i) in used
    ensures r !in used
    ensures exists m: nat :: k <= m <= |used| && r == Candidate(base, m)
              && forall i: nat :: i < m ==> Candidate(base, i) in used
    decreases |used| + 1 - k
  {
    TakenCandidates(base, used, k);
    if Candidate(base, k) in used then
      TakenCandidates(base, used, k + 1);
      FirstFree(base, used, k + 1)
    else Candidate(base, k)
  }

  /** A candidate that is taken leaves a further one to try, within the bound, and the same first free one. */
  lemma NextTry(base: string, used: set<string>, k: nat)
    requires forall i: nat :: i <= k ==> Candidate(base, i) in used
    ensures k < |used|
    ensures FirstFree(base, used, k) == FirstFree(base, used, k + 1)
  {
    TakenCandidates(base, used, k + 1);
  }

  /** The name of an unnamed task: a counter of the user's tasks. */
  function CounterName(n: nat): string {
    "task_name_" + Padded3(n)
  }

  lemma CounterNamesDiffer(m: nat, n: nat)
    requires CounterName(m) == CounterName(n)
    ensures m == n
  {
    assert CounterName(m)[10..] == Padded3(m);
    assert CounterName(n)[10..] == Padded3(n);
    Padded3Injective(m, n);
  }

  predicate NoUnderscore(s: string) {
    forall i :: 0 <= i < |s| ==> s[i] != '_'
  }

  /** Names made from a slug never look like counter names. */
  lemma CandidateHasNoUnderscore(name: string, k: nat)
    ensures NoUnderscore(Candidate(Slug(name), k))
  {
    SlugIsCanonical(name);
    if k > 0 {
      DigitsRoundTrip(k + 1);
    }
  }

  lemma CounterNameHasUnderscore(n: nat)
    ensures !NoUnderscore(CounterName(n))
  {
    assert CounterName(n)[4] == '_';
  }
}
