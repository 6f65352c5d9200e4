/** Resolving a path inside the agent's workspace. Paths are strings; cleaning follows the lexical rules
    of Go's path/filepath on Unix, written on the components between slashes. */
module WorkspacePath {

  // ---------- components ----------

  function Split(s: string): (r: seq<string>)
    ensures r != []
  {
    if s == "" then [""] else Glue(s[0], Split(s[1..]))
  }

  /** The pieces of `c` followed by a string with pieces `rest`. */
  function Glue(c: char, rest: seq<string>): (r: seq<string>)
    requires rest != []
    ensures r != []
  {
    if c == '/' then [""] + rest else [[c] + rest[0]] + rest[1..]
  }

  lemma GlueOntoConcat(c: char, a: seq<string>, b: seq<string>)
    requires a != []
    ensures Glue(c, a + b) == Glue(c, a) + b
  {
    assert (a + b)[1..] == a[1..] + b;
  }

  lemma {:induction false} PiecesHaveNoSlash(s: string)
    ensures forall c :: c in Split(s) ==> '/' !in c
  {
    if s != "" {
      PiecesHaveNoSlash(s[1..]);
    }
  }

  function Join(cs: seq<string>): string {
    if cs == [] then "" else if |cs| == 1 then cs[0] else cs[0] + ("/" + Join(cs[1..]))
  }

  predicate IsRooted(s: string) {
    s != "" && s[0] == '/'
  }

  /** One component of a path, after the components kept so far. */
  function Push(kept: seq<string>, c: string, rooted: bool): seq<string> {
    if c == "" || c == "." then kept
    else if c != ".." then kept + [c]
    else if kept != [] && kept[|kept| - 1] != ".." then kept[..|kept| - 1]
    else if rooted then kept
    else kept + [c]
  }

  function PushAll(kept: seq<string>, cs: seq<string>, rooted: bool): seq<string>
    decreases |cs|
  {
    if cs == [] then kept else PushAll(Push(kept, cs[0], rooted), cs[1..], rooted)
  }

  /** The components of a cleaned path. */
  function Components(path: string): seq<string> {
    PushAll([], Split(path), IsRooted(path))
  }

  function Render(rooted: bool, cs: seq<string>): string {
    if rooted then "/" + Join(cs) else if cs == [] then "." else Join(cs)
  }

  /** filepath.Clean. */
  function Clean(path: string): string {
    Render(IsRooted(path), Components(path))
  }

  /** filepath.Join of two elements. */
  function JoinPaths(a: string, b: string): string {
    if a == "" then (if b == "" then "" else Clean(b)) else Clean(a + ("/" + b))
  }

  function TrimSlash(path: string): string {
    if IsRooted(path) then path[1..] else path
  }

  /** resolveWorkspacePath for an absolute workspace, whose absolute form is its cleaned form; "" stands
      for a rejected path. */
  function Resolve(workspace: string, path: string): string
    requires IsRooted(workspace)
  {
    var p := Clean(TrimSlash(path));
    if p == ".." || "../" <= p then ""
    else
      var full := JoinPaths(workspace, p);
      if Clean(workspace) <= Clean(full) then full else ""
  }

  // ---------- facts about components ----------

  predicate IsPlain(c: string) {
    c != "" && c != "." && c != ".." && '/' !in c
  }

  /** What cleaning can leave: plain components, after some ".." if the path is not rooted. */
  predicate CleanList(cs: seq<string>, rooted: bool) {
    && (forall i :: 0 <= i < |cs| ==> IsPlain(cs[i]) || (cs[i] == ".." && !rooted))
    && (forall i :: 0 < i < |cs| && cs[i] == ".." ==> cs[i - 1] == "..")
  }

  predicate AllPlain(cs: seq<string>) {
    forall i :: 0 <= i < |cs| ==> IsPlain(cs[i])
  }

  lemma {:induction false} PushAllIsClean(kept: seq<string>, cs: seq<string>, rooted: bool)
    requires CleanList(kept, rooted)
    requires forall c :: c in cs ==> '/' !in c
    ensures CleanList(PushAll(kept, cs, rooted), rooted)
    decreases |cs|
  {
    if cs != [] {
      assert cs[0] in cs;
      PushAllIsClean(Push(kept, cs[0], rooted), cs[1..], rooted);
    }
  }

  /** In a cleaned list either the first component is "..", or none is. */
  lemma {:induction false} NoLaterParent(cs: seq<string>, rooted: bool)
    requires CleanList(cs, rooted)
    requires rooted || cs == [] || cs[0] != ".."
    ensures AllPlain(cs)
  {
    if cs != [] {
      var init := cs[..|cs| - 1];
      NoLaterParent(init, rooted);
      assert cs[|cs| - 1] == ".." && |cs| > 1 ==> cs[|cs| - 2] == ".." && init[|cs| - 2] == "..";
    }
  }

  lemma {:induction false} PushAllPlain(kept: seq<string>, cs: seq<string>, rooted: bool)
    requires AllPlain(cs)
    ensures PushAll(kept, cs, rooted) == kept + cs
    decreases |cs|
  {
    if cs != [] {
      PushAllPlain(kept + [cs[0]], cs[1..], rooted);
      assert kept + [cs[0]] + cs[1..] == kept + cs;
    }
  }

  lemma {:induction false} PushAllInParts(kept: seq<string>, a: seq<string>, b: seq<string>, rooted: bool)
    ensures PushAll(kept, a + b, rooted) == PushAll(PushAll(kept, a, rooted), b, rooted)
    decreases |a|
  {
    if a == [] {
      assert a + b == b;
    } else {
      assert (a + b)[1..] == a[1..] + b;
      PushAllInParts(Push(kept, a[0], rooted), a[1..], b, rooted);
    }
  }

  lemma {:induction false} SplitAtSlash(a: string, b: string)
    ensures Split(a + ("/" + b)) == Split(a) + Split(b)
    decreases |a|
  {
    var s := a + ("/" + b);
    if a == "" {
      assert s[1..] == b;
    } else {
      assert s[0] == a[0] && s[1..] == a[1..] + ("/" + b);
      SplitAtSlash(a[1..], b);
      GlueOntoConcat(a[0], Split(a[1..]), Split(b));
    }
  }

  lemma {:induction false} SplitPlain(c: string)
    requires '/' !in c
    ensures Split(c) == [c]
  {
    if c != "" {
      assert c[0] in c;
      SplitPlain(c[1..]);
      assert [c[0]] + c[1..] == c;
    }
  }

  lemma {:induction false} SplitJoin(cs: seq<string>)
    requires cs != [] && forall i :: 0 <= i < |cs| ==> '/' !in cs[i]
    ensures Split(Join(cs)) == cs
  {
    if |cs| == 1 {
      SplitPlain(cs[0]);
      assert cs == [cs[0]];
    } else {
      SplitPlain(cs[0]);
      SplitJoin(cs[1..]);
      SplitAtSlash(cs[0], Join(cs[1..]));
      assert cs == [cs[0]] + cs[1..];
    }
  }

  /** Pushing the pieces of a rendered plain list pushes the list. */
  lemma PushRendered(kept: seq<string>, rooted: bool, cs: seq<string>, under: bool)
    requires AllPlain(cs)
    ensures PushAll(kept, Split(Render(rooted, cs)), under) == kept + cs
  {
    PushAllPlain(kept, cs, under);
    if cs == [] {
      if rooted {
        assert ("/" + Join(cs))[1..] == "";
        assert Split("/" + Join(cs)) == [""] + [""];
        PushAllInParts(kept, [""], [""], under);
      } else {
        SplitPlain(".");
      }
    } else {
      SplitJoin(cs);
      if rooted {
        assert ("/" + Join(cs))[1..] == Join(cs);
        PushAllInParts(kept, [""], cs, under);
        assert PushAll(kept, [""], under) == kept;
      }
    }
  }

  lemma ComponentsAreClean(path: string)
    ensures CleanList(Components(path), IsRooted(path))
  {
    PiecesHaveNoSlash(path);
    PushAllIsClean([], Split(path), IsRooted(path));
  }

  lemma JoinStart(cs: seq<string>)
    requires cs != [] && '/' !in cs[0]
    ensures Join(cs) == ".." || "../" <= Join(cs) <==> cs[0] == ".."
  {
    var s, c := Join(cs), cs[0];
    assert forall i :: 0 <= i < |c| ==> s[i] == c[i] && c[i] in c;
    assert "../" <= s ==> |s| >= 3 && s[0] == '.' && s[1] == '.' && s[2] == '/';
    if |cs| > 1 {
      assert s[|c|] == '/';
      assert c == ".." ==> s[..3] == "../";
      assert "../" <= s ==> |c| == 2;
    }
  }

  /** The textual test for an escaping path means that the first component is "..". */
  lemma EscapeTest(path: string)
    ensures var p := Clean(path);
            p == ".." || "../" <= p <==>
            !IsRooted(path) && Components(path) != [] && Components(path)[0] == ".."
  {
    var cs := Components(path);
    ComponentsAreClean(path);
    if IsRooted(path) {
      assert Clean(path)[0] == '/';
    } else if cs != [] {
      JoinStart(cs);
    }
  }

  lemma {:induction false} JoinPrefix(a: seq<string>, b: seq<string>)
    requires a != []
    ensures Join(a) <= Join(a + b)
  {
    if |a| == 1 {
      if b != [] {
        assert (a + b)[1..] == b;
      } else {
        assert a + b == a;
      }
    } else {
      assert (a + b)[1..] == a[1..] + b;
      JoinPrefix(a[1..], b);
    }
  }

  // ---------- the rules of filepath.Clean, which determine the components ----------

  lemma SplitBetween(a: string, c: string, b: string)
    requires '/' !in c
    ensures Split(a + ("/" + (c + ("/" + b)))) == Split(a) + [c] + Split(b)
    ensures IsRooted(a + ("/" + (c + ("/" + b)))) == IsRooted(a + ("/" + b))
  {
    SplitAtSlash(a, c + ("/" + b));
    SplitAtSlash(c, b);
    SplitPlain(c);
    assert a != "" ==> (a + ("/" + b))[0] == a[0] && (a + ("/" + (c + ("/" + b))))[0] == a[0];
  }

  /** An empty component and "." disappear. */
  lemma DotDisappears(a: string, c: string, b: string)
    requires c == "" || c == "."
    ensures Components(a + ("/" + (c + ("/" + b)))) == Components(a + ("/" + b))
  {
    var rooted := IsRooted(a + ("/" + b));
    SplitBetween(a, c, b);
    SplitAtSlash(a, b);
    PushAllInParts([], Split(a) + [c], Split(b), rooted);
    PushAllInParts([], Split(a), [c], rooted);
    PushAllInParts([], Split(a), Split(b), rooted);
    assert PushAll(PushAll([], Split(a), rooted), [c], rooted) == PushAll([], Split(a), rooted);
  }

  lemma SplitParent(a: string, c: string, b: string)
    requires '/' !in c
    ensures var s := a + ("/" + (c + ("/" + (".." + ("/" + b)))));
            Split(s) == Split(a) + ([c, ".."] + Split(b)) && IsRooted(s) == IsRooted(a + ("/" + b))
  {
    var rest := ".." + ("/" + b);
    SplitBetween(a, c, rest);
    SplitAtSlash("..", b);
    SplitPlain("..");
    assert Split(a) + [c] + ([".."] + Split(b)) == Split(a) + ([c, ".."] + Split(b));
    assert a != "" ==> (a + ("/" + b))[0] == a[0] && (a + ("/" + rest))[0] == a[0];
  }

  /** An ordinary component followed by ".." disappears together with it. */
  lemma ParentCancels(a: string, c: string, b: string)
    requires IsPlain(c)
    ensures Components(a + ("/" + (c + ("/" + (".." + ("/" + b)))))) == Components(a + ("/" + b))
  {
    SplitParent(a, c, b);
    SplitAtSlash(a, b);
    CancelWithin(Split(a), c, Split(b), IsRooted(a + ("/" + b)));
  }

  lemma CancelWithin(a: seq<string>, c: string, b: seq<string>, rooted: bool)
    requires IsPlain(c)
    ensures PushAll([], a + ([c, ".."] + b), rooted) == PushAll([], a + b, rooted)
  {
    var kept := PushAll([], a, rooted);
    PushAllInParts([], a, [c, ".."] + b, rooted);
    PushAllInParts(kept, [c, ".."], b, rooted);
    PushAllInParts([], a, b, rooted);
    PushThenParent(kept, c, rooted);
  }

  lemma PushThenParent(kept: seq<string>, c: string, rooted: bool)
    requires IsPlain(c)
    ensures PushAll(kept, [c, ".."], rooted) == kept
  {
    assert [c, ".."][1..] == [".."] && [".."][1..] == [];
    assert (kept + [c])[..|kept|] == kept;
  }

  /** ".." at the root of an absolute path disappears. */
  lemma ParentOfRoot(b: string)
    ensures Components("/" + (".." + ("/" + b))) == Components("/" + b)
  {
    SplitBetween("", "..", b);
    SplitAtSlash("", b);
    assert "" + ("/" + (".." + ("/" + b))) == "/" + (".." + ("/" + b)) && "" + ("/" + b) == "/" + b;
    assert Split("") == [""];
    PushAllInParts([], ["", ".."], Split(b), true);
    PushAllInParts([], [""], Split(b), true);
    assert [""] + [".."] == ["", ".."];
    assert ["", ".."][1..] == [".."] && [".."][1..] == [];
    assert PushAll([], ["", ".."], true) == [] == PushAll([], [""], true);
  }

  lemma {:induction false} PushAllKeeps(kept: seq<string>, cs: seq<string>)
    requires CleanList(kept + cs, false)
    ensures PushAll(kept, cs, false) == kept + cs
    decreases |cs|
  {
    if cs == [] {
      assert kept + cs == kept;
    } else {
      var all := kept + cs;
      assert all[|kept|] == cs[0];
      assert kept != [] ==> all[|kept| - 1] == kept[|kept| - 1];
      assert kept + [cs[0]] + cs[1..] == all;
      PushAllKeeps(kept + [cs[0]], cs[1..]);
    }
  }

  /** What none of these rules applies to is left as it is. */
  lemma CleanedStays(cs: seq<string>, rooted: bool)
    requires CleanList(cs, rooted)
    ensures Components(Render(rooted, cs)) == cs
  {
    if rooted {
      PushRendered([], true, cs, true);
      assert [] + cs == cs;
    } else if cs == [] {
      SplitPlain(".");
    } else {
      SplitJoin(cs);
      assert [] + cs == cs;
      PushAllKeeps([], cs);
      JoinIsNotRooted(cs);
    }
  }

  lemma JoinIsNotRooted(cs: seq<string>)
    requires cs != [] && cs[0] != "" && '/' !in cs[0]
    ensures !IsRooted(Join(cs))
  {
    assert Join(cs)[0] == cs[0][0] && cs[0][0] in cs[0];
  }

  // ---------- the theorem ----------

  /** The joined path, for a workspace and a path that does not escape. */
  lemma JoinIsExact(workspace: string, path: string)
    requires IsRooted(workspace)
    requires IsRooted(path) || Components(path) == [] || Components(path)[0] != ".."
    ensures AllPlain(Components(workspace) + Components(path))
    ensures JoinPaths(workspace, Clean(path)) == Render(true, Components(workspace) + Components(path))
  {
    var p := Clean(path);
    ComponentsAreClean(workspace);
    NoLaterParent(Components(workspace), true);
    ComponentsAreClean(path);
    NoLaterParent(Components(path), IsRooted(path));
    SplitAtSlash(workspace, p);
    PushAllInParts([], Split(workspace), Split(p), true);
    PushRendered(Components(workspace), IsRooted(path), Components(path), true);
  }

  lemma RenderedIsClean(cs: seq<string>)
    requires AllPlain(cs)
    ensures Clean(Render(true, cs)) == Render(true, cs)
  {
    PushRendered([], true, cs, true);
    assert [] + cs == cs;
  }

  /** Path resolution is exact and contained: for every absolute workspace and every path, the result is
      empty exactly when the cleaned path (one leading slash removed) starts with ".."; otherwise its
      components are the workspace's followed by the path's, so the final prefix check never rejects. */
  lemma ResolveIsContained(workspace: string, path: string)
    requires IsRooted(workspace)
    ensures var q := if path != "" && path[0] == '/' then path[1..] else path;
            var escapes := !IsRooted(q) && Components(q) != [] && Components(q)[0] == "..";
            && (Resolve(workspace, path) == "" <==> escapes)
            && (!escapes ==>
                  && Resolve(workspace, path) == Render(true, Components(workspace) + Components(q))
                  && Components(Resolve(workspace, path)) == Components(workspace) + Components(q)
                  && Clean(workspace) <= Resolve(workspace, path))
  {
    var q := TrimSlash(path);
    var cw, cq := Components(workspace), Components(q);
    EscapeTest(q);
    if IsRooted(q) || cq == [] || cq[0] != ".." {
      JoinIsExact(workspace, q);
      var full := Render(true, cw + cq);
      RenderedIsClean(cw + cq);
      PushRendered([], true, cw + cq, true);
      assert [] + (cw + cq) == cw + cq;
      if cw != [] {
        JoinPrefix(cw, cq);
      }
      PrefixUnderRoot(Join(cw), Join(cw + cq));
    }
  }

  lemma PrefixUnderRoot(a: string, b: string)
    requires a <= b
    ensures "/" + a <= "/" + b
  {
    assert ("/" + b)[..|a| + 1] == "/" + b[..|a|];
  }
}
