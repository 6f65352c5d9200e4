/** Node configuration decisions: which node hosts the project manager agent, and how large an
    inference context a node's memory allows. */
module NodeConfig {
  // ---------- slugs ----------

  /** Byte-wise string order. */
  predicate Less(a: string, b: string) {
    b != "" && (a == "" || a[0] < b[0] || (a[0] == b[0] && Less(a[1..], b[1..])))
  }

  predicate AtMost(a: string, b: string) {
    a == b || Less(a, b)
  }

  lemma {:induction false} LessIsTotal(a: string, b: string)
    ensures Less(a, b) || a == b || Less(b, a)
    ensures !(Less(a, b) && Less(b, a)) && !Less(a, a)
  {
    if a != "" && b != "" && a[0] == b[0] {
      LessIsTotal(a[1..], b[1..]);
      assert a == [a[0]] + a[1..] && b == [b[0]] + b[1..];
    }
    if a != "" {
      LessIsTotal(a[1..], a[1..]);
    }
  }

  lemma {:induction false} LessIsTransitive(a: string, b: string, c: string)
    requires Less(a, b) && Less(b, c)
    ensures Less(a, c)
  {
    if a != "" && a[0] == b[0] && b[0] == c[0] {
      LessIsTransitive(a[1..], b[1..], c[1..]);
    }
  }

  lemma SamePrefixSameStart(a: string, b: string)
    ensures forall i :: 0 < i <= |a| && i <= |b| && a[..i] == b[..i] ==> a[0] == b[0]
    ensures 0 < |a| <= |b| && a == b[..|a|] ==> a[0] == b[0]
  {
    forall i | 0 < i <= |a| && i <= |b| && a[..i] == b[..i]
      ensures a[0] == b[0]
    {
      assert a[..i][0] == b[..i][0];
    }
  }

  /** The order of dictionaries: the shorter of two strings, one starting with the other, or else the one
      with the smaller byte at the first difference. */
  lemma {:induction false} LessIsLexicographic(a: string, b: string)
    ensures Less(a, b) <==>
            || (|a| < |b| && a == b[..|a|])
            || exists i :: 0 <= i < |a| && i < |b| && a[..i] == b[..i] && a[i] < b[i]
  {
    SamePrefixSameStart(a, b);
    if a != "" && b != "" && a[0] == b[0] {
      var x, y := a[1..], b[1..];
      LessIsLexicographic(x, y);
      assert a == [a[0]] + x && b == [b[0]] + y;
      if |x| < |y| && x == y[..|x|] {
        assert b[..|a|] == [b[0]] + y[..|x|];
      }
      if |a| < |b| && a == b[..|a|] {
        assert x == b[..|a|][1..] == y[..|x|];
      }
      if i :| 0 <= i < |x| && i < |y| && x[..i] == y[..i] && x[i] < y[i] {
        assert a[..i + 1] == [a[0]] + x[..i] && b[..i + 1] == [b[0]] + y[..i];
        assert a[i + 1] == x[i] && b[i + 1] == y[i];
      }
      if i :| 0 <= i < |a| && i < |b| && a[..i] == b[..i] && a[i] < b[i] {
        assert i > 0;
        assert x[..i - 1] == a[..i][1..] && y[..i - 1] == b[..i][1..];
        assert x[i - 1] == a[i] && y[i - 1] == b[i];
      }
    } else if a != "" && b != "" && a[0] < b[0] {
      assert a[..0] == b[..0];
    }
  }

  // ---------- the host ----------

  datatype Node = Node(slug: string, preferred: bool)

  predicate Sorted(nodes: seq<Node>) {
    forall i, k :: 0 <= i < k < |nodes| ==> AtMost(nodes[i].slug, nodes[k].slug)
  }

  function Insert(n: Node, nodes: seq<Node>): (r: seq<Node>)
    ensures forall m :: m in r <==> m == n || m in nodes
  {
    if nodes == [] || Less(n.slug, nodes[0].slug) then [n] + nodes
    else
      var r := [nodes[0]] + Insert(n, nodes[1..]);
      assert nodes == [nodes[0]] + nodes[1..];
      r
  }

  function SortBySlug(nodes: seq<Node>): (r: seq<Node>)
    ensures forall m :: m in r <==> m in nodes
    ensures |r| == 0 <==> |nodes| == 0
  {
    if nodes == [] then []
    else
      var r := Insert(nodes[0], SortBySlug(nodes[1..]));
      assert nodes == [nodes[0]] + nodes[1..];
      assert nodes[0] in r;
      r
  }

  lemma {:induction false} InsertKeepsSorted(n: Node, nodes: seq<Node>)
    requires Sorted(nodes)
    ensures Sorted(Insert(n, nodes))
  {
    if nodes == [] {
    } else if Less(n.slug, nodes[0].slug) {
      var r := [n] + nodes;
      forall i, k | 0 <= i < k < |r|
        ensures AtMost(r[i].slug, r[k].slug)
      {
        if i == 0 && k > 1 && nodes[0].slug != nodes[k - 1].slug {
          LessIsTransitive(n.slug, nodes[0].slug, nodes[k - 1].slug);
        }
      }
    } else {
      InsertKeepsSorted(n, nodes[1..]);
      var rest := Insert(n, nodes[1..]);
      LessIsTotal(n.slug, nodes[0].slug);
      forall k | 0 <= k < |rest|
        ensures AtMost(nodes[0].slug, rest[k].slug)
      {
        assert rest[k] in rest;
        if rest[k] != n {
          var m :| 0 <= m < |nodes[1..]| && nodes[1..][m] == rest[k];
          assert nodes[m + 1] == rest[k];
        }
      }
    }
  }

  lemma {:induction false} SortIsSorted(nodes: seq<Node>)
    ensures Sorted(SortBySlug(nodes))
  {
    if nodes != [] {
      SortIsSorted(nodes[1..]);
      InsertKeepsSorted(nodes[0], SortBySlug(nodes[1..]));
    }
  }

  /** `slug` is the smallest slug among all nodes, or among the labelled ones only. */
  predicate IsLeast(nodes: seq<Node>, labelled: bool, slug: string) {
    && (exists n :: n in nodes && (labelled ==> n.preferred) && n.slug == slug)
    && (forall n :: n in nodes && (labelled ==> n.preferred) ==> AtMost(slug, n.slug))
  }

  /** `slug` is the right host: the configured one; else the smallest slug among the labelled nodes, or
      among all nodes if none is labelled; else the node that asks. */
  predicate Selects(explicit: string, nodes: seq<Node>, byLabel: bool, fallback: string, slug: string) {
    if explicit != "" then slug == explicit
    else if nodes == [] then slug == fallback
    else IsLeast(nodes, byLabel && exists n :: n in nodes && n.preferred, slug)
  }

  /** selectPMAHostNodeSlug. `explicit` is the configured host (trimmed), `byLabel` says that a preferred
      label is configured, `preferred` of a node that it reports this label; an empty list also stands
      for a failed listing. */
  method SelectHost(explicit: string, nodes: seq<Node>, byLabel: bool, fallback: string) returns (slug: string)
    ensures Selects(explicit, nodes, byLabel, fallback, slug)
  {
    if explicit != "" {
      return explicit;
    }
    if nodes == [] {
      return fallback;
    }
    var sorted := SortBySlug(nodes);
    SortIsSorted(nodes);
    if byLabel {
      for i := 0 to |sorted|
        invariant forall k :: 0 <= k < i ==> !sorted[k].preferred
      {
        if sorted[i].preferred {
          assert sorted[i] in nodes;
          forall n | n in nodes && n.preferred
            ensures AtMost(sorted[i].slug, n.slug)
          {
            var k :| 0 <= k < |sorted| && sorted[k] == n;
          }
          return sorted[i].slug;
        }
      }
    }
    assert sorted[0] in nodes;
    forall n | n in nodes
      ensures AtMost(sorted[0].slug, n.slug)
    {
      var k :| 0 <= k < |sorted| && sorted[k] == n;
    }
    return sorted[0].slug;
  }

  lemma LeastIsUnique(a: seq<Node>, b: seq<Node>, labelled: bool, x: string, y: string)
    requires forall n :: n in a <==> n in b
    requires IsLeast(a, labelled, x) && IsLeast(b, labelled, y)
    ensures x == y
  {
    LessIsTotal(x, y);
  }

  /** The host does not depend on the order in which the nodes are listed, nor on the node that asks. */
  lemma HostIgnoresOrder(explicit: string, a: seq<Node>, b: seq<Node>, byLabel: bool,
                         askA: string, askB: string, x: string, y: string)
    requires forall n :: n in a <==> n in b
    requires explicit != "" || (a != [] && b != [])
    requires Selects(explicit, a, byLabel, askA, x) && Selects(explicit, b, byLabel, askB, y)
    ensures x == y
  {
    if explicit == "" {
      var labelled := byLabel && exists n :: n in a && n.preferred;
      LeastIsUnique(a, b, labelled, x, y);
    }
  }

  /** The configuration of node `ask` carries the service: the node has a slug, and it is the one selected. */
  predicate IsHost(explicit: string, nodes: seq<Node>, byLabel: bool, ask: string) {
    ask != "" && Selects(explicit, nodes, byLabel, ask, ask)
  }

  /** Two different nodes both get the service if and only if there is no configured host and the listing is
      empty or failed; then every node gets it. */
  lemma AtMostOneHost(explicit: string, a: seq<Node>, b: seq<Node>, byLabel: bool, askA: string, askB: string)
    requires forall n :: n in a <==> n in b
    requires askA != askB && askA != "" && askB != ""
    ensures IsHost(explicit, a, byLabel, askA) && IsHost(explicit, b, byLabel, askB) <==>
            explicit == "" && a == [] && b == []
  {
    assert a == [] <==> b == [] by {
      assert a != [] ==> a[0] in b;
      assert b != [] ==> b[0] in a;
    }
    if IsHost(explicit, a, byLabel, askA) && IsHost(explicit, b, byLabel, askB)
       && (explicit != "" || (a != [] && b != [])) {
      HostIgnoresOrder(explicit, a, b, byLabel, askA, askB, askA, askB);
    }
  }

  // ---------- the context size ----------

  const KV_MB_PER_1K: int := 50
  const MIN_CTX: int := 8192
  const MAX_CTX: int := 40960

  function Pow2(k: nat): (r: nat)
    ensures r >= 1
  {
    if k == 0 then 1 else 2 * Pow2(k - 1)
  }

  ghost predicate IsPow2(p: int) {
    exists k :: p == Pow2(k)
  }

  lemma {:induction false} Pow2Grows(j: nat, k: nat)
    requires j < k
    ensures 2 * Pow2(j) <= Pow2(k)
  {
    if j < k - 1 {
      Pow2Grows(j, k - 1);
    }
  }

  lemma {:induction false} PowersAreApart(p: int, q: int)
    requires IsPow2(p) && IsPow2(q) && p < q
    ensures 2 * p <= q
  {
    var j: nat :| p == Pow2(j);
    var k: nat :| q == Pow2(k);
    if j < k {
      Pow2Grows(j, k);
    } else if k < j {
      Pow2Grows(k, j);
    }
  }

  /** `p` is the largest power of two that is at most `n`, or 1 when `n` is not positive. */
  ghost predicate IsFloorPow2(n: int, p: int) {
    if n <= 0 then p == 1 else IsPow2(p) && p <= n < 2 * p
  }

  /** prevPow2. */
  method PrevPow2(n: int) returns (p: int)
    ensures IsFloorPow2(n, p)
  {
    if n <= 0 {
      return 1;
    }
    p := 1;
    ghost var k: nat := 0;
    assert p == Pow2(0);
    while p * 2 <= n
      invariant p == Pow2(k) && 1 <= p <= n
      decreases n - p
    {
      p := p * 2;
      k := k + 1;
    }
  }

  lemma FloorIsMonotone(m: int, n: int, p: int, q: int)
    requires m <= n && IsFloorPow2(m, p) && IsFloorPow2(n, q)
    ensures p <= q
  {
    if m > 0 && q < p {
      PowersAreApart(q, p);
    }
  }

  /** Memory left for the cache: 40 percent of the card. */
  function CacheMB(vramMB: int): int {
    if vramMB <= 0 then 0 else 2 * vramMB / 5
  }

  function TokenBudget(vramMB: int): int {
    CacheMB(vramMB) / KV_MB_PER_1K * 1024
  }

  function Clamp(tokens: int): int {
    if tokens < MIN_CTX then MIN_CTX else if tokens > MAX_CTX then MAX_CTX else tokens
  }

  /** ollamaNumCtxForVRAM: the largest power of two within the budget, clamped. */
  method NumCtxForVRAM(vramMB: int) returns (ctx: int)
    ensures exists p :: IsFloorPow2(TokenBudget(vramMB), p) && ctx == Clamp(p)
    ensures vramMB <= 0 ==> ctx == 8192
    ensures vramMB > 0 ==> exists p :: IsFloorPow2(2 * vramMB / 5 / 50 * 1024, p)
                                       && ctx == if p < 8192 then 8192 else if p > 40960 then 40960 else p
  {
    if vramMB <= 0 {
      assert IsFloorPow2(TokenBudget(vramMB), 1);
      return MIN_CTX;
    }
    var tokens := 2 * vramMB / 5 / KV_MB_PER_1K * 1024;
    tokens := PrevPow2(tokens);
    assert IsFloorPow2(TokenBudget(vramMB), tokens);
    if tokens < MIN_CTX {
      return MIN_CTX;
    }
    if tokens > MAX_CTX {
      return MAX_CTX;
    }
    return tokens;
  }

  /** More memory never means a smaller context. */
  lemma ContextIsMonotone(v: int, w: int, p: int, q: int)
    requires v <= w
    requires IsFloorPow2(TokenBudget(v), p) && IsFloorPow2(TokenBudget(w), q)
    ensures Clamp(p) <= Clamp(q)
  {
    FloorIsMonotone(TokenBudget(v), TokenBudget(w), p, q);
  }

  /** The context is one of four sizes, and above the minimum its cache fits in the memory left for it. */
  lemma ContextFits(v: int, p: int)
    requires IsFloorPow2(TokenBudget(v), p)
    ensures Clamp(p) in {8192, 16384, 32768, 40960}
    ensures Clamp(p) > 8192 ==> v > 0 && Clamp(p) / 1024 * 50 <= 2 * v / 5
  {
    Powers();
    if TokenBudget(v) > 0 {
      if MIN_CTX < p < 32768 && p != 16384 {
        if p < 16384 { PowersAreApart(8192, p); } else { PowersAreApart(16384, p); }
      } else if 32768 < p <= MAX_CTX {
        PowersAreApart(32768, p);
      }
    }
  }

  lemma Powers()
    ensures IsPow2(8192) && IsPow2(16384) && IsPow2(32768)
  {
    assert Pow2(5) == 32;
    assert Pow2(10) == 1024;
    assert Pow2(13) == 8192;
    assert Pow2(14) == 16384;
    assert Pow2(15) == 32768;
  }
}
