/** The fixed-window rate limiter and its background cleanup. The clock is a parameter of each call. */
module RateLimiter {
  datatype Entry = Entry(count: int, windowAt: int)

  type Entries = map<string, Entry>

  datatype Limits = Limits(limit: int, window: int)

  // ---------- one call ----------

  predicate WindowOver(c: Limits, e: Entry, now: int) {
    now - e.windowAt >= c.window
  }

  function AllowStep(c: Limits, m: Entries, key: string, now: int): (Entries, bool) {
    if key !in m || WindowOver(c, m[key], now) then (m[key := Entry(1, now)], true)
    else if m[key].count >= c.limit then (m, false)
    else (m[key := m[key].(count := m[key].count + 1)], true)
  }

  /** What a cleanup pass leaves. */
  function Swept(c: Limits, m: Entries, now: int): Entries {
    map k | k in m && now - m[k].windowAt < c.window * 2 :: m[k]
  }

  class Limiter {
    var entries: Entries
    const limits: Limits

    constructor (limit: int, window: int)
      ensures entries == map[] && limits == Limits(limit, window)
    {
      entries := map[];
      limits := Limits(limit, window);
    }

    method Allow(key: string, now: int) returns (ok: bool)
      modifies this
      ensures (entries, ok) == AllowStep(limits, old(entries), key, now)
    {
      if key !in entries || now - entries[key].windowAt >= limits.window {
        entries := entries[key := Entry(1, now)];
        return true;
      }
      if entries[key].count >= limits.limit {
        return false;
      }
      entries := entries[key := entries[key].(count := entries[key].count + 1)];
      return true;
    }

    method Reset(key: string)
      modifies this
      ensures entries == old(entries) - {key}
    {
      entries := entries - {key};
    }

    /** The body of cleanupLoop: visits the keys in no particular order and deletes the stale ones. */
    method Cleanup(now: int)
      modifies this
      ensures entries == Swept(limits, old(entries), now)
      ensures forall k :: k in entries <==> k in old(entries) && now - old(entries)[k].windowAt < 2 * limits.window
      ensures forall k :: k in entries ==> entries[k] == old(entries)[k]
    {
      var todo := entries.Keys;
      while todo != {}
        invariant todo <= entries.Keys <= old(entries).Keys
        invariant forall k :: k in entries ==> entries[k] == old(entries)[k]
        invariant forall k :: k in old(entries) && k !in todo ==>
                    (k in entries <==> now - old(entries)[k].windowAt < limits.window * 2)
        decreases |todo|
      {
        var key :| key in todo;
        todo := todo - {key};
        if now - entries[key].windowAt >= limits.window * 2 {
          entries := entries - {key};
        }
      }
    }
  }

  // ---------- traces ----------

  datatype Op = Call(key: string, now: int) | Sweep(now: int) | Forget(key: string)

  function Effect(c: Limits, m: Entries, op: Op): Entries {
    match op
    case Call(key, now) => AllowStep(c, m, key, now).0
    case Sweep(now) => Swept(c, m, now)
    case Forget(key) => m - {key}
  }

  /** The answers to the calls of a trace, in order. */
  function Answers(c: Limits, m: Entries, ops: seq<Op>): seq<bool>
    decreases |ops|
  {
    if ops == [] then []
    else
      var rest := Answers(c, Effect(c, m, ops[0]), ops[1..]);
      if ops[0].Call? then [AllowStep(c, m, ops[0].key, ops[0].now).1] + rest else rest
  }

  /** The table at the end of a trace. */
  function Final(c: Limits, m: Entries, ops: seq<Op>): Entries
    decreases |ops|
  {
    if ops == [] then m else Final(c, Effect(c, m, ops[0]), ops[1..])
  }

  function WithoutSweeps(ops: seq<Op>): seq<Op> {
    if ops == [] then []
    else if ops[0].Sweep? then WithoutSweeps(ops[1..])
    else [ops[0]] + WithoutSweeps(ops[1..])
  }

  /** Times never go backwards, from `since` on. */
  predicate Timed(ops: seq<Op>, since: int) {
    ops != [] ==>
      if ops[0].Forget? then Timed(ops[1..], since)
      else ops[0].now >= since && Timed(ops[1..], ops[0].now)
  }

  predicate StartedBy(m: Entries, now: int) {
    forall k :: k in m ==> m[k].windowAt <= now
  }

  /** `a` is `b` with some entries missing whose windows are over. */
  predicate Cleaned(c: Limits, a: Entries, b: Entries, now: int) {
    && a.Keys <= b.Keys
    && (forall k :: k in a ==> a[k] == b[k])
    && (forall k :: k in b && k !in a ==> WindowOver(c, b[k], now))
    && StartedBy(b, now)
  }

  predicate Within(a: Entries, b: Entries) {
    forall k :: k in a ==> k in b && a[k] == b[k]
  }

  /** A call answers the same in both tables and leaves them related. */
  lemma CallSeesNoDifference(c: Limits, a: Entries, b: Entries, key: string, now: int, since: int)
    requires Cleaned(c, a, b, since) && since <= now
    ensures AllowStep(c, a, key, now).1 == AllowStep(c, b, key, now).1
    ensures Cleaned(c, AllowStep(c, a, key, now).0, AllowStep(c, b, key, now).0, now)
  {
  }

  lemma SweepStaysCleaned(c: Limits, a: Entries, b: Entries, now: int, since: int)
    requires Cleaned(c, a, b, since) && since <= now
    ensures Cleaned(c, Swept(c, a, now), b, now)
  {
    forall k | k in b && k !in Swept(c, a, now)
      ensures WindowOver(c, b[k], now)
    {
      if k in a {
        assert now - b[k].windowAt >= 0;
        assert now - b[k].windowAt >= c.window * 2;
      }
    }
  }

  lemma {:induction false} CleanedAnswersAgree(c: Limits, a: Entries, b: Entries, ops: seq<Op>, since: int)
    requires Cleaned(c, a, b, since) && Timed(ops, since)
    ensures Answers(c, a, ops) == Answers(c, b, WithoutSweeps(ops))
    ensures Within(Final(c, a, ops), Final(c, b, WithoutSweeps(ops)))
    decreases |ops|
  {
    if ops != [] {
      var op := ops[0];
      var rest := WithoutSweeps(ops[1..]);
      match op {
        case Call(key, now) =>
          CallSeesNoDifference(c, a, b, key, now, since);
          CleanedAnswersAgree(c, Effect(c, a, op), Effect(c, b, op), ops[1..], now);
          assert ([op] + rest)[1..] == rest;
        case Sweep(now) =>
          SweepStaysCleaned(c, a, b, now, since);
          CleanedAnswersAgree(c, Effect(c, a, op), b, ops[1..], now);
        case Forget(key) =>
          CleanedAnswersAgree(c, a - {key}, b - {key}, ops[1..], since);
          assert ([op] + rest)[1..] == rest;
      }
    }
  }

  /** Cleanup is invisible: for every trace of calls and resets, and every placement of cleanup passes
      in it, the answers are those of the same trace without cleanup. */
  lemma CleanupIsInvisible(c: Limits, m: Entries, ops: seq<Op>, since: int)
    requires StartedBy(m, since) && Timed(ops, since)
    ensures Answers(c, m, ops) == Answers(c, m, WithoutSweeps(ops))
  {
    CleanedAnswersAgree(c, m, m, ops, since);
  }

  // ---------- the bound ----------

  /** A window admits one call even when the limit is not positive. */
  function PerWindow(c: Limits): int {
    if c.limit < 1 then 1 else c.limit
  }

  /** How many calls for `key` at a time in [lo, hi) are answered with true. */
  function Allowed(ops: seq<Op>, answers: seq<bool>, key: string, lo: int, hi: int): nat {
    if ops == [] || answers == [] then 0
    else if !ops[0].Call? then Allowed(ops[1..], answers, key, lo, hi)
    else (if ops[0].key == key && lo <= ops[0].now < hi && answers[0] then 1 else 0)
         + Allowed(ops[1..], answers[1..], key, lo, hi)
  }

  /** How many more calls may be allowed in [lo, lo + window), given the entry of the key. */
  function Room(c: Limits, m: Entries, key: string, lo: int): int {
    var n := PerWindow(c);
    if key !in m then 2 * n - 1
    else if m[key].windowAt >= lo + c.window then 0
    else if m[key].windowAt >= lo then n - m[key].count
    else 2 * n - m[key].count
  }

  predicate Counted(c: Limits, m: Entries) {
    forall k :: k in m ==> 1 <= m[k].count <= PerWindow(c)
  }

  predicate NoForget(ops: seq<Op>) {
    forall i :: 0 <= i < |ops| ==> !ops[i].Forget?
  }

  predicate OnlyCalls(ops: seq<Op>) {
    forall i :: 0 <= i < |ops| ==> ops[i].Call?
  }

  lemma RoomIsBounded(c: Limits, m: Entries, key: string, lo: int)
    requires Counted(c, m)
    ensures 0 <= Room(c, m, key, lo) <= 2 * PerWindow(c) - 1
  {
  }

  /** One call from `lo` on: the room left shrinks by one when the call is allowed inside the interval,
      and never grows. */
  lemma CallUsesRoom(c: Limits, m: Entries, key: string, op: Op, lo: int)
    requires op.Call? && Counted(c, m) && StartedBy(m, op.now)
    ensures var (m', ok) := AllowStep(c, m, op.key, op.now);
            && Counted(c, m') && StartedBy(m', op.now)
            && (lo <= op.now ==>
                  Room(c, m', key, lo)
                  + (if op.key == key && op.now < lo + c.window && ok then 1 else 0) <= Room(c, m, key, lo))
  {
  }

  lemma {:induction false} AllowedFitsRoom(c: Limits, m: Entries, ops: seq<Op>, key: string, lo: int, since: int)
    requires Counted(c, m) && StartedBy(m, since) && Timed(ops, since) && OnlyCalls(ops)
    ensures Allowed(ops, Answers(c, m, ops), key, lo, lo + c.window) <= 2 * PerWindow(c) - 1
    ensures since >= lo ==> Allowed(ops, Answers(c, m, ops), key, lo, lo + c.window) <= Room(c, m, key, lo)
    decreases |ops|
  {
    RoomIsBounded(c, m, key, lo);
    if ops != [] {
      CallUsesRoom(c, m, key, ops[0], lo);
      var (m', ok) := AllowStep(c, m, ops[0].key, ops[0].now);
      AllowedFitsRoom(c, m', ops[1..], key, lo, ops[0].now);
      assert Answers(c, m, ops)[1..] == Answers(c, m', ops[1..]);
    }
  }

  lemma {:induction false} SweepsDoNotCount(ops: seq<Op>, answers: seq<bool>, key: string, lo: int, hi: int)
    requires NoForget(ops)
    ensures OnlyCalls(WithoutSweeps(ops))
    ensures Allowed(ops, answers, key, lo, hi) == Allowed(WithoutSweeps(ops), answers, key, lo, hi)
    decreases |ops|
  {
    if ops != [] {
      SweepsDoNotCount(ops[1..], if ops[0].Call? && answers != [] then answers[1..] else answers, key, lo, hi);
      var rest := WithoutSweeps(ops[1..]);
      assert ([ops[0]] + rest)[1..] == rest;
    }
  }

  lemma {:induction false} WithoutSweepsIsTimed(ops: seq<Op>, since: int, earlier: int)
    requires Timed(ops, since) && earlier <= since
    ensures Timed(WithoutSweeps(ops), earlier)
    decreases |ops|
  {
    if ops != [] {
      var rest := WithoutSweeps(ops[1..]);
      assert ([ops[0]] + rest)[1..] == rest;
      match ops[0] {
        case Call(_, now) => WithoutSweepsIsTimed(ops[1..], now, now);
        case Sweep(now) => WithoutSweepsIsTimed(ops[1..], now, earlier);
        case Forget(_) => WithoutSweepsIsTimed(ops[1..], since, earlier);
      }
    }
  }

  /** Over a whole trace without resets, with cleanup passes anywhere, a half-open interval as long as
      the window contains fewer than two windows' worth of allowed calls per key. */
  lemma FewerThanTwoWindows(c: Limits, ops: seq<Op>, key: string, lo: int, since: int)
    requires Timed(ops, since) && NoForget(ops)
    ensures Allowed(ops, Answers(c, map[], ops), key, lo, lo + c.window) <= 2 * PerWindow(c) - 1
  {
    var calls := WithoutSweeps(ops);
    CleanupIsInvisible(c, map[], ops, since);
    SweepsDoNotCount(ops, Answers(c, map[], ops), key, lo, lo + c.window);
    WithoutSweepsIsTimed(ops, since, since);
    AllowedFitsRoom(c, map[], calls, key, lo, since);
  }

  // ---------- traces in parts ----------

  /** A trace of calls taken in two parts: the second starts from the table the first leaves. */
  lemma {:induction false} AnswersInParts(c: Limits, m: Entries, a: seq<Op>, b: seq<Op>)
    requires OnlyCalls(a)
    ensures Final(c, m, a + b) == Final(c, Final(c, m, a), b)
    ensures |Answers(c, m, a)| == |a|
    ensures Answers(c, m, a + b) == Answers(c, m, a) + Answers(c, Final(c, m, a), b)
    decreases |a|
  {
    if a == [] {
      assert a + b == b;
    } else {
      assert (a + b)[1..] == a[1..] + b && (a + b)[0] == a[0];
      AnswersInParts(c, Effect(c, m, a[0]), a[1..], b);
    }
  }

  /** The time reached at the end of a trace. */
  function LastTime(ops: seq<Op>, since: int): int {
    if ops == [] then since else LastTime(ops[1..], if ops[0].Forget? then since else ops[0].now)
  }

  lemma {:induction false} TimedInParts(a: seq<Op>, b: seq<Op>, since: int)
    requires Timed(a + b, since)
    ensures Timed(a, since) && Timed(b, LastTime(a, since))
    decreases |a|
  {
    if a == [] {
      assert a + b == b;
    } else {
      assert (a + b)[1..] == a[1..] + b && (a + b)[0] == a[0];
      TimedInParts(a[1..], b, if a[0].Forget? then since else a[0].now);
    }
  }

  lemma {:induction false} FinalIsStarted(c: Limits, m: Entries, ops: seq<Op>, since: int)
    requires StartedBy(m, since) && Timed(ops, since)
    ensures StartedBy(Final(c, m, ops), LastTime(ops, since))
    decreases |ops|
  {
    if ops != [] {
      FinalIsStarted(c, Effect(c, m, ops[0]), ops[1..], if ops[0].Forget? then since else ops[0].now);
    }
  }

  lemma {:induction false} AllowedInParts(a: seq<Op>, b: seq<Op>, x: seq<bool>, y: seq<bool>, key: string, lo: int, hi: int)
    requires OnlyCalls(a) && |x| == |a|
    ensures Allowed(a + b, x + y, key, lo, hi) == Allowed(a, x, key, lo, hi) + Allowed(b, y, key, lo, hi)
    decreases |a|
  {
    if a == [] {
      assert a + b == b && x + y == y;
    } else {
      assert (a + b)[1..] == a[1..] + b && (x + y)[1..] == x[1..] + y;
      AllowedInParts(a[1..], b, x[1..], y, key, lo, hi);
    }
  }

  lemma {:induction false} WithoutSweepsInParts(a: seq<Op>, b: seq<Op>)
    ensures WithoutSweeps(a + b) == WithoutSweeps(a) + WithoutSweeps(b)
    decreases |a|
  {
    if a == [] {
      assert a + b == b;
    } else {
      assert (a + b)[1..] == a[1..] + b;
      WithoutSweepsInParts(a[1..], b);
    }
  }

  // ---------- an entry counts its window ----------

  /** The entry tells exactly how many calls were allowed in its window, and none was allowed later. */
  ghost predicate Exact(c: Limits, m: Entries, ops: seq<Op>, answers: seq<bool>, key: string) {
    if key !in m then forall lo, hi :: Allowed(ops, answers, key, lo, hi) == 0
    else
      var at := m[key].windowAt;
      && Allowed(ops, answers, key, at, at + c.window) == m[key].count
      && forall lo, hi :: lo >= at + c.window ==> Allowed(ops, answers, key, lo, hi) == 0
  }

  lemma ExactStep(c: Limits, m: Entries, ops: seq<Op>, answers: seq<bool>, op: Op, key: string)
    requires c.window > 0 && OnlyCalls(ops) && op.Call? && |answers| == |ops|
    requires Exact(c, m, ops, answers, key) && StartedBy(m, op.now)
    ensures var (m', ok) := AllowStep(c, m, op.key, op.now);
            Exact(c, m', ops + [op], answers + [ok], key)
  {
    var (m', ok) := AllowStep(c, m, op.key, op.now);
    forall lo, hi
      ensures Allowed(ops + [op], answers + [ok], key, lo, hi)
              == Allowed(ops, answers, key, lo, hi) + if op.key == key && lo <= op.now < hi && ok then 1 else 0
    {
      AllowedInParts(ops, [op], answers, [ok], key, lo, hi);
    }
  }

  lemma {:induction false} EntryCountsItsWindow(c: Limits, ops: seq<Op>, key: string, since: int)
    requires c.window > 0 && Timed(ops, since) && OnlyCalls(ops)
    ensures Exact(c, Final(c, map[], ops), ops, Answers(c, map[], ops), key)
    decreases |ops|
  {
    if ops != [] {
      var init, op := ops[..|ops| - 1], ops[|ops| - 1];
      assert ops == init + [op];
      AnswersInParts(c, map[], init, [op]);
      TimedInParts(init, [op], since);
      FinalIsStarted(c, map[], init, since);
      EntryCountsItsWindow(c, init, key, since);
      var m := Final(c, map[], init);
      assert Answers(c, m, [op]) == [AllowStep(c, m, op.key, op.now).1];
      assert Final(c, m, [op]) == AllowStep(c, m, op.key, op.now).0;
      assert StartedBy(m, op.now);
      ExactStep(c, m, init, Answers(c, map[], init), op, key);
    }
  }

  lemma {:induction false} FinalIsCounted(c: Limits, m: Entries, ops: seq<Op>)
    requires Counted(c, m) && OnlyCalls(ops)
    ensures Counted(c, Final(c, m, ops))
    decreases |ops|
  {
    if ops != [] {
      FinalIsCounted(c, Effect(c, m, ops[0]), ops[1..]);
    }
  }

  /** The window of `key` recorded at the end of a trace that starts from the empty table began at `at`. */
  predicate Records(c: Limits, ops: seq<Op>, key: string, at: int) {
    key in Final(c, map[], ops) && Final(c, map[], ops)[key].windowAt == at
  }

  /** The first part of a trace of calls fills the recorded window up to its count, and the second uses at
      most the room that is left. */
  lemma CallsFillWindow(c: Limits, a: seq<Op>, b: seq<Op>, key: string, at: int, since: int)
    requires c.window > 0 && OnlyCalls(a) && OnlyCalls(b) && Timed(a + b, since) && Records(c, a, key, at)
    ensures Allowed(a + b, Answers(c, map[], a + b), key, at, at + c.window) <= PerWindow(c)
  {
    var m := Final(c, map[], a);
    AnswersInParts(c, map[], a, b);
    TimedInParts(a, b, since);
    FinalIsStarted(c, map[], a, since);
    AllowedInParts(a, b, Answers(c, map[], a), Answers(c, m, b), key, at, at + c.window);
    EntryCountsItsWindow(c, a, key, since);
    FinalIsCounted(c, map[], a);
    AllowedFitsRoom(c, m, b, key, at, LastTime(a, since));
  }

  lemma {:induction false} NoneInEmptyInterval(ops: seq<Op>, answers: seq<bool>, key: string, lo: int, hi: int)
    requires hi <= lo
    ensures Allowed(ops, answers, key, lo, hi) == 0
    decreases |ops|
  {
    if ops != [] && answers != [] {
      NoneInEmptyInterval(ops[1..], if ops[0].Call? then answers[1..] else answers, key, lo, hi);
    }
  }

  /** Over a whole trace without resets, with cleanup passes anywhere: at most max(1, limit) calls of a key
      are allowed in every window that is recorded for it at some point of the trace. */
  lemma AtMostLimitPerWindow(c: Limits, ops: seq<Op>, n: nat, key: string, at: int, since: int)
    requires Timed(ops, since) && NoForget(ops)
    requires n <= |ops| && Records(c, ops[..n], key, at)
    ensures Allowed(ops, Answers(c, map[], ops), key, at, at + c.window) <= PerWindow(c)
  {
    var a, b := ops[..n], ops[n..];
    assert ops == a + b;
    if c.window <= 0 {
      NoneInEmptyInterval(ops, Answers(c, map[], ops), key, at, at + c.window);
    } else {
      TimedInParts(a, b, since);
      CleanedAnswersAgree(c, map[], map[], a, since);
      CleanupIsInvisible(c, map[], ops, since);
      SweepsDoNotCount(ops, Answers(c, map[], ops), key, at, at + c.window);
      SweepsDoNotCount(a, [], key, at, at);
      SweepsDoNotCount(b, [], key, at, at);
      WithoutSweepsIsTimed(ops, since, since);
      WithoutSweepsInParts(a, b);
      CallsFillWindow(c, WithoutSweeps(a), WithoutSweeps(b), key, at, since);
    }
  }

  /** After any trace without resets, with cleanup passes anywhere, a call is refused if and only if the
      window recorded for its key began less than its length ago and exactly max(1, limit) calls were
      allowed in it. */
  lemma RefusedExactlyWhenUsedUp(c: Limits, ops: seq<Op>, key: string, now: int, since: int)
    requires Timed(ops + [Call(key, now)], since) && NoForget(ops)
    ensures !AllowStep(c, Final(c, map[], ops), key, now).1 <==>
            exists at :: Records(c, ops, key, at) && at <= now < at + c.window
                         && Allowed(ops, Answers(c, map[], ops), key, at, at + c.window) == PerWindow(c)
  {
    var m := Final(c, map[], ops);
    if key in m && !WindowOver(c, m[key], now) {
      var at := m[key].windowAt;
      assert Records(c, ops, key, at);
      TimedInParts(ops, [Call(key, now)], since);
      FinalIsStarted(c, map[], ops, since);
      var calls := WithoutSweeps(ops);
      CleanedAnswersAgree(c, map[], map[], ops, since);
      SweepsDoNotCount(ops, Answers(c, map[], ops), key, at, at + c.window);
      WithoutSweepsIsTimed(ops, since, since);
      EntryCountsItsWindow(c, calls, key, since);
      FinalIsCounted(c, map[], calls);
    }
  }

  // ---------- the bound is reached ----------

  function Burst(key: string, now: int, n: nat): seq<Op> {
    if n == 0 then [] else [Call(key, now)] + Burst(key, now, n - 1)
  }

  /** As many calls at one time as the current window still admits are all allowed. */
  lemma {:induction false} BurstIsAllowed(c: Limits, m: Entries, key: string, now: int, n: nat, lo: int)
    requires key in m && !WindowOver(c, m[key], now) && (n > 0 ==> m[key].count + n <= c.limit)
    requires lo <= now < lo + c.window
    ensures var ops := Burst(key, now, n);
            && OnlyCalls(ops) && Timed(ops, now)
            && Final(c, m, ops) == m[key := m[key].(count := m[key].count + n)]
            && Allowed(ops, Answers(c, m, ops), key, lo, lo + c.window) == n
    decreases n
  {
    if n == 0 {
      assert m[key := m[key]] == m;
    } else {
      var m' := m[key := m[key].(count := m[key].count + 1)];
      var rest := Burst(key, now, n - 1);
      BurstIsAllowed(c, m', key, now, n - 1, lo);
      assert ([Call(key, now)] + rest)[1..] == rest;
      assert ([true] + Answers(c, m', rest))[1..] == Answers(c, m', rest);
      assert m'[key := m[key].(count := m[key].count + n)] == m[key := m[key].(count := m[key].count + n)];
    }
  }

  /** A window's worth of calls at one time. */
  function FullBurst(c: Limits, key: string, now: int): seq<Op> {
    [Call(key, now)] + Burst(key, now, PerWindow(c) - 1)
  }

  /** One call opens a window, the rest of its calls come at its last instant, and the next window is used
      up at once. */
  function Crowd(c: Limits, key: string): seq<Op> {
    [Call(key, 0)] + (Burst(key, c.window - 1, PerWindow(c) - 1) + FullBurst(c, key, c.window))
  }

  lemma {:induction false} BurstThen(key: string, now: int, n: nat, rest: seq<Op>, since: int, after: int)
    requires since <= now <= after && Timed(rest, after)
    requires rest != [] ==> !rest[0].Forget? && rest[0].now >= after
    ensures Timed(Burst(key, now, n) + rest, since)
    decreases n
  {
    var ops := Burst(key, now, n) + rest;
    if n == 0 {
      assert ops == rest;
    } else {
      assert ops[1..] == Burst(key, now, n - 1) + rest;
      BurstThen(key, now, n - 1, rest, now, after);
    }
  }

  lemma OpeningCall(c: Limits, m: Entries, key: string, now: int, rest: seq<Op>, lo: int)
    requires key !in m || WindowOver(c, m[key], now)
    ensures var m' := m[key := Entry(1, now)];
            Allowed([Call(key, now)] + rest, Answers(c, m, [Call(key, now)] + rest), key, lo, lo + c.window)
            == Allowed(rest, Answers(c, m', rest), key, lo, lo + c.window) + if lo <= now < lo + c.window then 1 else 0
  {
    assert ([Call(key, now)] + rest)[1..] == rest;
    var answers := Answers(c, m[key := Entry(1, now)], rest);
    assert ([true] + answers)[1..] == answers;
  }

  lemma FullBurstIsAllowed(c: Limits, m: Entries, key: string, now: int, lo: int)
    requires key !in m || WindowOver(c, m[key], now)
    requires c.window > 0 && lo <= now < lo + c.window
    ensures var ops := FullBurst(c, key, now);
            && OnlyCalls(ops) && Timed(ops, now)
            && Allowed(ops, Answers(c, m, ops), key, lo, lo + c.window) == PerWindow(c)
  {
    var rest := Burst(key, now, PerWindow(c) - 1);
    BurstIsAllowed(c, m[key := Entry(1, now)], key, now, PerWindow(c) - 1, lo);
    OpeningCall(c, m, key, now, rest, lo);
    assert ([Call(key, now)] + rest)[1..] == rest;
  }

  lemma CrowdIsTimed(c: Limits, key: string)
    requires c.window >= 2
    ensures Timed(Crowd(c, key), 0) && OnlyCalls(Crowd(c, key))
  {
    var m1 := map[key := Entry(1, 0)];
    var tail := FullBurst(c, key, c.window);
    BurstIsAllowed(c, m1, key, c.window - 1, PerWindow(c) - 1, c.window - 1);
    FullBurstIsAllowed(c, map[], key, c.window, c.window);
    BurstThen(key, c.window - 1, PerWindow(c) - 1, tail, 0, c.window);
    var rest := Burst(key, c.window - 1, PerWindow(c) - 1) + tail;
    assert ([Call(key, 0)] + rest)[1..] == rest;
  }

  /** For every limit and every window longer than an instant, the bound of FewerThanTwoWindows is reached. */
  lemma BoundIsReached(c: Limits, key: string)
    requires c.window >= 2
    ensures Timed(Crowd(c, key), 0) && NoForget(Crowd(c, key))
    ensures var lo := c.window - 1; var ops := Crowd(c, key);
            Allowed(ops, Answers(c, map[], ops), key, lo, lo + c.window) == 2 * PerWindow(c) - 1
  {
    var lo := c.window - 1;
    var m1 := map[key := Entry(1, 0)];
    var first := Burst(key, lo, PerWindow(c) - 1);
    var tail := FullBurst(c, key, c.window);
    CrowdIsTimed(c, key);
    BurstIsAllowed(c, m1, key, lo, PerWindow(c) - 1, lo);
    var m2 := Final(c, m1, first);
    FullBurstIsAllowed(c, m2, key, c.window, lo);
    AnswersInParts(c, m1, first, tail);
    AllowedInParts(first, tail, Answers(c, m1, first), Answers(c, m2, tail), key, lo, lo + c.window);
    OpeningCall(c, map[], key, 0, first + tail, lo);
    assert map[][key := Entry(1, 0)] == m1;
  }
}
