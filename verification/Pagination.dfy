/** Offset-cursor pagination, as used by preference lists and task lists: following the returned cursor
    from the start visits every row of a fixed list exactly once, in order. */
module Pagination {
  import opened Models
  import opened Decimal

  const MAX_INT: int := 0x7FFF_FFFF_FFFF_FFFF

  // ---------- cursors ----------

  /** strconv.Atoi: an optional sign and digits, within the range of int. */
  function Atoi(s: string): Option<int> {
    var signed := s != "" && (s[0] == '+' || s[0] == '-');
    var digits := if signed then s[1..] else s;
    if digits == "" || !AllDigits(digits) then None
    else
      var size: int := Value(digits);
      var n := if signed && s[0] == '-' then 0 - size else size;
      if 0 - MAX_INT - 1 <= n <= MAX_INT then Some(n) else None
  }

  lemma AtoiReadsDigits(n: nat)
    requires n <= MAX_INT
    ensures Atoi(Digits(n)) == Some(n) && Digits(n) != ""
  {
    DigitsRoundTrip(n);
    assert IsDigit(Digits(n)[0]);
  }

  /** Every number of the range is read back, with either sign. */
  lemma AtoiReadsAll(n: nat)
    ensures n <= 0x7FFF_FFFF_FFFF_FFFF ==> Atoi(Digits(n)) == Some(n) && Atoi("+" + Digits(n)) == Some(n)
    ensures n > 0x7FFF_FFFF_FFFF_FFFF ==> Atoi(Digits(n)) == None && Atoi("+" + Digits(n)) == None
    ensures n <= 0x8000_0000_0000_0000 ==> Atoi("-" + Digits(n)) == Some(0 - n)
    ensures n > 0x8000_0000_0000_0000 ==> Atoi("-" + Digits(n)) == None
  {
    DigitsRoundTrip(n);
    assert IsDigit(Digits(n)[0]);
    assert ("+" + Digits(n))[1..] == Digits(n) && ("-" + Digits(n))[1..] == Digits(n);
  }

  /** Only an optional sign followed by digits is read at all. */
  lemma AtoiReadsOnly(s: string)
    requires Atoi(s).Some?
    ensures s != "" && (s[0] == '+' || s[0] == '-' ==> |s| > 1)
    ensures forall i :: 0 <= i < |s| ==> '0' <= s[i] <= '9' || (i == 0 && (s[0] == '+' || s[0] == '-'))
  {
    var signed := s != "" && (s[0] == '+' || s[0] == '-');
    var digits := if signed then s[1..] else s;
    forall i | 0 <= i < |s| && (i > 0 || !signed)
      ensures IsDigit(s[i])
    {
      assert s[i] == digits[if signed then i - 1 else i];
    }
  }

  // ---------- one page ----------

  /** OFFSET and LIMIT of the store, on a list already in order. */
  function Rows<T>(list: seq<T>, offset: nat, limit: nat): seq<T> {
    if offset >= |list| then []
    else if offset + limit >= |list| then list[offset..]
    else list[offset..offset + limit]
  }

  const MAX_PREFERENCES: int := 100

  function PreferenceLimit(limit: int): (n: nat)
    ensures 1 <= n <= MAX_PREFERENCES
  {
    if limit <= 0 || limit > MAX_PREFERENCES then MAX_PREFERENCES else limit
  }

  /** A missing, malformed or negative cursor starts at the beginning. */
  function PreferenceOffset(cursor: string): nat {
    if cursor != "" && Atoi(cursor).Some? && Atoi(cursor).value >= 0 then Atoi(cursor).value else 0
  }

  /** ListPreferences over the rows of one scope in key order. One row more than the limit is read to see
      whether there is a next page. */
  function ListPreferences<T>(list: seq<T>, limit: int, cursor: string): (seq<T>, string) {
    var n := PreferenceLimit(limit);
    var offset := PreferenceOffset(cursor);
    var rows := Rows(list, offset, n + 1);
    if |rows| > n then (rows[..n], Digits(offset + n))
    else if offset + |rows| < |list| then (rows, Digits(offset + |rows|))
    else (rows, "")
  }

  /** The second branch that sets a cursor is never taken. */
  lemma SecondBranchIsDead<T>(list: seq<T>, limit: int, cursor: string)
    ensures var n := PreferenceLimit(limit); var offset := PreferenceOffset(cursor);
            var rows := Rows(list, offset, n + 1);
            |rows| <= n ==> offset + |rows| >= |list|
  {
  }

  /** What a page is: the rows from the offset on, at most `limit` of them, and a cursor to the rest if
      there is a rest. */
  lemma PreferencePage<T>(list: seq<T>, limit: int, cursor: string)
    ensures var n := if 1 <= limit <= 100 then limit else 100;
            var offset := if Atoi(cursor).Some? && Atoi(cursor).value >= 0 then Atoi(cursor).value else 0;
            var (rows, next) := ListPreferences(list, limit, cursor);
            && rows == (if offset >= |list| then [] else if offset + n >= |list| then list[offset..] else list[offset..offset + n])
            && next == if offset + n < |list| then Digits(offset + n) else ""
  {
    SecondBranchIsDead(list, limit, cursor);
    var n, offset := PreferenceLimit(limit), PreferenceOffset(cursor);
    if offset + n < |list| {
      assert Rows(list, offset, n + 1)[..n] == list[offset..offset + n];
    }
  }

  /** Where the returned cursor leads. */
  lemma PreferenceStep<T>(list: seq<T>, limit: int, cursor: string)
    requires |list| <= MAX_INT
    ensures var n := PreferenceLimit(limit); var offset := PreferenceOffset(cursor);
            var (rows, next) := ListPreferences(list, limit, cursor);
            && rows == Rows(list, offset, n)
            && (next == "" <==> offset + n >= |list|)
            && (next != "" ==> PreferenceOffset(next) == offset + n)
  {
    PreferencePage(list, limit, cursor);
    var k := PreferenceOffset(cursor) + PreferenceLimit(limit);
    if k < |list| {
      AtoiReadsDigits(k);
    }
  }

  /** All pages from a cursor on, one after the other. */
  function FollowPreferences<T>(list: seq<T>, limit: int, cursor: string): seq<T>
    requires |list| <= MAX_INT
    decreases |list| - PreferenceOffset(cursor)
  {
    PreferenceStep(list, limit, cursor);
    var (rows, next) := ListPreferences(list, limit, cursor);
    if next == "" then rows else rows + FollowPreferences(list, limit, next)
  }

  /** The rows from `offset` on. */
  function From<T>(list: seq<T>, offset: nat): seq<T> {
    if offset <= |list| then list[offset..] else []
  }

  lemma FromSplits<T>(list: seq<T>, offset: nat, n: nat)
    ensures From(list, offset) == Rows(list, offset, n) + From(list, offset + n)
    ensures offset + n >= |list| ==> From(list, offset) == Rows(list, offset, n)
  {
  }

  lemma {:induction false} PreferencePagesCover<T>(list: seq<T>, limit: int, cursor: string, offset: nat)
    requires |list| <= MAX_INT && offset == PreferenceOffset(cursor)
    ensures FollowPreferences(list, limit, cursor) == From(list, offset)
    decreases |list| - offset
  {
    PreferenceStep(list, limit, cursor);
    var n := PreferenceLimit(limit);
    var next := ListPreferences(list, limit, cursor).1;
    FromSplits(list, offset, n);
    if next != "" {
      PreferencePagesCover(list, limit, next, offset + n);
    }
  }

  /** Pagination is a partition: from the start, the pages add up to exactly the whole list. */
  lemma PreferencePagesPartition<T>(list: seq<T>, limit: int)
    requires |list| <= MAX_INT
    ensures FollowPreferences(list, limit, "") == list
  {
    PreferencePagesCover(list, limit, "", 0);
  }

  // ---------- task lists ----------

  function Filter<T>(list: seq<T>, keep: T -> bool): seq<T> {
    if list == [] then []
    else if keep(list[0]) then [list[0]] + Filter(list[1..], keep)
    else Filter(list[1..], keep)
  }

  lemma {:induction false} FilterConcat<T>(a: seq<T>, b: seq<T>, keep: T -> bool)
    ensures Filter(a + b, keep) == Filter(a, keep) + Filter(b, keep)
  {
    if a == [] {
      assert a + b == b;
    } else {
      assert (a + b)[1..] == a[1..] + b;
      FilterConcat(a[1..], b, keep);
    }
  }

  /** Filtering keeps exactly the rows asked for, each as often as it occurs, in order. */
  lemma {:induction false} FilterMeans<T>(list: seq<T>, keep: T -> bool, x: T)
    ensures multiset(Filter(list, keep))[x] == if keep(x) then multiset(list)[x] else 0
    ensures (forall y :: y in list ==> keep(y)) ==> Filter(list, keep) == list
  {
    if list != [] {
      FilterMeans(list[1..], keep, x);
      assert list == [list[0]] + list[1..];
    }
  }

  datatype TaskPage<T> = Page(tasks: seq<T>, next: string) | BadRequest

  /** ListTasks over the user's tasks, newest first, for a limit that passed validation: the status
      filter is applied to the rows of the page, in a loop. */
  method ListTasks<T>(list: seq<T>, limit: nat, offset: nat, cursor: string, keep: T -> bool)
    returns (r: TaskPage<T>)
    requires 1 <= limit <= 200
    ensures r == TaskList(list, limit, offset, cursor, keep)
    ensures r.BadRequest? <==> cursor != "" && (Atoi(cursor).None? || Atoi(cursor).value < 0)
    ensures r.Page? ==>
              var from := if cursor != "" then Atoi(cursor).value else offset;
              && r.tasks == Filter(if from >= |list| then [] else if from + limit >= |list| then list[from..] else list[from..from + limit], keep)
              && r.next == if from + limit < |list| then Digits(from + limit) else ""
  {
    var from := offset;
    if cursor != "" {
      var n := Atoi(cursor);
      if n.None? || n.value < 0 {
        return BadRequest;
      }
      from := n.value;
    }
    var rows := Rows(list, from, limit + 1);
    var hasMore := |rows| > limit;
    if hasMore {
      rows := rows[..limit];
    }
    TaskRows(list, from, limit);
    var out := [];
    for i := 0 to |rows|
      invariant out == Filter(rows[..i], keep)
    {
      assert rows[..i + 1] == rows[..i] + [rows[i]];
      FilterConcat(rows[..i], [rows[i]], keep);
      if keep(rows[i]) {
        out := out + [rows[i]];
      }
    }
    assert rows[..|rows|] == rows;
    return Page(out, if hasMore then Digits(from + limit) else "");
  }

  lemma TaskRows<T>(list: seq<T>, from: nat, limit: nat)
    requires limit >= 1
    ensures var rows := Rows(list, from, limit + 1);
            && (|rows| > limit <==> from + limit < |list|)
            && Rows(list, from, limit) == if |rows| > limit then rows[..limit] else rows
  {
    if from + limit < |list| {
      assert Rows(list, from, limit + 1)[..limit] == list[from..from + limit];
    }
  }

  /** What ListTasks answers. */
  function TaskList<T>(list: seq<T>, limit: nat, offset: nat, cursor: string, keep: T -> bool): TaskPage<T> {
    if cursor != "" && (Atoi(cursor).None? || Atoi(cursor).value < 0) then BadRequest
    else
      var from := if cursor != "" then Atoi(cursor).value else offset;
      Page(Filter(Rows(list, from, limit), keep), if from + limit < |list| then Digits(from + limit) else "")
  }

  lemma TaskStep<T>(list: seq<T>, limit: nat, offset: nat, from: nat, cursor: string, keep: T -> bool)
    requires limit >= 1 && |list| <= MAX_INT
    requires if cursor == "" then from == offset else Atoi(cursor) == Some(from)
    ensures var page := TaskList(list, limit, offset, cursor, keep);
            && page == Page(Filter(Rows(list, from, limit), keep), page.next)
            && (page.next == "" <==> from + limit >= |list|)
            && (page.next != "" ==> Atoi(page.next) == Some(from + limit))
  {
    if from + limit < |list| {
      AtoiReadsDigits(from + limit);
    }
  }

  /** The tasks of all pages, from the given cursor or without one from the given offset. */
  function FollowTasks<T>(list: seq<T>, limit: nat, offset: nat, from: nat, cursor: string, keep: T -> bool): seq<T>
    requires limit >= 1 && |list| <= MAX_INT
    requires if cursor == "" then from == offset else Atoi(cursor) == Some(from)
    decreases |list| - from
  {
    TaskStep(list, limit, offset, from, cursor, keep);
    var page := TaskList(list, limit, offset, cursor, keep);
    if page.next == "" then page.tasks
    else page.tasks + FollowTasks(list, limit, offset, from + limit, page.next, keep)
  }

  /** For tasks, the pages from a cursor on, or without one from any offset on, add up to the
      status-filtered rest of the list. */
  lemma {:induction false} TaskPagesCover<T>(list: seq<T>, limit: nat, offset: nat, from: nat, cursor: string, keep: T -> bool)
    requires limit >= 1 && |list| <= MAX_INT
    requires if cursor == "" then from == offset else Atoi(cursor) == Some(from)
    ensures FollowTasks(list, limit, offset, from, cursor, keep) == Filter(From(list, from), keep)
    decreases |list| - from
  {
    TaskStep(list, limit, offset, from, cursor, keep);
    FromSplits(list, from, limit);
    FilterConcat(Rows(list, from, limit), From(list, from + limit), keep);
    var next := TaskList(list, limit, offset, cursor, keep).next;
    if next != "" {
      TaskPagesCover(list, limit, offset, from + limit, next, keep);
    }
  }

  /** From the start, the pages of tasks add up to exactly the status-filtered list. */
  lemma TaskPagesPartition<T>(list: seq<T>, limit: nat, keep: T -> bool)
    requires limit >= 1 && |list| <= MAX_INT
    ensures FollowTasks(list, limit, 0, 0, "", keep) == Filter(list, keep)
  {
    TaskPagesCover(list, limit, 0, 0, "", keep);
    assert From(list, 0) == list;
  }
}
