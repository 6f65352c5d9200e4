/** The workflow lease and its start gate, over every interleaving of Start, Release and everything
    else the orchestrator does. */
module WorkflowLease {
  import opened Models
  import opened Tables
  import opened Orchestrator

  /** Holder and expiry are both set or both null. */
  predicate RowOk(row: Lease) {
    row.holder.Some? <==> row.expiresAt.Some?
  }

  predicate RowsPaired(db: Db) {
    forall t :: t in db.leases ==> RowOk(db.leases[t])
  }

  predicate RowHeld(db: Db, t: TaskId, holder: string, lease: LeaseId, until: Time) {
    t in db.leases && db.leases[t] == Lease(lease, Some(holder), Some(until))
  }

  predicate IsSuccess(e: Event) {
    e.Started? || e.AlreadyRunning?
  }

  predicate IsFor(e: Event, holder: string, lease: LeaseId)
    requires IsSuccess(e)
  {
    e.holder == holder && e.lease == lease
  }

  // ---------- a stored lease stays until it expires or is released ----------

  /** One step at or before the expiry, other than a Release naming the lease, leaves the row alone. */
  lemma StepKeepsHeldRow(s: State, a: Action, t: TaskId, holder: string, lease: LeaseId, until: Time)
    requires Enabled(s, a)
    requires RowHeld(s.db, t, holder, lease, until) && s.clock <= until
    requires a != Release(t, lease)
    ensures RowHeld(Apply(s, a).db, t, holder, lease, until)
  {
    if !a.Acquire? && !a.Release? {
      OtherStepKeepsLeases(s, a);
    }
  }

  lemma OtherStepKeepsLeases(s: State, a: Action)
    requires Enabled(s, a) && !a.Acquire? && !a.Release?
    ensures Apply(s, a).db.leases == s.db.leases
  {
  }

  lemma OtherStepKeepsLog(s: State, a: Action)
    requires Enabled(s, a) && !a.Compare? && !a.Acquire? && !a.Release?
    ensures Apply(s, a).hist.log == s.hist.log
  {
  }

  lemma ClockNeverTurnsBack(s: State, a: Action)
    requires Enabled(s, a)
    ensures s.clock <= Apply(s, a).clock
  {
  }

  lemma StepExtendsLog(s: State, a: Action)
    requires Enabled(s, a)
    ensures s.hist.log <= Apply(s, a).hist.log
    ensures |Apply(s, a).hist.log| <= |s.hist.log| + 1
  {
    if !a.Compare? && !a.Acquire? && !a.Release? {
      OtherStepKeepsLog(s, a);
    }
  }

  // ---------- who can still be answered with success ----------

  /** The handler has read the row of `t` when it held another pair, and is about to be answered
      "already_running" on the strength of that. */
  predicate IsStale(p: Thread, now: Time, t: TaskId, holder: string, lease: LeaseId) {
    && p.Comparing? && p.req.task == t
    && Matches(p.row, p.req.holder, p.lease) && p.row.value.expiresAt.value > now
    && (p.req.holder != holder || p.lease != lease)
  }

  predicate StaleStart(s: State, t: TaskId, holder: string, lease: LeaseId) {
    exists th :: th in s.threads && IsStale(s.threads[th], s.clock, t, holder, lease)
  }

  /** Every success for `t` recorded from position `from` on is for the given pair, and Acquire gives
      the stored expiry. */
  predicate OnlyFor(log: seq<Event>, from: nat, t: TaskId, holder: string, lease: LeaseId, until: Time) {
    forall m :: from <= m < |log| && IsSuccess(log[m]) && log[m].task == t ==>
      IsFor(log[m], holder, lease) && (log[m].Started? ==> log[m].expiresAt == until)
  }

  lemma StepMakesNoStale(s: State, a: Action, t: TaskId, holder: string, lease: LeaseId, until: Time)
    requires Enabled(s, a)
    requires RowHeld(s.db, t, holder, lease, until)
    requires !StaleStart(s, t, holder, lease)
    ensures !StaleStart(Apply(s, a), t, holder, lease)
  {
    var s' := Apply(s, a);
    forall x | x in s'.threads
      ensures !IsStale(s'.threads[x], s'.clock, t, holder, lease)
    {
      ClockNeverTurnsBack(s, a);
      if s'.threads[x].Comparing? {
        ComparingComesFromLook(s, a, x);
      }
      assert x in s.threads ==> !IsStale(s.threads[x], s.clock, t, holder, lease);
    }
  }

  /** The handler in `x` is where it was, or has just read the row. */
  predicate ReadJustNow(s: State, a: Action, x: ThreadId, p: Thread)
    requires p.Comparing?
  {
    || (x in s.threads && p == s.threads[x])
    || (a == Look(x) && p.row == RowOf(s.db, p.req.task) && p.since == |s.hist.log|)
  }

  lemma ComparingComesFromLook(s: State, a: Action, x: ThreadId)
    requires Enabled(s, a)
    requires x in Apply(s, a).threads && Apply(s, a).threads[x].Comparing?
    ensures ReadJustNow(s, a, x, Apply(s, a).threads[x])
  {
    if IsTaskHandler(a) {
      TaskHandlerMovesNoStart(s, a, x);
    } else if IsWorkflow(a) {
      WorkflowComparing(s, a, x);
    }
  }

  lemma TaskHandlerMovesNoStart(s: State, a: Action, x: ThreadId)
    requires Enabled(s, a) && IsTaskHandler(a)
    requires x in ApplyTask(s, a).threads && IsStartThread(ApplyTask(s, a).threads[x])
    ensures x in s.threads && ApplyTask(s, a).threads[x] == s.threads[x]
  {
  }

  lemma WorkflowComparing(s: State, a: Action, x: ThreadId)
    requires Enabled(s, a) && IsWorkflow(a)
    requires x in ApplyWorkflow(s, a).threads && ApplyWorkflow(s, a).threads[x].Comparing?
    ensures ReadJustNow(s, a, x, ApplyWorkflow(s, a).threads[x])
  {
  }

  lemma StepSucceedsForHolder(s: State, a: Action, t: TaskId, holder: string, lease: LeaseId, until: Time)
    requires Enabled(s, a)
    requires RowHeld(s.db, t, holder, lease, until) && s.clock <= until
    requires !StaleStart(s, t, holder, lease)
    ensures OnlyFor(Apply(s, a).hist.log, |s.hist.log|, t, holder, lease, until)
  {
    if a.Compare? {
      assert !IsStale(s.threads[a.th], s.clock, t, holder, lease);
    } else if !a.Acquire? && !a.Release? {
      OtherStepKeepsLog(s, a);
    }
  }

  lemma OnlyForInParts(a: seq<Event>, b: seq<Event>, from: nat, t: TaskId, holder: string, lease: LeaseId, until: Time)
    requires a <= b && OnlyFor(a, from, t, holder, lease, until) && OnlyFor(b, |a|, t, holder, lease, until)
    ensures OnlyFor(b, from, t, holder, lease, until)
  {
    forall m | from <= m < |b| && IsSuccess(b[m]) && b[m].task == t
      ensures IsFor(b[m], holder, lease) && (b[m].Started? ==> b[m].expiresAt == until)
    {
      if m < |a| {
        assert a[m] == b[m];
      }
    }
  }

  /** From state `i` to state `k` of a run the clock does not pass `until` and no Release names the lease. */
  predicate UndisturbedFor(states: seq<State>, acts: seq<Action>, i: nat, k: nat, t: TaskId, lease: LeaseId, until: Time) {
    && IsRun(states, acts) && i <= k < |states|
    && (i < k ==> states[k - 1].clock <= until)
    && Release(t, lease) !in acts[i..k]
  }

  lemma OneStepLess(states: seq<State>, acts: seq<Action>, i: nat, k: nat, t: TaskId, lease: LeaseId, until: Time)
    requires i < k && UndisturbedFor(states, acts, i, k, t, lease, until)
    ensures UndisturbedFor(states, acts, i, k - 1, t, lease, until)
    ensures Step(states[k - 1], acts[k - 1], states[k]) && acts[k - 1] != Release(t, lease)
  {
    assert acts[i..k] == acts[i..k - 1] + [acts[k - 1]];
    assert Step(states[k - 1], acts[k - 1], states[k]);
    if i < k - 1 {
      assert Step(states[k - 2], acts[k - 2], states[k - 1]);
      ClockNeverTurnsBack(states[k - 2], acts[k - 2]);
    }
  }

  lemma {:induction false} RowStaysHeld(
      states: seq<State>, acts: seq<Action>, i: nat, k: nat, t: TaskId, holder: string, lease: LeaseId, until: Time)
    requires UndisturbedFor(states, acts, i, k, t, lease, until)
    requires RowHeld(states[i].db, t, holder, lease, until)
    ensures RowHeld(states[k].db, t, holder, lease, until) && states[i].hist.log <= states[k].hist.log
    decreases k
  {
    if i < k {
      OneStepLess(states, acts, i, k, t, lease, until);
      RowStaysHeld(states, acts, i, k - 1, t, holder, lease, until);
      StepKeepsHeldRow(states[k - 1], acts[k - 1], t, holder, lease, until);
      StepExtendsLog(states[k - 1], acts[k - 1]);
    }
  }

  lemma {:induction false} OnlyHolderSucceeds(
      states: seq<State>, acts: seq<Action>, i: nat, k: nat, t: TaskId, holder: string, lease: LeaseId, until: Time)
    requires UndisturbedFor(states, acts, i, k, t, lease, until)
    requires RowHeld(states[i].db, t, holder, lease, until) && !StaleStart(states[i], t, holder, lease)
    ensures OnlyFor(states[k].hist.log, |states[i].hist.log|, t, holder, lease, until)
    ensures !StaleStart(states[k], t, holder, lease)
    decreases k
  {
    if i < k {
      OneStepLess(states, acts, i, k, t, lease, until);
      OnlyHolderSucceeds(states, acts, i, k - 1, t, holder, lease, until);
      RowStaysHeld(states, acts, i, k - 1, t, holder, lease, until);
      StepSucceedsForHolder(states[k - 1], acts[k - 1], t, holder, lease, until);
      StepMakesNoStale(states[k - 1], acts[k - 1], t, holder, lease, until);
      StepExtendsLog(states[k - 1], acts[k - 1]);
      OnlyForInParts(states[k - 1].hist.log, states[k].hist.log, |states[i].hist.log|, t, holder, lease, until);
    }
  }

  /** Over a run, until the clock passes the expiry or a Release names the lease: the row does not change,
      so a repeated Start of the same pair does not extend the expiry; and if no Start of another runner
      was about to be answered from an old read, only the stored pair is answered with success. */
  lemma HeldUntilExpiryOrRelease(
      states: seq<State>, acts: seq<Action>, i: nat, k: nat, t: TaskId, holder: string, lease: LeaseId, until: Time)
    requires IsRun(states, acts) && i <= k < |states|
    requires RowHeld(states[i].db, t, holder, lease, until)
    requires i < k ==> states[k - 1].clock <= until
    requires Release(t, lease) !in acts[i..k]
    ensures RowHeld(states[k].db, t, holder, lease, until)
    ensures states[i].hist.log <= states[k].hist.log
    ensures !StaleStart(states[i], t, holder, lease) ==>
              && OnlyFor(states[k].hist.log, |states[i].hist.log|, t, holder, lease, until)
              && !StaleStart(states[k], t, holder, lease)
  {
    RowStaysHeld(states, acts, i, k, t, holder, lease, until);
    if !StaleStart(states[i], t, holder, lease) {
      OnlyHolderSucceeds(states, acts, i, k, t, holder, lease, until);
    }
  }

  /** A continuation of `s` during which the clock does not pass `until` before the last step and no
      Release names the lease. */
  predicate WhileHeld(s: State, states: seq<State>, acts: seq<Action>, t: TaskId, lease: LeaseId, until: Time) {
    && IsRun(states, acts) && states[0] == s
    && (acts != [] ==> states[|acts| - 1].clock <= until)
    && Release(t, lease) !in acts
  }

  /** Whatever happens next, only the stored pair is answered with success while it is in force. */
  ghost predicate Excludes(s: State, t: TaskId, holder: string, lease: LeaseId, until: Time) {
    forall states: seq<State>, acts: seq<Action> :: WhileHeld(s, states, acts, t, lease, until) ==>
      OnlyFor(states[|acts|].hist.log, |s.hist.log|, t, holder, lease, until)
  }

  /** A held lease excludes every other runner in every continuation if and only if no Start of another
      runner is, at that moment, between a read of the row that showed its own unexpired lease and its answer. */
  lemma ExcludesExactly(s: State, t: TaskId, holder: string, lease: LeaseId, until: Time)
    requires RowHeld(s.db, t, holder, lease, until) && s.clock <= until
    ensures Excludes(s, t, holder, lease, until) <==> !StaleStart(s, t, holder, lease)
  {
    if StaleStart(s, t, holder, lease) {
      var th :| th in s.threads && IsStale(s.threads[th], s.clock, t, holder, lease);
      var s' := Apply(s, Compare(th));
      var states, acts := [s, s'], [Compare(th)];
      assert WhileHeld(s, states, acts, t, lease, until);
      assert IsSuccess(s'.hist.log[|s.hist.log|]);
      assert !OnlyFor(s'.hist.log, |s.hist.log|, t, holder, lease, until);
    } else {
      forall states: seq<State>, acts: seq<Action> | WhileHeld(s, states, acts, t, lease, until)
        ensures OnlyFor(states[|acts|].hist.log, |s.hist.log|, t, holder, lease, until)
      {
        assert acts[0..|acts|] == acts;
        HeldUntilExpiryOrRelease(states, acts, 0, |acts|, t, holder, lease, until);
      }
    }
  }

  // ---------- exclusion over whole runs ----------

  /** A Release naming lease `l` of task `t` is among the events from `from` up to `to`. */
  predicate ReleasedWithin(log: seq<Event>, from: nat, to: nat, t: TaskId, l: LeaseId) {
    exists k :: from <= k < to && k < |log| && log[k] == Released(t, l)
  }

  /** What a runner knew of the row at event `since` is still so, unless it expired or was released. */
  predicate Upheld(s: State, t: TaskId, holder: string, lease: LeaseId, until: Time, since: nat) {
    && since <= |s.hist.log|
    && (s.clock <= until && !ReleasedWithin(s.hist.log, since, |s.hist.log|, t, lease) ==>
          RowHeld(s.db, t, holder, lease, until))
  }

  predicate SuccessOk(s: State, e: Event, i: nat)
    requires IsSuccess(e)
  {
    && Upheld(s, e.task, e.holder, e.lease, e.expiresAt, e.since)
    && e.since <= i && e.at <= s.clock
    && (e.Started? ==> e.since == i)
    && (e.AlreadyRunning? ==> e.at < e.expiresAt)
  }

  predicate ReadOk(s: State, p: Thread) {
    p.Comparing? ==>
      && p.since <= |s.hist.log|
      && (Matches(p.row, p.req.holder, p.lease) ==>
            Upheld(s, p.req.task, p.req.holder, p.lease, p.row.value.expiresAt.value, p.since))
  }

  /** Two successes for one task and different pairs: the earlier lease had expired, or was released, or
      the later answer rests on a read of the row after which its own lease was released. */
  predicate Apart(log: seq<Event>, i: nat, k: nat)
    requires i < k < |log| && IsSuccess(log[i]) && IsSuccess(log[k])
  {
    || log[k].at > log[i].expiresAt
    || ReleasedWithin(log, log[i].since, k, log[i].task, log[i].lease)
    || ReleasedWithin(log, log[k].since, k, log[k].task, log[k].lease)
  }

  predicate Rivals(log: seq<Event>, i: nat, k: nat) {
    && i < k < |log| && IsSuccess(log[i]) && IsSuccess(log[k])
    && log[i].task == log[k].task && !IsFor(log[k], log[i].holder, log[i].lease)
  }

  predicate Exclusive(log: seq<Event>) {
    forall i, k :: 0 <= i < k < |log| && Rivals(log, i, k) ==> Apart(log, i, k)
  }

  predicate LeaseInv(s: State) {
    && RowsPaired(s.db)
    && (forall i :: 0 <= i < |s.hist.log| && IsSuccess(s.hist.log[i]) ==> SuccessOk(s, s.hist.log[i], i))
    && (forall th :: th in s.threads ==> ReadOk(s, s.threads[th]))
    && Exclusive(s.hist.log)
  }

  lemma LaterReleases(a: seq<Event>, b: seq<Event>, from: nat, to: nat, t: TaskId, l: LeaseId)
    requires a <= b && to <= |a|
    ensures ReleasedWithin(a, from, to, t, l) <==> ReleasedWithin(b, from, to, t, l)
    ensures ReleasedWithin(a, from, to, t, l) ==> ReleasedWithin(b, from, |b|, t, l)
  {
    if ReleasedWithin(a, from, to, t, l) {
      var k :| from <= k < to && k < |a| && a[k] == Released(t, l);
      assert b[k] == Released(t, l);
    }
    if ReleasedWithin(b, from, to, t, l) {
      var k :| from <= k < to && k < |b| && b[k] == Released(t, l);
      assert a[k] == Released(t, l);
    }
  }

  lemma StepKeepsUpheld(s: State, a: Action, t: TaskId, holder: string, lease: LeaseId, until: Time, since: nat)
    requires Enabled(s, a) && Upheld(s, t, holder, lease, until, since)
    ensures Upheld(Apply(s, a), t, holder, lease, until, since)
  {
    var s' := Apply(s, a);
    StepExtendsLog(s, a);
    ClockNeverTurnsBack(s, a);
    LaterReleases(s.hist.log, s'.hist.log, since, |s.hist.log|, t, lease);
    assert a == Release(t, lease) ==> s'.hist.log[|s.hist.log|] == Released(t, lease);
    if s'.clock <= until && !ReleasedWithin(s'.hist.log, since, |s'.hist.log|, t, lease) {
      StepKeepsHeldRow(s, a, t, holder, lease, until);
    }
  }

  /** A new success keeps exclusion if it is borne out by the row, or its own lease was released. */
  lemma SuccessKeepsExclusive(s: State, e: Event)
    requires LeaseInv(s) && IsSuccess(e) && e.at == s.clock
    requires || ReleasedWithin(s.hist.log, e.since, |s.hist.log|, e.task, e.lease)
             || forall h, l, u :: RowHeld(s.db, e.task, h, l, u) && s.clock <= u ==> IsFor(e, h, l)
    ensures Exclusive(s.hist.log + [e])
  {
    var log := s.hist.log;
    var log' := log + [e];
    forall i: nat, k: nat | Rivals(log', i, k)
      ensures Apart(log', i, k)
    {
      LaterReleases(log, log', log'[k].since, if k < |log| then k else |log|, log'[k].task, log'[k].lease);
      LaterReleases(log, log', log[i].since, if k < |log| then k else |log|, log[i].task, log[i].lease);
      if k < |log| {
        assert Rivals(log, i, k);
      } else {
        assert SuccessOk(s, log[i], i);
      }
    }
  }

  lemma ReleaseKeepsExclusive(log: seq<Event>, e: Event)
    requires Exclusive(log) && e.Released?
    ensures Exclusive(log + [e])
  {
    var log' := log + [e];
    forall i: nat, k: nat | Rivals(log', i, k)
      ensures Apart(log', i, k)
    {
      assert Rivals(log, i, k);
      LaterReleases(log, log', log[k].since, k, log[k].task, log[k].lease);
      LaterReleases(log, log', log[i].since, k, log[i].task, log[i].lease);
    }
  }

  lemma StepKeepsExclusive(s: State, a: Action)
    requires LeaseInv(s) && Enabled(s, a)
    ensures Exclusive(Apply(s, a).hist.log)
  {
    if a.Compare? {
      var p := s.threads[a.th];
      assert ReadOk(s, p);
      if Matches(p.row, p.req.holder, p.lease) && p.row.value.expiresAt.value > s.clock {
        SuccessKeepsExclusive(s, Apply(s, a).hist.log[|s.hist.log|]);
      }
    } else if a.Acquire? {
      if |Apply(s, a).hist.log| > |s.hist.log| {
        SuccessKeepsExclusive(s, Apply(s, a).hist.log[|s.hist.log|]);
      }
    } else if a.Release? {
      ReleaseKeepsExclusive(s.hist.log, Released(a.task, a.lease));
    } else {
      OtherStepKeepsLog(s, a);
    }
  }

  lemma StepKeepsPaired(s: State, a: Action)
    requires RowsPaired(s.db) && Enabled(s, a)
    ensures RowsPaired(Apply(s, a).db)
  {
    if !a.Acquire? && !a.Release? {
      OtherStepKeepsLeases(s, a);
    }
  }

  /** A success just recorded is borne out by what its handler knew. */
  lemma NewSuccessIsOk(s: State, a: Action)
    requires LeaseInv(s) && Enabled(s, a) && |Apply(s, a).hist.log| > |s.hist.log|
    ensures var e := Apply(s, a).hist.log[|s.hist.log|]; IsSuccess(e) ==> SuccessOk(Apply(s, a), e, |s.hist.log|)
  {
    var s' := Apply(s, a);
    if a.Compare? {
      var p := s.threads[a.th];
      assert ReadOk(s, p);
      StepKeepsUpheld(s, a, p.req.task, p.req.holder, p.lease, p.row.value.expiresAt.value, p.since);
    } else if !a.Acquire? && !a.Release? {
      OtherStepKeepsLog(s, a);
    }
  }

  lemma StepKeepsSuccesses(s: State, a: Action, i: nat)
    requires LeaseInv(s) && Enabled(s, a)
    requires i < |Apply(s, a).hist.log| && IsSuccess(Apply(s, a).hist.log[i])
    ensures SuccessOk(Apply(s, a), Apply(s, a).hist.log[i], i)
  {
    StepExtendsLog(s, a);
    ClockNeverTurnsBack(s, a);
    if i < |s.hist.log| {
      var e := s.hist.log[i];
      assert SuccessOk(s, e, i);
      StepKeepsUpheld(s, a, e.task, e.holder, e.lease, e.expiresAt, e.since);
    } else {
      NewSuccessIsOk(s, a);
    }
  }

  lemma StepKeepsReads(s: State, a: Action, x: ThreadId)
    requires LeaseInv(s) && Enabled(s, a) && x in Apply(s, a).threads
    ensures ReadOk(Apply(s, a), Apply(s, a).threads[x])
  {
    var p := Apply(s, a).threads[x];
    StepExtendsLog(s, a);
    if p.Comparing? {
      ComparingComesFromLook(s, a, x);
    }
    if p.Comparing? && Matches(p.row, p.req.holder, p.lease) {
      assert x in s.threads && s.threads[x] == p ==> ReadOk(s, p);
      StepKeepsUpheld(s, a, p.req.task, p.req.holder, p.lease, p.row.value.expiresAt.value, p.since);
    }
  }

  lemma StepKeepsLease(s: State, a: Action)
    requires LeaseInv(s) && Enabled(s, a)
    ensures LeaseInv(Apply(s, a))
  {
    var s' := Apply(s, a);
    StepKeepsPaired(s, a);
    StepKeepsExclusive(s, a);
    forall i | 0 <= i < |s'.hist.log| && IsSuccess(s'.hist.log[i])
      ensures SuccessOk(s', s'.hist.log[i], i)
    {
      StepKeepsSuccesses(s, a, i);
    }
    forall x | x in s'.threads
      ensures ReadOk(s', s'.threads[x])
    {
      StepKeepsReads(s, a, x);
    }
  }

  lemma {:induction false} RunKeepsLease(states: seq<State>, acts: seq<Action>, i: nat)
    requires IsRun(states, acts) && Init(states[0]) && RowsPaired(states[0].db)
    requires i < |states|
    ensures LeaseInv(states[i])
  {
    if i > 0 {
      RunKeepsLease(states, acts, i - 1);
      StepKeepsLease(states[i - 1], acts[i - 1]);
    }
  }

  /** Mutual exclusion over every run. Take two successful answers for one task and different runners.
      If the later one is "started", the earlier lease had expired, or a Release naming it came after its
      runner last knew it to be held. The same holds if the later one is "already_running", unless its own
      lease was released between its read of the row and its answer. And rows stay well formed. */
  lemma LeaseExclusion(states: seq<State>, acts: seq<Action>, n: nat, i: nat, k: nat)
    requires IsRun(states, acts) && Init(states[0]) && RowsPaired(states[0].db)
    requires n < |states|
    requires Rivals(states[n].hist.log, i, k)
    ensures var log := states[n].hist.log;
            || log[k].at > log[i].expiresAt
            || ReleasedWithin(log, log[i].since, k, log[i].task, log[i].lease)
            || (log[k].AlreadyRunning? && ReleasedWithin(log, log[k].since, k, log[k].task, log[k].lease))
    ensures states[n].hist.log[i].Started? ==> states[n].hist.log[i].since == i
    ensures RowsPaired(states[n].db)
  {
    RunKeepsLease(states, acts, n);
    var log := states[n].hist.log;
    assert Apart(log, i, k);
    assert SuccessOk(states[n], log[i], i) && SuccessOk(states[n], log[k], k);
  }

  /** "already_running" is answered only before the expiry that was read, and then the row still holds the
      pair unless a Release named its lease between the read and the answer. So a Start is stale only
      because of such a Release. */
  lemma AlreadyRunningIsHeldOrReleased(states: seq<State>, acts: seq<Action>, n: nat, th: ThreadId)
    requires IsRun(states, acts) && Init(states[0]) && RowsPaired(states[0].db)
    requires n < |acts| && acts[n] == Compare(th)
    requires |states[n + 1].hist.log| > |states[n].hist.log|
    ensures th in states[n].threads && states[n].threads[th].Comparing?
    ensures var p := states[n].threads[th];
            && Matches(p.row, p.req.holder, p.lease) && p.row.value.expiresAt.value > states[n].clock
            && states[n + 1].hist.log == states[n].hist.log
                 + [AlreadyRunning(p.req.task, p.req.holder, p.lease, states[n].clock, p.row.value.expiresAt.value, p.since)]
            && (|| RowHeld(states[n].db, p.req.task, p.req.holder, p.lease, p.row.value.expiresAt.value)
                || ReleasedWithin(states[n].hist.log, p.since, |states[n].hist.log|, p.req.task, p.lease))
  {
    RunKeepsLease(states, acts, n);
    assert Enabled(states[n], acts[n]);
    assert ReadOk(states[n], states[n].threads[th]);
  }

  // ---------- Release and Acquire on their own ----------

  /** A Release naming another lease id changes nothing in the tables, and one that names the stored
      lease frees that row alone, for anyone; repeating it makes no difference. */
  lemma ReleaseFreesExactly(db: Db, t: TaskId, lease: LeaseId, x: TaskId)
    ensures var after := ReleaseLease(db, t, lease);
            && (after != db <==> t in db.leases && db.leases[t].id == lease && db.leases[t] != Lease(lease, None, None))
            && (x != t ==> (x in after.leases <==> x in db.leases) && (x in db.leases ==> after.leases[x] == db.leases[x]))
            && (t in db.leases && db.leases[t].id == lease ==> t in after.leases && after.leases[t] == Lease(lease, None, None))
            && ReleaseLease(after, t, lease) == after
  {
    var after := ReleaseLease(db, t, lease);
    if t in db.leases && db.leases[t].id == lease {
      assert after.leases[t] == Lease(lease, None, None);
      assert ReleaseLease(after, t, lease).leases == after.leases;
      if db.leases[t] == Lease(lease, None, None) {
        assert after.leases == db.leases;
      }
    }
  }

  /** The other half of exclusion: Acquire refuses only while another pair is stored and not expired; in
      particular it succeeds for anyone after a Release that names the stored lease, and after expiry. */
  lemma AcquireSucceedsExactly(db: Db, t: TaskId, id: LeaseId, holder: string, expiresAt: Time, now: Time)
    requires RowsPaired(db)
    ensures var (after, r) := AcquireLease(db, t, id, holder, expiresAt, now);
            && (r.LeaseHeld? <==>
                  exists h, l, e :: RowHeld(db, t, h, l, e) && now <= e && (h != holder || l != id))
            && (r.Acquired? ==> t in after.leases && after.leases[t].id == id && after.leases[t].holder == Some(holder))
    ensures forall l :: t in db.leases && db.leases[t].id == l ==>
              AcquireLease(ReleaseLease(db, t, l), t, id, holder, expiresAt, now).1
              == Acquired(Lease(id, Some(holder), Some(expiresAt)))
  {
    if t in db.leases && db.leases[t].holder.Some? {
      var row := db.leases[t];
      assert RowOk(row);
      assert RowHeld(db, t, row.holder.value, row.id, row.expiresAt.value);
    }
  }

  /** Acquire as the read of the row, and what is decided from it: the row to write, if any, and the result. */
  function DecideAcquire(row: Option<Lease>, id: LeaseId, holder: string, expiresAt: Time, now: Time)
    : (Option<Lease>, AcquireResult)
  {
    var granted := Lease(id, Some(holder), Some(expiresAt));
    if row.None? || IsFree(row.value, now) then (Some(granted), Acquired(granted))
    else if row.value.holder == Some(holder) && row.value.id == id then (None, Acquired(row.value))
    else (None, LeaseHeld)
  }

  function WriteRow(db: Db, t: TaskId, row: Option<Lease>): Db {
    if row.Some? then db.(leases := db.leases[t := row.value]) else db
  }

  /** Why Acquire has to be one atomic step. Reading and writing without a step in between is Acquire. But
      if two runners both read the existing row before either writes, then both are told that they have
      the lease if and only if the row was free, and the row is left to the second. */
  lemma SeparatedAcquires(db: Db, t: TaskId, a: LeaseId, b: LeaseId, h: string, k: string, until: Time, now: Time)
    requires t in db.leases && (a != b || h != k)
    ensures var (wa, ra) := DecideAcquire(RowOf(db, t), a, h, until, now);
            var (wb, rb) := DecideAcquire(RowOf(db, t), b, k, until, now);
            && AcquireLease(db, t, a, h, until, now) == (WriteRow(db, t, wa), ra)
            && (ra.Acquired? && rb.Acquired? <==> IsFree(db.leases[t], now))
            && (IsFree(db.leases[t], now) ==> RowHeld(WriteRow(WriteRow(db, t, wa), t, wb), t, k, b, until))
            && (now <= until && ra.Acquired? && IsFree(db.leases[t], now) ==>
                  AcquireLease(AcquireLease(db, t, a, h, until, now).0, t, b, k, until, now).1 == LeaseHeld)
  {
  }

  // ---------- exclusion can fail: a run ----------

  /** Two Starts for one task without a plan, under different pairs, each with its idempotency key. */
  predicate TwoRunners(db: Db, a: StartRequest, b: StartRequest) {
    && a.task == b.task < |db.tasks| && db.tasks[a.task].plan.None?
    && a.holder != "" && b.holder != "" && a.key.Some? && b.key.Some? && (a.holder != b.holder || a.key != b.key)
  }

  /** Exclusion does fail: from every start in which `a` holds an unexpired lease there is a run in which a
      repeated Start of `a` reads that, `a` releases the lease, `b` is granted it, and then the Start of `a` is
      answered "already_running" while the lease of `b` is stored and in force. */
  lemma StaleStartSucceeds(s: State, a: StartRequest, b: StartRequest, until: Time)
    returns (states: seq<State>, acts: seq<Action>)
    requires Init(s) && TwoRunners(s.db, a, b)
    requires RowHeld(s.db, a.task, a.holder, a.key.value, until) && s.clock < until
    ensures IsRun(states, acts) && |acts| == 10 && states[0] == s && Release(a.task, b.key.value) !in acts[4..]
    ensures RowHeld(states[9].db, a.task, b.holder, b.key.value, s.clock + LeaseTTL(b)) && states[9].clock == s.clock
    ensures StaleStart(states[9], a.task, b.holder, b.key.value)
    ensures states[10].db == states[9].db
    ensures states[10].hist.log ==
            [Released(a.task, a.key.value),
             Started(b.task, b.holder, b.key.value, s.clock, s.clock + LeaseTTL(b), 1),
             AlreadyRunning(a.task, a.holder, a.key.value, s.clock, until, 0)]
  {
    states, acts := ReadThenRelease(s, a, until);
    var s4 := states[4];
    var more, acts' := GrantToSecond(s4, b);
    JoinRuns(states, acts, more, acts');
    states, acts := states + more[1..], acts + acts';
    var s9 := states[9];
    assert IsStale(s9.threads[0], s9.clock, a.task, b.holder, b.key.value);
    AnswerStale(s9, 0, b.holder, b.key.value);
    states, acts := Extend(states, acts, Compare(0));
  }

  lemma ReadThenRelease(s: State, a: StartRequest, until: Time) returns (states: seq<State>, acts: seq<Action>)
    requires Init(s) && a.task < |s.db.tasks| && s.db.tasks[a.task].plan.None? && a.holder != "" && a.key.Some?
    requires RowHeld(s.db, a.task, a.holder, a.key.value, until)
    ensures acts == [GetTask(0, a), Choose(0, a.key.value), Look(0), Release(a.task, a.key.value)]
    ensures IsRun(states, acts) && states[0] == s
    ensures var f := states[4];
            && f.db.tasks == s.db.tasks && f.clock == s.clock && f.hist.log == [Released(a.task, a.key.value)]
            && RowOf(f.db, a.task) == Some(Lease(a.key.value, None, None))
            && f.threads == map[0 := Comparing(a, a.key.value, s.clock + LeaseTTL(a),
                                               Some(Lease(a.key.value, Some(a.holder), Some(until))), 0)]
  {
    var l := a.key.value;
    var s1, s2, s3 := OpenStart(s, 0, a, l);
    var s4 := ReleaseHeld(s3, a.task, a.holder, l, until);
    states, acts := [s, s1, s2, s3, s4], [GetTask(0, a), Choose(0, l), Look(0), Release(a.task, l)];
  }

  lemma GrantToSecond(s: State, b: StartRequest) returns (states: seq<State>, acts: seq<Action>)
    requires b.task < |s.db.tasks| && s.db.tasks[b.task].plan.None? && b.holder != "" && b.key.Some?
    requires RowOf(s.db, b.task).Some? && RowOf(s.db, b.task).value.holder.None? && 1 !in s.threads
    ensures acts == [GetTask(1, b), Choose(1, b.key.value), Look(1), Compare(1), Acquire(1)]
    ensures IsRun(states, acts) && states[0] == s
    ensures var f := states[5]; var e := s.clock + LeaseTTL(b);
            && f.threads == s.threads && f.clock == s.clock && RowHeld(f.db, b.task, b.holder, b.key.value, e)
            && f.hist.log == s.hist.log + [Started(b.task, b.holder, b.key.value, s.clock, e, |s.hist.log|)]
  {
    var l := b.key.value;
    var s1, s2, s3 := OpenStart(s, 1, b, l);
    var s4, s5 := FinishStart(s3, 1);
    GoAgain(s, 1, s3.threads[1], s3.threads[1]);
    states, acts := [s, s1, s2, s3, s4, s5], [GetTask(1, b), Choose(1, l), Look(1), Compare(1), Acquire(1)];
  }

  lemma ReleaseHeld(s: State, t: TaskId, holder: string, lease: LeaseId, until: Time) returns (s': State)
    requires RowHeld(s.db, t, holder, lease, until)
    ensures Step(s, Release(t, lease), s')
    ensures s' == Log(s.(db := s.db.(leases := s.db.leases[t := Lease(lease, None, None)])), Released(t, lease))
  {
    s' := Apply(s, Release(t, lease));
  }

  lemma AnswerStale(s: State, th: ThreadId, holder: string, lease: LeaseId)
    requires th in s.threads && s.threads[th].Comparing?
    requires IsStale(s.threads[th], s.clock, s.threads[th].req.task, holder, lease)
    ensures Enabled(s, Compare(th)) && Apply(s, Compare(th)).db == s.db
    ensures var p := s.threads[th];
            Apply(s, Compare(th)).hist.log == s.hist.log
              + [AlreadyRunning(p.req.task, p.req.holder, p.lease, s.clock, p.row.value.expiresAt.value, p.since)]
  {
  }

  // ---------- a Start, step by step ----------

  lemma GetTaskStep(s: State, th: ThreadId, req: StartRequest)
    requires th !in s.threads && req.task < |s.db.tasks| && req.holder != ""
    ensures var plan := s.db.tasks[req.task].plan;
            Step(s, GetTask(th, req), Go(s, th, if plan.Some? then ReadingPlan(req, plan.value) else Choosing(req)))
  {
  }

  lemma ChooseStep(s: State, th: ThreadId, req: StartRequest, l: LeaseId)
    requires req.key.Some? ==> l == req.key.value
    ensures Step(Go(s, th, Choosing(req)), Choose(th, l), Go(s, th, Looking(req, l, s.clock + LeaseTTL(req))))
  {
    GoAgain(s, th, Choosing(req), Looking(req, l, s.clock + LeaseTTL(req)));
  }

  lemma LookStep(s: State, th: ThreadId, req: StartRequest, l: LeaseId, e: Time)
    ensures Step(Go(s, th, Looking(req, l, e)), Look(th),
                 Go(s, th, Comparing(req, l, e, RowOf(s.db, req.task), |s.hist.log|)))
  {
    GoAgain(s, th, Looking(req, l, e), Comparing(req, l, e, RowOf(s.db, req.task), |s.hist.log|));
  }

  /** A Start for a task without a plan, up to its read of the lease row. */
  lemma OpenStart(s: State, th: ThreadId, req: StartRequest, l: LeaseId) returns (s1: State, s2: State, s3: State)
    requires th !in s.threads && req.task < |s.db.tasks| && s.db.tasks[req.task].plan.None?
    requires req.holder != "" && req.key == Some(l)
    ensures Step(s, GetTask(th, req), s1) && Step(s1, Choose(th, l), s2) && Step(s2, Look(th), s3)
    ensures s3 == Go(s, th, Comparing(req, l, s.clock + LeaseTTL(req), RowOf(s.db, req.task), |s.hist.log|))
  {
    s1 := Go(s, th, Choosing(req));
    s2 := Go(s, th, Looking(req, l, s.clock + LeaseTTL(req)));
    s3 := Go(s, th, Comparing(req, l, s.clock + LeaseTTL(req), RowOf(s.db, req.task), |s.hist.log|));
    GetTaskStep(s, th, req);
    ChooseStep(s, th, req, l);
    LookStep(s, th, req, l, s.clock + LeaseTTL(req));
  }

  /** Its end, when the row it read was free. */
  lemma FinishStart(s: State, th: ThreadId) returns (s1: State, s2: State)
    requires th in s.threads && s.threads[th].Comparing?
    requires s.threads[th].row.Some? && s.threads[th].row == RowOf(s.db, s.threads[th].req.task)
    requires s.threads[th].row.value.holder.None?
    ensures Step(s, Compare(th), s1) && Step(s1, Acquire(th), s2)
    ensures var p := s.threads[th];
            s2 == Log(End(s.(db := s.db.(leases := s.db.leases[p.req.task := Lease(p.lease, Some(p.req.holder), Some(p.expiresAt))])), th),
                      Started(p.req.task, p.req.holder, p.lease, s.clock, p.expiresAt, |s.hist.log|))
  {
    var p := s.threads[th];
    s1 := Go(s, th, Acquiring(p.req, p.lease, p.expiresAt));
    s2 := Apply(s1, Acquire(th));
    assert s1.threads - {th} == s.threads - {th};
  }

  // ---------- the gate ----------

  /** What a Start handler has established so far. */
  predicate StartOk(db: Db, p: Thread) {
    match p
    case ReadingPlan(req, _) => HasPlan(db, req.task)
    case ListingDeps(req) => HasPlan(db, req.task)
    case ReadingDeps(req, unread) =>
      && HasPlan(db, req.task)
      && forall d :: d in DependenciesOf(db, req.task) ==> d in unread || IsCompleted(db, d)
    case Choosing(req) => Gated(db, req.task)
    case Looking(req, _, _) => Gated(db, req.task)
    case Comparing(req, _, _, _, _) => Gated(db, req.task)
    case Acquiring(req, _, _) => Gated(db, req.task)
    case _ => true
  }

  predicate HasPlan(db: Db, t: TaskId) {
    t < |db.tasks| && db.tasks[t].plan.Some?
  }

  predicate IsCompleted(db: Db, d: TaskId) {
    d < |db.tasks| && db.tasks[d].status == Completed
  }

  /** If the task has a plan then all its dependencies are completed. */
  predicate Gated(db: Db, t: TaskId) {
    t < |db.tasks| && (db.tasks[t].plan.Some? ==> DependenciesMet(db, t))
  }

  predicate GateInv(s: State) {
    && (forall th :: th in s.threads ==> StartOk(s.db, s.threads[th]))
    && (forall i :: 0 <= i < |s.hist.log| && IsSuccess(s.hist.log[i]) ==> Gated(s.db, s.hist.log[i].task))
  }

  lemma EvolveKeepsGated(a: Db, b: Db, t: TaskId)
    requires RowsEvolve(a, b) && Gated(a, t)
    ensures Gated(b, t)
  {
  }

  lemma EvolveKeepsStart(a: Db, b: Db, p: Thread)
    requires RowsEvolve(a, b) && StartOk(a, p)
    ensures StartOk(b, p)
  {
  }

  predicate IsStartMove(a: Action) {
    a.GetTask? || a.ReadPlan? || a.ListDeps? || a.ReadDep? || a.Choose? || a.Look? || a.Compare?
  }

  predicate IsStartThread(p: Thread) {
    || p.ReadingPlan? || p.ListingDeps? || p.ReadingDeps? || p.Choosing? || p.Looking? || p.Comparing? || p.Acquiring?
  }

  /** Only its own steps move a Start handler. */
  lemma OnlyStartMoves(s: State, a: Action, x: ThreadId)
    requires Enabled(s, a)
    requires x in Apply(s, a).threads && IsStartThread(Apply(s, a).threads[x])
    ensures (x in s.threads && Apply(s, a).threads[x] == s.threads[x]) || (IsStartMove(a) && x == a.th)
  {
    if IsTaskHandler(a) {
      TaskHandlerMovesNoStart(s, a, x);
    }
  }

  lemma ReadDepIsOk(s: State, th: ThreadId)
    requires Enabled(s, ReadDep(th)) && StartOk(s.db, s.threads[th])
    requires th in ApplyWorkflow(s, ReadDep(th)).threads
    ensures StartOk(s.db, ApplyWorkflow(s, ReadDep(th)).threads[th])
  {
    var unread := s.threads[th].unread;
    assert unread != [] ==> forall d :: d in unread ==> d == unread[0] || d in unread[1..];
  }

  /** The handler that moves establishes what its next position says. */
  lemma MoveIsOk(s: State, a: Action)
    requires Enabled(s, a) && IsStartMove(a) && a.th in ApplyWorkflow(s, a).threads
    requires a.th in s.threads ==> StartOk(s.db, s.threads[a.th])
    ensures StartOk(s.db, ApplyWorkflow(s, a).threads[a.th])
  {
    if a.ReadDep? {
      ReadDepIsOk(s, a.th);
    }
  }

  /** Only a handler that has passed the gate is answered with success. */
  lemma SuccessIsGated(s: State, a: Action)
    requires GateInv(s) && Enabled(s, a)
    requires |Apply(s, a).hist.log| > |s.hist.log|
    ensures var e := Apply(s, a).hist.log[|s.hist.log|]; IsSuccess(e) ==> Gated(s.db, e.task)
  {
    if a.Compare? || a.Acquire? {
      assert StartOk(s.db, s.threads[a.th]);
    } else if !a.Release? {
      OtherStepKeepsLog(s, a);
    }
  }

  lemma StepKeepsStarts(s: State, a: Action, x: ThreadId)
    requires GateInv(s) && Enabled(s, a) && x in Apply(s, a).threads
    ensures StartOk(Apply(s, a).db, Apply(s, a).threads[x])
  {
    var s' := Apply(s, a);
    if IsStartThread(s'.threads[x]) {
      StepEvolves(s, a);
      OnlyStartMoves(s, a, x);
      if x in s.threads && s'.threads[x] == s.threads[x] {
        EvolveKeepsStart(s.db, s'.db, s.threads[x]);
      } else {
        MoveIsOk(s, a);
        EvolveKeepsStart(s.db, s'.db, s'.threads[x]);
      }
    }
  }

  lemma StepKeepsGate(s: State, a: Action)
    requires GateInv(s) && Enabled(s, a)
    ensures GateInv(Apply(s, a))
  {
    var s' := Apply(s, a);
    StepEvolves(s, a);
    StepExtendsLog(s, a);
    forall x | x in s'.threads
      ensures StartOk(s'.db, s'.threads[x])
    {
      StepKeepsStarts(s, a, x);
    }
    forall i | 0 <= i < |s'.hist.log| && IsSuccess(s'.hist.log[i])
      ensures Gated(s'.db, s'.hist.log[i].task)
    {
      if i >= |s.hist.log| {
        SuccessIsGated(s, a);
      }
      EvolveKeepsGated(s.db, s'.db, s'.hist.log[i].task);
    }
  }

  lemma {:induction false} RunKeepsGate(states: seq<State>, acts: seq<Action>, i: nat)
    requires IsRun(states, acts) && Init(states[0])
    requires i < |states|
    ensures GateInv(states[i])
  {
    if i > 0 {
      RunKeepsGate(states, acts, i - 1);
      StepKeepsGate(states[i - 1], acts[i - 1]);
    }
  }

  /** The gate is sound and stays so: whenever Start has succeeded for a task with a plan, every
      dependency is completed, at that moment and in every later state, although the dependencies were
      read one at a time while other handlers ran. */
  lemma GateIsSoundAndStable(states: seq<State>, acts: seq<Action>, n: nat, i: nat, d: TaskId)
    requires IsRun(states, acts) && Init(states[0])
    requires n < |states| && i < |states[n].hist.log|
    requires IsSuccess(states[n].hist.log[i]) && HasPlan(states[n].db, states[n].hist.log[i].task)
    requires states[n].hist.log[i].task in states[n].db.deps && d in states[n].db.deps[states[n].hist.log[i].task]
    ensures d < |states[n].db.tasks| && states[n].db.tasks[d].status == Completed
  {
    RunKeepsGate(states, acts, n);
  }
}
