/** Per-user task names stay pairwise distinct in every run, named or unnamed. */
module TaskNaming {
  import opened Models
  import opened TaskNames
  import opened Tables
  import opened Orchestrator

  predicate SameUser(tasks: seq<Task>, i: nat, k: nat)
    requires i < |tasks| && k < |tasks|
  {
    tasks[i].createdBy.Some? && tasks[i].createdBy == tasks[k].createdBy
  }

  predicate Distinct(tasks: seq<Task>) {
    forall i, k :: 0 <= i < k < |tasks| && SameUser(tasks, i, k) ==> tasks[i].summary != tasks[k].summary
  }

  /** A user's task either has a name without underscores, or the counter of the user's tasks so far. */
  predicate WellNamed(tasks: seq<Task>, i: nat)
    requires i < |tasks|
  {
    tasks[i].createdBy.Some? ==>
      || NoUnderscore(tasks[i].summary)
      || tasks[i].summary == CounterName(1 + CountBy(tasks[..i], tasks[i].createdBy.value))
  }

  predicate NamesOk(tasks: seq<Task>) {
    Distinct(tasks) && forall i :: 0 <= i < |tasks| ==> WellNamed(tasks, i)
  }

  lemma {:induction false} CountGrows(tasks: seq<Task>, i: nat, user: UserId)
    requires i < |tasks| && tasks[i].createdBy == Some(user)
    ensures CountBy(tasks[..i], user) < CountBy(tasks, user)
  {
    var init := tasks[..|tasks| - 1];
    if i < |init| {
      CountGrows(init, i, user);
      assert init[..i] == tasks[..i];
    } else {
      assert init == tasks[..i];
    }
  }

  /** The summary chosen for a user's new task is not one the user already has. */
  lemma NewSummaryIsNew(tasks: seq<Task>, user: UserId, name: Option<string>, i: nat)
    requires NamesOk(tasks)
    requires i < |tasks| && tasks[i].createdBy == Some(user)
    ensures tasks[i].summary != SummaryFor(tasks, Some(user), name)
  {
    var slug := if name.Some? then Slug(name.value) else "";
    if slug == "" {
      var n := 1 + CountBy(tasks, user);
      CounterNameHasUnderscore(n);
      CountGrows(tasks, i, user);
      var m := 1 + CountBy(tasks[..i], user);
      assert WellNamed(tasks, i);
      if CounterName(m) == CounterName(n) {
        CounterNamesDiffer(m, n);
      }
    } else {
      assert tasks[i].summary in Summaries(tasks, user);
    }
  }

  lemma NewSummaryIsWellNamed(tasks: seq<Task>, user: UserId, name: Option<string>)
    ensures var s := SummaryFor(tasks, Some(user), name);
            NoUnderscore(s) || s == CounterName(1 + CountBy(tasks, user))
  {
    if name.Some? && Slug(name.value) != "" {
      var used := Summaries(tasks, user);
      var m: nat :| m <= |used| && FirstFree(Slug(name.value), used, 0) == Candidate(Slug(name.value), m);
      CandidateHasNoUnderscore(name.value, m);
    }
  }

  /** CreateTask keeps the names in order, for every user (or none) and every requested name. */
  lemma CreateKeepsNames(tasks: seq<Task>, user: Option<UserId>, name: Option<string>)
    requires NamesOk(tasks)
    ensures NamesOk(tasks + [NewTask(tasks, user, name)])
  {
    var more := tasks + [NewTask(tasks, user, name)];
    forall i, k | 0 <= i < k < |more| && SameUser(more, i, k)
      ensures more[i].summary != more[k].summary
    {
      if k < |tasks| {
        assert SameUser(tasks, i, k);
      } else {
        NewSummaryIsNew(tasks, user.value, name, i);
      }
    }
    forall i | 0 <= i < |more|
      ensures WellNamed(more, i)
    {
      if i < |tasks| {
        assert WellNamed(tasks, i);
        assert more[..i] == tasks[..i];
      } else {
        assert more[..i] == tasks;
        if user.Some? {
          NewSummaryIsWellNamed(tasks, user.value, name);
        }
      }
    }
  }

  predicate SameNames(a: seq<Task>, b: seq<Task>) {
    |a| == |b| && forall i :: 0 <= i < |a| ==> a[i].createdBy == b[i].createdBy && a[i].summary == b[i].summary
  }

  lemma {:induction false} SameCount(a: seq<Task>, b: seq<Task>, user: UserId)
    requires SameNames(a, b)
    ensures CountBy(a, user) == CountBy(b, user)
  {
    if a != [] {
      SameCount(a[..|a| - 1], b[..|b| - 1], user);
    }
  }

  lemma SameNamesKeepOk(a: seq<Task>, b: seq<Task>)
    requires SameNames(a, b) && NamesOk(a)
    ensures NamesOk(b)
  {
    forall i, k | 0 <= i < k < |b| && SameUser(b, i, k)
      ensures b[i].summary != b[k].summary
    {
      assert SameUser(a, i, k);
    }
    forall i | 0 <= i < |b|
      ensures WellNamed(b, i)
    {
      assert WellNamed(a, i);
      if b[i].createdBy.Some? {
        SameCount(a[..i], b[..i], b[i].createdBy.value);
      }
    }
  }

  lemma StepKeepsNames(s: State, a: Action)
    requires NamesOk(s.db.tasks) && Enabled(s, a)
    ensures NamesOk(Apply(s, a).db.tasks)
  {
    if a.InsertTask? {
      CreateKeepsNames(s.db.tasks, a.user, a.name);
    } else {
      StepEvolves(s, a);
      SameNamesKeepOk(s.db.tasks, Apply(s, a).db.tasks);
    }
  }

  /** In every state of every run, no user has two tasks with the same summary. */
  lemma {:induction false} SummariesStayDistinct(states: seq<State>, acts: seq<Action>, i: nat)
    requires IsRun(states, acts) && NamesOk(states[0].db.tasks)
    requires i < |states|
    ensures NamesOk(states[i].db.tasks)
  {
    if i > 0 {
      SummariesStayDistinct(states, acts, i - 1);
      StepKeepsNames(states[i - 1], acts[i - 1]);
    }
  }
}
