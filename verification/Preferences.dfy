/** Effective preferences of a task: the scopes are folded from least to most specific. */
module Preferences {
  import opened Models
  import opened Pagination

  datatype Scope = SystemScope | UserScope(user: UserId) | ProjectScope(project: nat) | TaskScope(task: TaskId)

  /** A preference row of one scope; the value is JSON text, possibly absent. */
  datatype Entry = Entry(key: string, value: Option<string>)

  datatype Value<J> = Null | Json(v: J)

  /** JSON decoding, left open: the value, or None when the text does not parse. */
  type Parser<J> = string -> Option<Value<J>>

  datatype TaskRow = TaskRow(createdBy: Option<UserId>, project: Option<nat>)

  /** The rows of each scope, in key order; a scope without rows may be missing. */
  type Table = map<Scope, seq<Entry>>

  function RowsOf(table: Table, scope: Scope): seq<Entry> {
    if scope in table then table[scope] else []
  }

  /** effectiveScopesForTask: system, then user and project if the task has them, then the task. */
  function ScopesFor(t: TaskId, row: TaskRow): seq<Scope> {
    [SystemScope]
    + (if row.createdBy.Some? then [UserScope(row.createdBy.value)] else [])
    + (if row.project.Some? then [ProjectScope(row.project.value)] else [])
    + [TaskScope(t)]
  }

  /** The rows the fold sees of a scope: its first page, at most 100 keys. */
  function Visible(table: Table, scope: Scope): seq<Entry> {
    Rows(RowsOf(table, scope), 0, MAX_PREFERENCES)
  }

  function Layers(table: Table, scopes: seq<Scope>): (r: seq<seq<Entry>>)
    ensures |r| == |scopes|
    ensures forall i :: 0 <= i < |scopes| ==> r[i] == Visible(table, scopes[i])
  {
    seq(|scopes|, i requires 0 <= i < |scopes| => Visible(table, scopes[i]))
  }

  /** An absent or empty value counts as null; any other value must parse. */
  function Usable<J>(parse: Parser<J>, e: Entry): Option<Value<J>> {
    if e.value.None? || e.value.value == "" then Some(Null) else parse(e.value.value)
  }

  // ---------- the reference: most specific wins ----------

  /** The usable entry for `key` in one scope. */
  function InLayer<J>(parse: Parser<J>, layer: seq<Entry>, key: string): Option<Value<J>> {
    if layer == [] then None
    else
      var last := layer[|layer| - 1];
      if last.key == key && Usable(parse, last).Some? then Usable(parse, last)
      else InLayer(parse, layer[..|layer| - 1], key)
  }

  function MostSpecific<J>(parse: Parser<J>, layers: seq<seq<Entry>>, key: string): Option<Value<J>> {
    if layers == [] then None
    else
      var r := InLayer(parse, layers[|layers| - 1], key);
      if r.Some? then r else MostSpecific(parse, layers[..|layers| - 1], key)
  }

  /** At most the first 100 rows of a scope are seen. */
  lemma VisibleMeans(table: Table, scope: Scope)
    ensures scope !in table ==> Visible(table, scope) == []
    ensures scope in table ==> Visible(table, scope) == if |table[scope]| <= 100 then table[scope] else table[scope][..100]
  {
  }

  predicate DistinctKeys(layer: seq<Entry>) {
    forall i, k :: 0 <= i < k < |layer| ==> layer[i].key != layer[k].key
  }

  /** With one row per key, the entry is found wherever it stands: null if its value is absent or empty, and
      otherwise what the value parses to, if it does. */
  lemma {:induction false} InLayerFinds<J>(parse: Parser<J>, layer: seq<Entry>, i: nat)
    requires DistinctKeys(layer) && i < |layer|
    ensures InLayer(parse, layer, layer[i].key) ==
            if layer[i].value == None || layer[i].value == Some("") then Some(Null) else parse(layer[i].value.value)
  {
    if i < |layer| - 1 {
      InLayerFinds(parse, layer[..|layer| - 1], i);
    } else {
      InLayerMisses(parse, layer[..i], layer[i].key);
    }
  }

  lemma {:induction false} InLayerMisses<J>(parse: Parser<J>, layer: seq<Entry>, key: string)
    requires forall i :: 0 <= i < |layer| ==> layer[i].key != key
    ensures InLayer(parse, layer, key) == None
  {
    if layer != [] {
      InLayerMisses(parse, layer[..|layer| - 1], key);
    }
  }

  /** The winning scope is the last one with a usable entry; unusable entries fall through to it. */
  lemma {:induction false} MostSpecificMeans<J>(parse: Parser<J>, layers: seq<seq<Entry>>, key: string, i: nat)
    requires i < |layers|
    requires InLayer(parse, layers[i], key).Some?
    requires forall k :: i < k < |layers| ==> InLayer(parse, layers[k], key).None?
    ensures MostSpecific(parse, layers, key) == InLayer(parse, layers[i], key)
  {
    if i < |layers| - 1 {
      MostSpecificMeans(parse, layers[..|layers| - 1], key, i);
    }
  }

  /** A key with no usable entry in any scope is absent. */
  lemma {:induction false} NoneMeansAbsent<J>(parse: Parser<J>, layers: seq<seq<Entry>>, key: string)
    requires forall k :: 0 <= k < |layers| ==> InLayer(parse, layers[k], key).None?
    ensures MostSpecific(parse, layers, key) == None
  {
    if layers != [] {
      NoneMeansAbsent(parse, layers[..|layers| - 1], key);
    }
  }

  function OrElse<J>(a: Option<Value<J>>, b: Option<Value<J>>): Option<Value<J>> {
    if a.Some? then a else b
  }

  /** The order of precedence, spelled out: task over project over user over system. */
  lemma TaskOverProjectOverUserOverSystem<J>(parse: Parser<J>, table: Table, t: TaskId, row: TaskRow, key: string)
    ensures MostSpecific(parse, Layers(table, ScopesFor(t, row)), key)
            == OrElse(InLayer(parse, Visible(table, TaskScope(t)), key),
                 OrElse(if row.project.Some? then InLayer(parse, Visible(table, ProjectScope(row.project.value)), key) else None,
                   OrElse(if row.createdBy.Some? then InLayer(parse, Visible(table, UserScope(row.createdBy.value)), key) else None,
                     InLayer(parse, Visible(table, SystemScope), key))))
  {
    var user := if row.createdBy.Some? then [UserScope(row.createdBy.value)] else [];
    var project := if row.project.Some? then [ProjectScope(row.project.value)] else [];
    LastScopeWins(parse, table, [SystemScope] + user + project, TaskScope(t), key);
    if row.project.Some? {
      LastScopeWins(parse, table, [SystemScope] + user, ProjectScope(row.project.value), key);
    } else {
      assert [SystemScope] + user + project == [SystemScope] + user;
    }
    if row.createdBy.Some? {
      LastScopeWins(parse, table, [SystemScope], UserScope(row.createdBy.value), key);
    } else {
      assert [SystemScope] + user == [SystemScope];
    }
    LastScopeWins(parse, table, [], SystemScope, key);
    assert [] + [SystemScope] == [SystemScope];
  }

  lemma LastScopeWins<J>(parse: Parser<J>, table: Table, scopes: seq<Scope>, last: Scope, key: string)
    ensures MostSpecific(parse, Layers(table, scopes + [last]), key)
            == OrElse(InLayer(parse, Visible(table, last), key), MostSpecific(parse, Layers(table, scopes), key))
  {
    var layers := Layers(table, scopes + [last]);
    assert layers[..|scopes|] == Layers(table, scopes);
  }

  // ---------- the fold ----------

  function Get<J>(m: map<string, Value<J>>, key: string): Option<Value<J>> {
    if key in m then Some(m[key]) else None
  }

  /** A layer laid over the layers below it. */
  function Over<J>(parse: Parser<J>, top: seq<Entry>, below: seq<seq<Entry>>, key: string): Option<Value<J>> {
    var r := InLayer(parse, top, key);
    if r.Some? then r else MostSpecific(parse, below, key)
  }

  lemma OverOneMore<J>(parse: Parser<J>, top: seq<Entry>, j: nat, below: seq<seq<Entry>>, key: string)
    requires j < |top|
    ensures Over(parse, top[..j + 1], below, key)
            == if top[j].key == key && Usable(parse, top[j]).Some? then Usable(parse, top[j])
               else Over(parse, top[..j], below, key)
  {
    assert top[..j + 1][..j] == top[..j];
  }

  /** The inner loop: the rows of one scope overwrite what the scopes below have set. */
  method Overlay<J>(parse: Parser<J>, entries: seq<Entry>, ghost below: seq<seq<Entry>>, before: map<string, Value<J>>)
    returns (effective: map<string, Value<J>>)
    requires forall key :: Get(before, key) == MostSpecific(parse, below, key)
    ensures forall key :: Get(effective, key) == Over(parse, entries, below, key)
  {
    effective := before;
    for j := 0 to |entries|
      invariant forall key :: Get(effective, key) == Over(parse, entries[..j], below, key)
    {
      forall key
        ensures Over(parse, entries[..j + 1], below, key)
                == if entries[j].key == key && Usable(parse, entries[j]).Some? then Usable(parse, entries[j])
                   else Over(parse, entries[..j], below, key)
      {
        OverOneMore(parse, entries, j, below, key);
      }
      var e := entries[j];
      var v: Value<J> := Null;
      if e.value.Some? && e.value.value != "" {
        var parsed := parse(e.value.value);
        if parsed.None? {
          assert Usable(parse, e).None?;
          continue;
        }
        v := parsed.value;
      }
      assert Usable(parse, e) == Some(v);
      ghost var prev := effective;
      effective := effective[e.key := v];
      assert forall key :: Get(effective, key) == if key == e.key then Some(v) else Get(prev, key);
      assert forall key :: Get(effective, key) == Over(parse, entries[..j + 1], below, key);
    }
    assert entries[..|entries|] == entries;
  }

  lemma LayerOnTop<J>(parse: Parser<J>, layers: seq<seq<Entry>>, i: nat, key: string)
    requires i < |layers|
    ensures MostSpecific(parse, layers[..i + 1], key) == Over(parse, layers[i], layers[..i], key)
  {
    assert layers[..i + 1][..i] == layers[..i];
  }

  /** GetEffectivePreferencesForTask: nested loops over scopes and rows that overwrite the result map.
      For every key the result is the most specific usable entry; None for a missing task. */
  method EffectivePreferences<J>(parse: Parser<J>, tasks: seq<TaskRow>, table: Table, t: TaskId)
    returns (r: Option<map<string, Value<J>>>)
    ensures r.None? <==> t >= |tasks|
    ensures r.Some? ==> forall key ::
              Get(r.value, key) == MostSpecific(parse, Layers(table, ScopesFor(t, tasks[t])), key)
  {
    if t >= |tasks| {
      return None;
    }
    var scopes := ScopesFor(t, tasks[t]);
    ghost var layers := Layers(table, scopes);
    var effective: map<string, Value<J>> := map[];
    for i := 0 to |scopes|
      invariant forall key :: Get(effective, key) == MostSpecific(parse, layers[..i], key)
    {
      var entries := ListPreferences(RowsOf(table, scopes[i]), MAX_PREFERENCES, "").0;
      PreferencePage(RowsOf(table, scopes[i]), MAX_PREFERENCES, "");
      assert entries == layers[i];
      effective := Overlay(parse, entries, layers[..i], effective);
      forall key
        ensures Get(effective, key) == MostSpecific(parse, layers[..i + 1], key)
      {
        LayerOnTop(parse, layers, i, key);
      }
    }
    assert layers[..|scopes|] == layers;
    return Some(effective);
  }
}
