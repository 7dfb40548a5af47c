/**
 Merging the release's environment into `process.env`. The array is edited in
 place through a map from names to positions; read last-binding-wins, the result
 is a plain map override.
 */
module EnvironmentMerge {
  import opened Wrappers
  import opened Text
  import opened Releases

  datatype Json = Str(text: string) | NotString

  datatype Field = Missing | NotArray | Array(values: seq<Json>)

  // ----- reading an environment

  function NameOf(binding: string): Option<string> {
    match SplitOnce(binding, '=')
    case None => None
    case Some(pair) => Some(pair.0)
  }

  function NameAt(env: seq<string>, i: nat): Option<string>
    requires i < |env|
  {
    NameOf(env[i])
  }

  /** The last slot that binds `name`. */
  function Position(env: seq<string>, name: string): (r: Option<nat>)
    ensures r.Some? ==> r.value < |env| && NameAt(env, r.value) == Some(name)
  {
    if env == [] then None
    else
      var last := |env| - 1;
      if NameAt(env, last) == Some(name) then Some(last) else Position(env[..last], name)
  }

  lemma {:induction false} PositionIsLast(env: seq<string>, name: string, j: nat)
    requires j < |env| && NameAt(env, j) == Some(name)
    ensures Position(env, name).Some? && j <= Position(env, name).value
  {
    var last := |env| - 1;
    if NameAt(env, last) != Some(name) {
      PositionIsLast(env[..last], name, j);
    }
  }

  function Lookup(env: seq<string>, name: string): Option<string> {
    match Position(env, name)
    case None => None
    case Some(i) => Some(SplitOnce(env[i], '=').value.1)
  }

  // ----- the merge as a value

  function Binding(e: EnvironmentEntry): string { e.name + ['='] + e.value }

  function Apply(env: seq<string>, e: EnvironmentEntry): seq<string> {
    match Position(env, e.name)
    case Some(i) => if e.allowWorkloadOverride then env else env[i := Binding(e)]
    case None => env + [Binding(e)]
  }

  function Merged(env: seq<string>, entries: seq<EnvironmentEntry>): seq<string> {
    if entries == [] then env
    else Apply(Merged(env, entries[..|entries| - 1]), entries[|entries| - 1])
  }

  function Strings(values: seq<Json>): Option<seq<string>> {
    if forall i :: 0 <= i < |values| ==> values[i].Str? then
      Some(seq(|values|, i requires 0 <= i < |values| => values[i].text))
    else None
  }

  function AsJson(env: seq<string>): (r: seq<Json>)
    ensures |r| == |env| && forall i :: 0 <= i < |r| ==> r[i] == Str(env[i])
  {
    seq(|env|, i requires 0 <= i < |env| => Str(env[i]))
  }

  predicate Plain(entries: seq<EnvironmentEntry>) {
    forall i :: 0 <= i < |entries| ==> '=' !in entries[i].name
  }

  /** What the positions map must say about the array. */
  ghost predicate Tracks(positions: map<string, nat>, env: seq<string>) {
    forall name :: (name in positions <==> Position(env, name).Some?)
                && (name in positions ==> Position(env, name) == Some(positions[name]))
  }

  lemma BindingSplits(e: EnvironmentEntry)
    requires '=' !in e.name
    ensures SplitOnce(Binding(e), '=') == Some((e.name, e.value))
  {
    SplitOnceAt(e.name, '=', e.value);
  }

  lemma PositionSnoc(env: seq<string>, x: string, name: string)
    ensures Position(env + [x], name) == if NameOf(x) == Some(name) then Some(|env|) else Position(env, name)
  {
    assert (env + [x])[..|env|] == env;
  }

  /** A slot is found by its name alone. */
  lemma {:induction false} PositionByNames(a: seq<string>, b: seq<string>, name: string)
    requires |a| == |b| && forall i :: 0 <= i < |a| ==> NameOf(a[i]) == NameOf(b[i])
    ensures Position(a, name) == Position(b, name)
    decreases |a|
  {
    if a != [] {
      PositionByNames(a[..|a| - 1], b[..|a| - 1], name);
    }
  }

  /** Rewriting a name's own slot moves nothing. */
  lemma RewriteKeepsPositions(env: seq<string>, e: EnvironmentEntry, name: string)
    requires '=' !in e.name && Position(env, e.name).Some?
    ensures Position(env[Position(env, e.name).value := Binding(e)], name) == Position(env, name)
  {
    var i := Position(env, e.name).value;
    BindingSplits(e);
    var env' := env[i := Binding(e)];
    assert NameOf(env[i]) == Some(e.name) && NameOf(Binding(e)) == Some(e.name);
    PositionByNames(env', env, name);
  }

  lemma AppendedPosition(env: seq<string>, e: EnvironmentEntry, name: string)
    requires '=' !in e.name
    ensures Position(env + [Binding(e)], name) == if name == e.name then Some(|env|) else Position(env, name)
  {
    BindingSplits(e);
    PositionSnoc(env, Binding(e), name);
    assert NameOf(Binding(e)) == Some(e.name);
  }

  /** Applying an entry binds its name if nothing did, and moves no other. */
  lemma ApplyPosition(env: seq<string>, e: EnvironmentEntry, name: string)
    requires '=' !in e.name
    ensures Position(Apply(env, e), name)
         == if Position(env, e.name).None? && name == e.name then Some(|env|) else Position(env, name)
  {
    if Position(env, e.name).Some? {
      RewriteKeepsPositions(env, e, name);
    } else {
      AppendedPosition(env, e, name);
    }
  }

  lemma ApplyTracks(env: seq<string>, e: EnvironmentEntry, positions: map<string, nat>)
    requires '=' !in e.name && Tracks(positions, env)
    ensures Tracks(if e.name in positions then positions else positions[e.name := |env|], Apply(env, e))
  {
    var env' := Apply(env, e);
    forall name
      ensures Position(env', name)
           == if e.name !in positions && name == e.name then Some(|env|) else Position(env, name)
    {
      ApplyPosition(env, e, name);
    }
  }

  // ----- the loops as they are

  /** The array and the positions map beside it. */
  datatype Merging = Merging(env: seq<string>, positions: map<string, nat>)

  predicate InRange(m: Merging) { forall name :: name in m.positions ==> m.positions[name] < |m.env| }

  /** The first loop: the last slot that binds each name. */
  function Positions(env: seq<string>): (r: map<string, nat>)
    ensures InRange(Merging(env, r))
  {
    if env == [] then map[]
    else
      var last := |env| - 1;
      match NameOf(env[last])
      case None => Positions(env[..last])
      case Some(name) => Positions(env[..last])[name := last]
  }

  /** One entry of the second loop. It goes by the map alone, whatever the name holds. */
  function Edit(m: Merging, e: EnvironmentEntry): (r: Merging)
    requires InRange(m)
    ensures InRange(r)
  {
    if e.name in m.positions then
      if e.allowWorkloadOverride then m else m.(env := m.env[m.positions[e.name] := Binding(e)])
    else Merging(m.env + [Binding(e)], m.positions[e.name := |m.env|])
  }

  function Edited(m: Merging, entries: seq<EnvironmentEntry>): (r: Merging)
    requires InRange(m)
    ensures InRange(r)
  {
    if entries == [] then m else Edit(Edited(m, entries[..|entries| - 1]), entries[|entries| - 1])
  }

  /** What the environment becomes. */
  function Rewritten(env: seq<string>, entries: seq<EnvironmentEntry>): seq<string> {
    Edited(Merging(env, Positions(env)), entries).env
  }

  lemma PositionsSnoc(env: seq<string>, x: string)
    ensures Positions(env + [x]) == if NameOf(x).None? then Positions(env) else Positions(env)[NameOf(x).value := |env|]
  {
    assert (env + [x])[..|env|] == env;
  }

  method ReadPositions(values: seq<Json>) returns (positions: Option<map<string, nat>>)
    ensures positions.Some? <==> Strings(values).Some?
    ensures positions.Some? ==> positions.value == Positions(Strings(values).value)
  {
    var found: map<string, nat> := map[];
    ghost var env: seq<string> := [];
    for i := 0 to |values|
      invariant |env| == i && forall j :: 0 <= j < i ==> values[j] == Str(env[j])
      invariant found == Positions(env)
    {
      match values[i] {
        case NotString => return None;
        case Str(text) =>
          PositionsSnoc(env, text);
          env := env + [text];
          match SplitOnce(text, '=') {
            case None =>
            case Some(pair) => found := found[pair.0 := i];
          }
      }
    }
    assert Strings(values).value == env;
    return Some(found);
  }

  lemma AsJsonEdit(env: seq<string>, i: nat, x: string)
    requires i < |env|
    ensures AsJson(env[i := x]) == AsJson(env)[i := Str(x)]
  {
  }

  lemma AsJsonSnoc(env: seq<string>, x: string)
    ensures AsJson(env + [x]) == AsJson(env) + [Str(x)]
  {
  }

  lemma EditedStep(m: Merging, entries: seq<EnvironmentEntry>, k: nat)
    requires InRange(m) && k < |entries|
    ensures Edited(m, entries[..k + 1]) == Edit(Edited(m, entries[..k]), entries[k])
  {
    assert entries[..k + 1][..k] == entries[..k];
  }

  /** The loop over the release's entries, editing the array through the positions map. */
  method MergeInto(values: seq<Json>, found: map<string, nat>, entries: seq<EnvironmentEntry>, ghost env: seq<string>)
    returns (environment: seq<Json>)
    requires values == AsJson(env) && found == Positions(env)
    ensures environment == AsJson(Rewritten(env, entries))
  {
    environment := values;
    var positions: map<string, nat> := found;
    ghost var start := Merging(env, Positions(env));
    for k := 0 to |entries|
      invariant environment == AsJson(Edited(start, entries[..k]).env)
      invariant positions == Edited(start, entries[..k]).positions
    {
      var entry := entries[k];
      ghost var before := Edited(start, entries[..k]);
      EditedStep(start, entries, k);
      if entry.name in positions {
        if !entry.allowWorkloadOverride {
          AsJsonEdit(before.env, positions[entry.name], Binding(entry));
          environment := environment[positions[entry.name] := Str(Binding(entry))];
        }
      } else {
        AsJsonSnoc(before.env, Binding(entry));
        positions := positions[entry.name := |environment|];
        environment := environment + [Str(Binding(entry))];
      }
    }
    assert entries[..|entries|] == entries;
  }

  /** The environment part of `apply_process_metadata`, for any entries at all. */
  method MergeEnvironment(field: Field, entries: seq<EnvironmentEntry>) returns (r: Result<Field, ()>)
    ensures entries == [] ==> r == Ok(field)
    ensures entries != [] ==>
      match field
      case NotArray => r.Err?
      case Missing => r == Ok(Array(AsJson(Rewritten([], entries))))
      case Array(values) =>
        match Strings(values)
        case None => r.Err?
        case Some(env) => r == Ok(Array(AsJson(Rewritten(env, entries))))
  {
    if entries == [] {
      return Ok(field);
    }
    if field.NotArray? {
      return Err(());
    }
    var environment := if field.Missing? then [] else field.values;
    var positions := ReadPositions(environment);
    if positions.None? {
      return Err(());
    }
    ghost var env := Strings(environment).value;
    assert environment == AsJson(env);
    assert field.Missing? ==> env == [];
    environment := MergeInto(environment, positions.value, entries, env);
    return Ok(Array(environment));
  }

  // ----- names without `=` split back, so the map always says what the array says

  lemma {:induction false} PositionsTrack(env: seq<string>)
    ensures Tracks(Positions(env), env)
    decreases |env|
  {
    if env != [] {
      PositionsTrack(env[..|env| - 1]);
    }
  }

  lemma {:induction false} EditedIsMerged(env: seq<string>, entries: seq<EnvironmentEntry>)
    requires Plain(entries)
    ensures Edited(Merging(env, Positions(env)), entries).env == Merged(env, entries)
    ensures Tracks(Edited(Merging(env, Positions(env)), entries).positions, Merged(env, entries))
    decreases |entries|
  {
    if entries == [] {
      PositionsTrack(env);
    } else {
      var n := |entries| - 1;
      EditedIsMerged(env, entries[..n]);
      ApplyTracks(Merged(env, entries[..n]), entries[n], Edited(Merging(env, Positions(env)), entries[..n]).positions);
    }
  }

  /** For such names the edited array is the merged one. */
  lemma RewrittenIsMerged(env: seq<string>, entries: seq<EnvironmentEntry>)
    requires Plain(entries)
    ensures Rewritten(env, entries) == Merged(env, entries)
  {
    EditedIsMerged(env, entries);
  }

  // ----- the map it refines

  /** Overriding a map: a locked entry always wins, an overridable one only fills a gap. */
  function Override(m: map<string, string>, entries: seq<EnvironmentEntry>): map<string, string> {
    if entries == [] then m
    else
      var n := |entries| - 1;
      var before := Override(m, entries[..n]);
      if entries[n].name in before && entries[n].allowWorkloadOverride then before
      else before[entries[n].name := entries[n].value]
  }

  /** `m` is the environment read last-binding-wins. */
  ghost predicate Reads(env: seq<string>, m: map<string, string>) {
    forall name :: (name in m <==> Lookup(env, name).Some?) && (name in m ==> Lookup(env, name) == Some(m[name]))
  }

  lemma ApplyLookup(env: seq<string>, e: EnvironmentEntry, name: string)
    requires '=' !in e.name
    ensures Lookup(Apply(env, e), name) ==
      if name == e.name && (Position(env, name).None? || !e.allowWorkloadOverride) then Some(e.value)
      else Lookup(env, name)
  {
    BindingSplits(e);
    ApplyPosition(env, e, name);
  }

  /** Folding the entries refines folding them into the map. */
  lemma {:induction false} MergedReads(env: seq<string>, entries: seq<EnvironmentEntry>, m: map<string, string>)
    requires Plain(entries) && Reads(env, m)
    ensures Reads(Merged(env, entries), Override(m, entries))
    decreases |entries|
  {
    if entries != [] {
      var n := |entries| - 1;
      MergedReads(env, entries[..n], m);
      forall name
        ensures var before := Lookup(Merged(env, entries[..n]), name);
          Lookup(Merged(env, entries), name) ==
            if name == entries[n].name && (before.None? || !entries[n].allowWorkloadOverride)
            then Some(entries[n].value) else before
      {
        ApplyLookup(Merged(env, entries[..n]), entries[n], name);
      }
    }
  }

  lemma {:induction false} OverrideBinds(m: map<string, string>, entries: seq<EnvironmentEntry>, k: nat)
    requires k < |entries|
    ensures entries[k].name in Override(m, entries)
    decreases |entries|
  {
    if k < |entries| - 1 {
      OverrideBinds(m, entries[..|entries| - 1], k);
    }
  }

  lemma NamesHoldNoEquals(env: seq<string>, name: string)
    requires '=' in name
    ensures Lookup(env, name) == None
  {
  }

  /** The in-place edit refines the map override exactly when no name holds an `=`:
      such a name would be bound in the map and could never be read from the array. */
  lemma MergeRefinesOverride(env: seq<string>, entries: seq<EnvironmentEntry>, m: map<string, string>)
    requires Reads(env, m)
    ensures Reads(Rewritten(env, entries), Override(m, entries)) <==> Plain(entries)
  {
    if Plain(entries) {
      RewrittenIsMerged(env, entries);
      MergedReads(env, entries, m);
    } else {
      var k :| 0 <= k < |entries| && '=' in entries[k].name;
      OverrideBinds(m, entries, k);
      NamesHoldNoEquals(Rewritten(env, entries), entries[k].name);
    }
  }

  /** The last locked value for a name, and the first value of any kind. */
  function LastLocked(entries: seq<EnvironmentEntry>, name: string): (r: Option<string>)
    ensures r.Some? ==> exists i :: 0 <= i < |entries| && entries[i] == EnvironmentEntry(name, r.value, false)
    ensures r.None? ==> forall i :: 0 <= i < |entries| ==> entries[i].name != name || entries[i].allowWorkloadOverride
  {
    if entries == [] then None
    else
      var last := entries[|entries| - 1];
      if last.name == name && !last.allowWorkloadOverride then
        assert last == EnvironmentEntry(name, last.value, false);
        Some(last.value)
      else LastLocked(entries[..|entries| - 1], name)
  }

  function Fallback(entries: seq<EnvironmentEntry>, name: string): (r: Option<string>)
    ensures r.Some? <==> exists i :: 0 <= i < |entries| && entries[i].name == name
  {
    if entries == [] then None
    else if entries[0].name == name then Some(entries[0].value)
    else
      assert forall i :: 1 <= i < |entries| ==> entries[1..][i - 1] == entries[i];
      Fallback(entries[1..], name)
  }

  lemma FallbackSnoc(entries: seq<EnvironmentEntry>, name: string)
    requires entries != []
    ensures Fallback(entries, name) ==
      match Fallback(entries[..|entries| - 1], name)
      case Some(v) => Some(v)
      case None => if entries[|entries| - 1].name == name then Some(entries[|entries| - 1].value) else None
    decreases |entries|
  {
    if |entries| > 1 {
      FallbackSnoc(entries[1..], name);
      assert entries[1..][..|entries| - 2] == entries[..|entries| - 1][1..];
    }
  }

  /** What every name comes to: locked names get the release value, others keep the
      workload's value when there is one and take the release's when there is none. */
  lemma {:induction false} MergedValue(env: seq<string>, entries: seq<EnvironmentEntry>, name: string)
    requires Plain(entries)
    ensures Lookup(Merged(env, entries), name) ==
      if LastLocked(entries, name).Some? then LastLocked(entries, name)
      else if Lookup(env, name).Some? then Lookup(env, name)
      else Fallback(entries, name)
    decreases |entries|
  {
    if entries != [] {
      var n := |entries| - 1;
      MergedValue(env, entries[..n], name);
      ApplyLookup(Merged(env, entries[..n]), entries[n], name);
      FallbackSnoc(entries, name);
    }
  }

  lemma ApplySlot(env: seq<string>, e: EnvironmentEntry, i: nat)
    requires '=' !in e.name && i < |env|
    ensures i < |Apply(env, e)|
    ensures Apply(env, e)[i]
         == if Position(env, e.name) == Some(i) && !e.allowWorkloadOverride then Binding(e) else env[i]
    ensures NameAt(Apply(env, e), i) == NameAt(env, i)
  {
    BindingSplits(e);
  }

  lemma MergedSnoc(env: seq<string>, before: seq<EnvironmentEntry>, e: EnvironmentEntry)
    ensures Merged(env, before + [e]) == Apply(Merged(env, before), e)
  {
    assert (before + [e])[..|before|] == before;
  }

  /** Taking the last entry off a list to be merged. */
  lemma Last(entries: seq<EnvironmentEntry>) returns (before: seq<EnvironmentEntry>, e: EnvironmentEntry)
    requires entries != [] && Plain(entries)
    ensures entries == before + [e] && Plain(before) && '=' !in e.name
  {
    before, e := entries[..|entries| - 1], entries[|entries| - 1];
  }

  /** Names bound before stay where they are. */
  lemma {:induction false} MergedPosition(env: seq<string>, entries: seq<EnvironmentEntry>, name: string)
    requires Plain(entries) && Position(env, name).Some?
    ensures Position(Merged(env, entries), name) == Position(env, name)
    decreases |entries|
  {
    if entries != [] {
      var before, e := Last(entries);
      MergedPosition(env, before, name);
      MergedSnoc(env, before, e);
      ApplyPosition(Merged(env, before), e, name);
    }
  }

  lemma {:induction false} NamesStay(env: seq<string>, entries: seq<EnvironmentEntry>, i: nat)
    requires Plain(entries) && i < |env|
    ensures i < |Merged(env, entries)| && NameAt(Merged(env, entries), i) == NameAt(env, i)
    decreases |entries|
  {
    if entries != [] {
      var n := |entries| - 1;
      NamesStay(env, entries[..n], i);
      ApplySlot(Merged(env, entries[..n]), entries[n], i);
    }
  }

  lemma SlotIsRead(env: seq<string>, entries: seq<EnvironmentEntry>, i: nat, name: string)
    requires Plain(entries) && i < |env|
    ensures Position(Merged(env, entries), name) == Some(i) <==> Position(env, name) == Some(i)
  {
    NamesStay(env, entries, i);
    if NameAt(env, i) == Some(name) {
      PositionIsLast(env, name, i);
    }
    if Position(env, name).Some? {
      MergedPosition(env, entries, name);
    }
  }

  /** The text expected in an original slot: its own, unless a locked name is read there. */
  function SlotText(env: seq<string>, entries: seq<EnvironmentEntry>, i: nat): string
    requires i < |env|
  {
    var name := NameAt(env, i);
    if name.Some? && Position(env, name.value) == Some(i) && LastLocked(entries, name.value).Some?
    then name.value + ['='] + LastLocked(entries, name.value).value
    else env[i]
  }

  lemma SlotTextSnoc(env: seq<string>, before: seq<EnvironmentEntry>, e: EnvironmentEntry, i: nat)
    requires i < |env|
    ensures SlotText(env, before + [e], i) ==
      if Position(env, e.name) == Some(i) && !e.allowWorkloadOverride then Binding(e) else SlotText(env, before, i)
  {
    assert (before + [e])[..|before|] == before;
  }

  /** Every original slot keeps its index, and its text too unless it is the slot
      where a locked name is read. */
  lemma {:induction false} MergedSlot(env: seq<string>, entries: seq<EnvironmentEntry>, i: nat)
    requires Plain(entries) && i < |env|
    ensures i < |Merged(env, entries)| && Merged(env, entries)[i] == SlotText(env, entries, i)
    decreases |entries|
  {
    if entries != [] {
      var before, e := Last(entries);
      MergedSlot(env, before, i);
      SlotIsRead(env, before, i, e.name);
      MergedSnoc(env, before, e);
      ApplySlot(Merged(env, before), e, i);
      SlotTextSnoc(env, before, e, i);
    }
  }

  function NewNames(env: seq<string>, entries: seq<EnvironmentEntry>): set<string> {
    set i | 0 <= i < |entries| && Position(env, entries[i].name).None? :: entries[i].name
  }

  lemma BoundAfter(env: seq<string>, entries: seq<EnvironmentEntry>, name: string)
    requires Plain(entries)
    ensures Position(Merged(env, entries), name).Some? <==> Position(env, name).Some? || name in NewNames(env, entries)
  {
    MergedValue(env, entries, name);
  }

  lemma NewNamesSnoc(env: seq<string>, before: seq<EnvironmentEntry>, e: EnvironmentEntry)
    ensures NewNames(env, before + [e]) == NewNames(env, before) + if Position(env, e.name).None? then {e.name} else {}
  {
    var entries := before + [e];
    assert forall i :: 0 <= i < |before| ==> entries[i] == before[i];
    assert entries[|before|] == e;
  }

  lemma ApplyLength(env: seq<string>, e: EnvironmentEntry)
    ensures |Apply(env, e)| == |env| + if Position(env, e.name).None? then 1 else 0
  {
  }

  /** The array grows by exactly the number of names it did not bind. */
  lemma {:induction false} GrowthIsNewNames(env: seq<string>, entries: seq<EnvironmentEntry>)
    requires Plain(entries)
    ensures |Merged(env, entries)| == |env| + |NewNames(env, entries)|
    decreases |entries|
  {
    if entries != [] {
      var before, e := Last(entries);
      GrowthIsNewNames(env, before);
      MergedSnoc(env, before, e);
      ApplyLength(Merged(env, before), e);
      NewNamesGrow(env, before, e);
    }
  }

  lemma NewNamesGrow(env: seq<string>, before: seq<EnvironmentEntry>, e: EnvironmentEntry)
    requires Plain(before)
    ensures |NewNames(env, before + [e])|
         == |NewNames(env, before)| + if Position(Merged(env, before), e.name).None? then 1 else 0
  {
    BoundAfter(env, before, e.name);
    NewNamesSnoc(env, before, e);
    if e.name in NewNames(env, before) {
      assert NewNames(env, before + [e]) == NewNames(env, before);
    }
  }

  /** Merging twice is merging once. */
  lemma MergeIsIdempotent(env: seq<string>, entries: seq<EnvironmentEntry>)
    requires Plain(entries)
    ensures Merged(Merged(env, entries), entries) == Merged(env, entries)
    ensures Rewritten(Rewritten(env, entries), entries) == Rewritten(env, entries)
  {
    RewrittenIsMerged(env, entries);
    RewrittenIsMerged(Merged(env, entries), entries);
    var once := Merged(env, entries);
    var twice := Merged(once, entries);
    forall i | 0 <= i < |entries|
      ensures Position(once, entries[i].name).Some?
    {
      BoundAfter(env, entries, entries[i].name);
    }
    assert NewNames(once, entries) == {};
    GrowthIsNewNames(once, entries);
    forall i | 0 <= i < |once|
      ensures twice[i] == once[i]
    {
      MergedSlot(once, entries, i);
      if NameAt(once, i).Some? {
        MergedValue(env, entries, NameAt(once, i).value);
      }
    }
  }

  /** For a validated release every name occurs once, so it is locked, overridable
      or absent and the merged value follows. */
  lemma ValidatedValue(env: seq<string>, entries: seq<EnvironmentEntry>, k: nat)
    requires ValidEnvironment(entries) && k < |entries|
    ensures Lookup(Rewritten(env, entries), entries[k].name) ==
      if entries[k].allowWorkloadOverride && Lookup(env, entries[k].name).Some? then Lookup(env, entries[k].name)
      else Some(entries[k].value)
  {
    var e := entries[k];
    assert forall i :: 0 <= i < |entries| && i != k ==> entries[i].name != e.name;
    assert Plain(entries) by {
      assert forall i :: 0 <= i < |entries| ==> ValidEntry(entries[i]);
    }
    RewrittenIsMerged(env, entries);
    MergedValue(env, entries, e.name);
    OnlyFallback(entries, k);
  }

  lemma {:induction false} OnlyFallback(entries: seq<EnvironmentEntry>, k: nat)
    requires k < |entries| && forall i :: 0 <= i < |entries| && i != k ==> entries[i].name != entries[k].name
    ensures Fallback(entries, entries[k].name) == Some(entries[k].value)
    decreases k
  {
    if k > 0 {
      OnlyFallback(entries[1..], k - 1);
    }
  }
}
