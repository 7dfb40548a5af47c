/**
 What a caller does between joining a flight and leaving it, as the program points
 of its own functions. A permit lives in a lexical scope: it is acquired where the
 scope opens and dropped where it closes, also when an error leaves it early.
 */
module Programs {
  import opened Wrappers
  import opened Releases

  datatype Op =
    | Local        // prepare, stage, parse, validate: no permit is taken or dropped
    | Acquire      // `acquire_permit`, opening a scope
    | Command      // `run_command`
    | Drop         // the scope closes

  type Program = seq<Op>

  /** Where the innermost permit scope around `at` was opened. */
  function Open(p: Program, at: nat): (r: Option<nat>)
    requires at <= |p|
    ensures r.Some? ==> r.value < at && p[r.value] == Acquire
    decreases at
  {
    if at == 0 then None
    else
      match p[at - 1]
      case Acquire => Some(at - 1)
      case Drop =>
        var closed := Open(p, at - 1);
        if closed.None? then None else Open(p, closed.value)
      case _ => Open(p, at - 1)
  }

  /** Every command runs inside a scope, a scope opens only for a command and never
      inside another, every drop closes one, and none stays open. */
  ghost predicate Disciplined(p: Program) {
    && (forall i :: 0 <= i < |p| ==> InScope(p, i))
    && Open(p, |p|) == None
  }

  predicate InScope(p: Program, i: nat)
    requires i < |p|
  {
    && (p[i] == Acquire ==> Open(p, i) == None && i + 1 < |p| && p[i + 1] == Command)
    && (p[i] == Command || p[i] == Drop ==> Open(p, i).Some?)
  }

  // ----- the functions, statement by statement

  /** `register_root`: acquire, realise, check the output and the link, drop on return. */
  const REGISTER_ROOT: Program := [Acquire, Command, Local, Drop]

  /** One path of `materialize_release` and of `register_resolution`: the root is
      prepared first. `materialize` does the same once for a closure. */
  const ONE_PATH: Program := [Local] + REGISTER_ROOT

  /** `materialize_development`: prepare, stage, evaluate in a block of its own that
      ends with its permit, parse, and only then register. */
  const DEVELOPMENT: Program := [Local, Local, Acquire, Command, Drop, Local] + REGISTER_ROOT

  /** `query_closure`: two commands and the adding up, all under one permit. */
  const INSPECTION: Program := [Acquire, Command, Local, Command, Local, Drop]

  function EachPath(n: nat): (p: Program)
    ensures |p| == 5 * n
  {
    if n == 0 then [] else EachPath(n - 1) + ONE_PATH
  }

  function LeaderProgram(job: Job): Program {
    match job.request.materialize
    case Closure(_) => ONE_PATH
    case Flake(_) => DEVELOPMENT
    case Release(_) =>
      if job.selected.Some? then EachPath(|StorePaths(job.selected.value.resolution)|) else [Local]
  }

  /** A follower registers every path of the resolution it was handed. */
  function FollowerProgram(r: ResolvedRelease): Program { EachPath(|StorePaths(r)|) }

  // ----- scopes are disciplined

  /** `p` begins with `a`, and `b` is what follows. */
  ghost predicate Starts(p: Program, a: Program) {
    |a| <= |p| && forall i :: 0 <= i < |a| ==> p[i] == a[i]
  }

  ghost predicate Follows(p: Program, n: nat, b: Program) {
    n + |b| == |p| && forall i :: 0 <= i < |b| ==> p[n + i] == b[i]
  }

  lemma {:induction false} OpenInPrefix(p: Program, a: Program, at: nat)
    requires Starts(p, a) && at <= |a|
    ensures Open(p, at) == Open(a, at)
    decreases at
  {
    if at > 0 {
      OpenInPrefix(p, a, at - 1);
      if a[at - 1] == Drop && Open(a, at - 1).Some? {
        OpenInPrefix(p, a, Open(a, at - 1).value);
      }
    }
  }

  /** After a part that left nothing open, scopes are those of what follows. */
  lemma {:induction false} OpenInSuffix(p: Program, n: nat, b: Program, at: nat)
    requires Follows(p, n, b) && at <= |b| && Open(p, n) == None
    ensures Open(p, n + at) == if Open(b, at).Some? then Some(n + Open(b, at).value) else None
    decreases at
  {
    if at > 0 {
      OpenInSuffix(p, n, b, at - 1);
      assert p[n + (at - 1)] == b[at - 1];
      if b[at - 1] == Drop && Open(b, at - 1).Some? {
        OpenInSuffix(p, n, b, Open(b, at - 1).value);
      }
    }
  }

  lemma DisciplinedParts(p: Program, a: Program, b: Program)
    requires Disciplined(a) && Disciplined(b) && Starts(p, a) && Follows(p, |a|, b)
    ensures Disciplined(p)
  {
    OpenInPrefix(p, a, |a|);
    forall i | 0 <= i < |p|
      ensures InScope(p, i)
    {
      if i < |a| {
        OpenInPrefix(p, a, i);
        assert InScope(a, i);
      } else {
        OpenInSuffix(p, |a|, b, i - |a|);
        assert p[|a| + (i - |a|)] == b[i - |a|];
        assert InScope(b, i - |a|);
      }
    }
    OpenInSuffix(p, |a|, b, |b|);
  }

  lemma DisciplinedInSequence(a: Program, b: Program)
    requires Disciplined(a) && Disciplined(b)
    ensures Disciplined(a + b)
  {
    DisciplinedParts(a + b, a, b);
  }

  lemma OneLocal(p: Program)
    requires p == [Local]
    ensures Disciplined(p)
  {
    assert Open(p, 0) == None;
  }

  lemma RegisterRootIsDisciplined(p: Program)
    requires p == [Acquire, Command, Local, Drop]
    ensures Disciplined(p)
  {
    assert Open(p, 0) == None;
    assert Open(p, 1) == Some(0);
    assert Open(p, 2) == Some(0);
    assert Open(p, 3) == Some(0);
  }

  lemma OnePathIsDisciplined()
    ensures Disciplined(ONE_PATH)
  {
    OneLocal([Local]);
    RegisterRootIsDisciplined(REGISTER_ROOT);
    DisciplinedInSequence([Local], REGISTER_ROOT);
  }

  lemma EvaluationIsDisciplined(p: Program)
    requires p == [Local, Local, Acquire, Command, Drop, Local]
    ensures Disciplined(p)
  {
    assert Open(p, 0) == None;
    assert Open(p, 1) == None;
    assert Open(p, 2) == None;
    assert Open(p, 3) == Some(2);
    assert Open(p, 4) == Some(2);
    assert Open(p, 5) == None;
  }

  lemma DevelopmentIsDisciplined()
    ensures Disciplined(DEVELOPMENT)
  {
    EvaluationIsDisciplined([Local, Local, Acquire, Command, Drop, Local]);
    RegisterRootIsDisciplined(REGISTER_ROOT);
    DisciplinedInSequence([Local, Local, Acquire, Command, Drop, Local], REGISTER_ROOT);
  }

  lemma InspectionIsDisciplined(p: Program)
    requires p == [Acquire, Command, Local, Command, Local, Drop]
    ensures Disciplined(p)
  {
    assert Open(p, 0) == None;
    assert Open(p, 1) == Some(0);
    assert Open(p, 2) == Some(0);
    assert Open(p, 3) == Some(0);
    assert Open(p, 4) == Some(0);
    assert Open(p, 5) == Some(0);
  }

  lemma {:induction false} EachPathIsDisciplined(n: nat)
    ensures Disciplined(EachPath(n))
  {
    if n > 0 {
      EachPathIsDisciplined(n - 1);
      OnePathIsDisciplined();
      DisciplinedInSequence(EachPath(n - 1), ONE_PATH);
    }
  }

  /** Whatever the request, Nix runs only under a permit; nobody prepares or stages while
      holding one before its command; and no function asks for a permit inside the scope
      of another: in particular the evaluation holds one, and that one is gone before
      its root is registered. */
  lemma ProgramsAreDisciplined(job: Job, r: ResolvedRelease)
    ensures Disciplined(LeaderProgram(job)) && Disciplined(FollowerProgram(r)) && Disciplined(INSPECTION)
  {
    EachPathIsDisciplined(|StorePaths(r)|);
    InspectionIsDisciplined(INSPECTION);
    match job.request.materialize
    case Closure(_) => OnePathIsDisciplined();
    case Flake(_) => DevelopmentIsDisciplined();
    case Release(_) =>
      if job.selected.Some? {
        EachPathIsDisciplined(|StorePaths(job.selected.value.resolution)|);
      } else {
        OneLocal([Local]);
      }
  }

  // ----- how often Nix runs, and for how many permits

  lemma {:induction false} EachPathRunsOnce(n: nat)
    ensures multiset(EachPath(n))[Command] == n && multiset(EachPath(n))[Acquire] == n
  {
    if n > 0 {
      EachPathRunsOnce(n - 1);
      assert multiset(ONE_PATH)[Command] == 1 && multiset(ONE_PATH)[Acquire] == 1;
    }
  }

  lemma CountsAdd(a: Program, b: Program, op: Op)
    ensures multiset(a + b)[op] == multiset(a)[op] + multiset(b)[op]
  {
  }

  lemma EvaluationRunsOnce(p: Program)
    requires p == [Local, Local, Acquire, Command, Drop, Local]
    ensures multiset(p)[Command] == 1 && multiset(p)[Acquire] == 1
  {
    assert multiset(p) == multiset{Local, Local, Acquire, Command, Drop, Local};
  }

  lemma RegistrationRunsOnce(p: Program)
    requires p == [Acquire, Command, Local, Drop]
    ensures multiset(p)[Command] == 1 && multiset(p)[Acquire] == 1
  {
    assert multiset(p) == multiset{Acquire, Command, Local, Drop};
  }

  lemma DevelopmentRunsTwice(evaluation: Program)
    requires evaluation == [Local, Local, Acquire, Command, Drop, Local]
    ensures multiset(evaluation + REGISTER_ROOT)[Command] == 2 && multiset(evaluation + REGISTER_ROOT)[Acquire] == 2
  {
    EvaluationRunsOnce(evaluation);
    RegistrationRunsOnce(REGISTER_ROOT);
    CountsAdd(evaluation, REGISTER_ROOT, Command);
    CountsAdd(evaluation, REGISTER_ROOT, Acquire);
  }

  /** How often a leader runs Nix: once for each store path of a release, once for a
      closure, and twice for a development source, which it evaluates and then roots.
      Each command takes a permit of its own. */
  lemma LeaderRunsNix(job: Job)
    requires job.request.materialize.Release? ==> job.selected.Some?
    ensures var commands := match job.request.materialize
        case Release(_) => |StorePaths(job.selected.value.resolution)|
        case Closure(_) => 1
        case Flake(_) => 2;
      && multiset(LeaderProgram(job))[Command] == commands
      && multiset(LeaderProgram(job))[Acquire] == commands
  {
    match job.request.materialize
    case Release(_) => EachPathRunsOnce(|StorePaths(job.selected.value.resolution)|);
    case Closure(_) => assert multiset(ONE_PATH)[Command] == 1 && multiset(ONE_PATH)[Acquire] == 1;
    case Flake(_) => DevelopmentRunsTwice([Local, Local, Acquire, Command, Drop, Local]);
  }

  /** A follower runs it once for each store path it was handed, under a permit each. */
  lemma FollowerRunsNix(r: ResolvedRelease)
    ensures multiset(FollowerProgram(r))[Command] == |StorePaths(r)|
    ensures multiset(FollowerProgram(r))[Acquire] == |StorePaths(r)|
  {
    EachPathRunsOnce(|StorePaths(r)|);
  }

  /** An inspection asks Nix twice under one permit. */
  lemma InspectionRunsNix(p: Program)
    requires p == INSPECTION
    ensures multiset(p)[Command] == 2 && multiset(p)[Acquire] == 1
  {
  }
}
