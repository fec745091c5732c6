/**
 * The stage graph of a pass pipeline and its executor (`PassManagerSchedule`
 * in dpcomp/src/compiler/compiler.cpp): building the graph from an ordered
 * list of stage declarations, and running it as a state machine over the
 * module's jump markers.
 */
module PassSchedule {
  import opened Wrappers
  import opened Diagnostics
  import opened PipelineStage

  /** One `add_stage` call of the registry: a stage's name, the stages it may jump to, its passes. */
  datatype StageDecl = StageDecl(name: string, jumps: seq<string>, passes: PassPipeline)

  predicate Declared(decls: seq<StageDecl>, name: string)
  {
    exists i :: 0 <= i < |decls| && decls[i].name == name
  }

  predicate UniqueNames(decls: seq<StageDecl>)
  {
    forall i, j :: 0 <= i < j < |decls| ==> decls[i].name != decls[j].name
  }

  predicate JumpResolves(decls: seq<StageDecl>, i: nat, k: nat)
    requires i < |decls| && k < |decls[i].jumps|
  {
    decls[i].jumps[k] != "" && Declared(decls, decls[i].jumps[k])
  }

  /**
   * What construction asserts of the declarations: non-empty, unique stage
   * names, and every jump name non-empty and the name of a declared stage.
   */
  predicate WellFormed(decls: seq<StageDecl>)
  {
    && (forall i :: 0 <= i < |decls| ==> decls[i].name != "")
    && UniqueNames(decls)
    && forall i, k :: 0 <= i < |decls| && 0 <= k < |decls[i].jumps| ==> JumpResolves(decls, i, k)
  }

  /** The construction assertion that fails, with the stage (and jump) it fails on. */
  datatype BuildError =
    | EmptyStageName(stage: nat)
    | DuplicateStageName(stage: nat)
    | EmptyJumpName(stage: nat, jump: nat)
    | UndeclaredJumpTarget(stage: nat, jump: nat)

  predicate Violates(decls: seq<StageDecl>, err: BuildError)
  {
    match err
    case EmptyStageName(i) => i < |decls| && decls[i].name == ""
    case DuplicateStageName(i) => i < |decls| && exists j :: 0 <= j < i && decls[j].name == decls[i].name
    case EmptyJumpName(i, k) => i < |decls| && k < |decls[i].jumps| && decls[i].jumps[k] == ""
    case UndeclaredJumpTarget(i, k) => i < |decls| && k < |decls[i].jumps| && !Declared(decls, decls[i].jumps[k])
  }

  /** The checks `add_stage` makes, for stage `i` and every later one, in declaration order. */
  function CheckStages(decls: seq<StageDecl>, i: nat): (r: Option<BuildError>)
    requires i <= |decls|
    ensures r.None? <==> forall j :: i <= j < |decls| ==>
                           decls[j].name != "" && forall j' :: 0 <= j' < j ==> decls[j'].name != decls[j].name
    ensures r.Some? ==> Violates(decls, r.value)
    decreases |decls| - i
  {
    if i == |decls| then None
    else if decls[i].name == "" then Some(EmptyStageName(i))
    else if exists j :: 0 <= j < i && decls[j].name == decls[i].name then Some(DuplicateStageName(i))
    else CheckStages(decls, i + 1)
  }

  /** The checks of the jump-wiring loop, from jump `k` of stage `i` on, in loop order. */
  function CheckJumps(decls: seq<StageDecl>, i: nat, k: nat): (r: Option<BuildError>)
    requires i <= |decls| && (i < |decls| ==> k <= |decls[i].jumps|)
    ensures r.None? <==>
              (i < |decls| ==> forall k' :: k <= k' < |decls[i].jumps| ==> JumpResolves(decls, i, k')) &&
              (forall i', k' :: i < i' < |decls| && 0 <= k' < |decls[i'].jumps| ==> JumpResolves(decls, i', k'))
    ensures r.Some? ==> Violates(decls, r.value)
    decreases |decls| - i, if i < |decls| then |decls[i].jumps| - k else 0
  {
    if i == |decls| then None
    else if k == |decls[i].jumps| then CheckJumps(decls, i + 1, 0)
    else if decls[i].jumps[k] == "" then
      assert !JumpResolves(decls, i, k);
      Some(EmptyJumpName(i, k))
    else if !Declared(decls, decls[i].jumps[k]) then
      assert !JumpResolves(decls, i, k);
      Some(UndeclaredJumpTarget(i, k))
    else CheckJumps(decls, i, k + 1)
  }

  /**
   * The first construction assertion that fails, in the order construction
   * makes them: all stage-name checks first, then the jump checks. None
   * exactly when the declarations are well formed.
   */
  function CheckDecls(decls: seq<StageDecl>): (r: Option<BuildError>)
    ensures r.None? <==> WellFormed(decls)
    ensures r.Some? ==> Violates(decls, r.value)
  {
    match CheckStages(decls, 0)
    case Some(err) => Some(err)
    case None => CheckJumps(decls, 0, 0)
  }

  /** The stage a name denotes: the first (with unique names, the only) stage of that name. */
  function StageIndex(decls: seq<StageDecl>, name: string): (r: nat)
    requires Declared(decls, name)
    ensures r < |decls| && decls[r].name == name
    ensures forall i :: 0 <= i < r ==> decls[i].name != name
  {
    if decls[0].name == name then 0
    else
      var w :| 0 <= w < |decls| && decls[w].name == name;
      assert decls[1..][w - 1].name == name;
      1 + StageIndex(decls[1..], name)
  }

  /** The edges a stage gets for its declared jump names, in declaration order. */
  function ResolveJumps(decls: seq<StageDecl>, names: seq<string>): seq<Jump>
    requires forall k :: 0 <= k < |names| ==> Declared(decls, names[k])
  {
    seq(|names|, k requires 0 <= k < |names| => Jump(names[k], StageIndex(decls, names[k])))
  }

  /** In well-formed declarations every jump name of a stage is a declared stage name. */
  lemma JumpsDeclared(decls: seq<StageDecl>, i: nat)
    requires WellFormed(decls) && i < |decls|
    ensures forall k :: 0 <= k < |decls[i].jumps| ==> Declared(decls, decls[i].jumps[k])
  {
    forall k | 0 <= k < |decls[i].jumps|
      ensures Declared(decls, decls[i].jumps[k])
    {
      assert JumpResolves(decls, i, k);
    }
  }

  /** The stage graph construction builds from the declarations. */
  function BuiltGraph(decls: seq<StageDecl>): (r: seq<StageNode>)
    requires WellFormed(decls)
    ensures |r| == |decls| && ValidGraph(r)
    ensures forall i :: 0 <= i < |r| ==> r[i].passes == decls[i].passes && |r[i].jumps| == |decls[i].jumps|
  {
    seq(|decls|, i requires 0 <= i < |decls| =>
      JumpsDeclared(decls, i);
      StageNode(decls[i].passes, ResolveJumps(decls, decls[i].jumps),
                if i + 1 < |decls| then Some(i + 1) else None))
  }

  /** Every edge and every successor of the graph names one of its stages. */
  predicate ValidGraph(g: seq<StageNode>)
  {
    forall i :: 0 <= i < |g| ==>
      (g[i].next.Some? ==> g[i].next.value < |g|) &&
      forall e :: 0 <= e < |g[i].jumps| ==> g[i].jumps[e].target < |g|
  }

  /**
   * The built graph keeps declaration order: stage i is followed by stage i+1
   * and the last stage by none, and each declared jump becomes an edge, in
   * order, to the stage whose name is the jump's name.
   */
  lemma BuiltGraphShape(decls: seq<StageDecl>)
    requires WellFormed(decls)
    ensures var g := BuiltGraph(decls);
            |g| == |decls| && ValidGraph(g) &&
            (forall i :: 0 <= i < |g| ==> g[i].next == if i + 1 < |g| then Some(i + 1) else None) &&
            (forall i :: 0 <= i < |g| ==> |g[i].jumps| == |decls[i].jumps|) &&
            (forall i, k :: 0 <= i < |g| && 0 <= k < |g[i].jumps| ==>
               g[i].jumps[k].marker == decls[i].jumps[k] && decls[g[i].jumps[k].target].name == decls[i].jumps[k])
  {
  }

  // ---------------------------------------------------------------------
  // Execution

  datatype RunStatus = Succeeded | Failed | OutOfFuel

  /** One stage execution: which stage ran, and on what module. */
  datatype Visit = Visit(stage: nat, input: Artifact)

  /** What a run did: how it ended, the stages it ran, the module it left, the diagnostics raised. */
  datatype Execution = Execution(status: RunStatus, visits: seq<Visit>, final: Artifact, diags: seq<Diagnostic>)

  /** `e` preceded by stage executions `visits` that raised `diags`. */
  function After(visits: seq<Visit>, diags: seq<Diagnostic>, e: Execution): Execution
  {
    Execution(e.status, visits + e.visits, e.final, diags + e.diags)
  }

  lemma AfterNothing(visits: seq<Visit>, diags: seq<Diagnostic>, e: Execution)
    requires e.visits == [] && e.diags == []
    ensures After(visits, diags, e) == Execution(e.status, visits, e.final, diags)
  {
    assert visits + [] == visits && diags + [] == diags;
  }

  lemma AfterAfter(v1: seq<Visit>, d1: seq<Diagnostic>, v2: seq<Visit>, d2: seq<Diagnostic>, e: Execution)
    ensures After(v1, d1, After(v2, d2, e)) == After(v1 + v2, d1 + d2, e)
  {
    assert v1 + (v2 + e.visits) == v1 + v2 + e.visits;
    assert d1 + (d2 + e.diags) == d1 + d2 + e.diags;
  }

  /** One unfolding of `Execute` for a positive budget. */
  lemma ExecuteStep(g: seq<StageNode>, cur: nat, a: Artifact, fuel: nat)
    requires ValidGraph(g) && cur < |g| && fuel > 0
    ensures var run := g[cur].passes(a);
            var t := Transition(g[cur], run.after);
            (t.0.Some? ==> t.0.value < |g|) &&
            Execute(g, cur, a, fuel) ==
              if !run.ok then Execution(Failed, [Visit(cur, a)], run.after, run.diags)
              else if t.0.None? then Execution(Succeeded, [Visit(cur, a)], t.1, run.diags)
              else After([Visit(cur, a)], run.diags, Execute(g, t.0.value, t.1, fuel - 1))
  {
    TransitionInGraph(g, cur, g[cur].passes(a).after);
  }

  /**
   * `e0` is what the stage executions `visits`, which raised `diags`,
   * followed by a run from stage `cur` on module `a` with `fuel` left, give.
   */
  ghost predicate Resumes(g: seq<StageNode>, e0: Execution, visits: seq<Visit>, diags: seq<Diagnostic>,
                          cur: nat, a: Artifact, fuel: nat)
  {
    ValidGraph(g) && cur < |g| && e0 == After(visits, diags, Execute(g, cur, a, fuel))
  }

  /** With no budget left, the run ends out of fuel on the module as it is. */
  lemma ResumesOutOfFuel(g: seq<StageNode>, e0: Execution, visits: seq<Visit>, diags: seq<Diagnostic>,
                         cur: nat, a: Artifact)
    requires Resumes(g, e0, visits, diags, cur, a, 0)
    ensures e0.status == OutOfFuel && e0.final == a && e0.diags == diags
  {
    assert diags + [] == diags;
  }

  /** A run that has got to stage `cur` ends there when that stage fails or has nowhere to go. */
  lemma ResumesEnds(g: seq<StageNode>, e0: Execution, visits: seq<Visit>, diags: seq<Diagnostic>,
                    cur: nat, a: Artifact, fuel: nat)
    requires Resumes(g, e0, visits, diags, cur, a, fuel) && fuel > 0
    requires var run := RunPasses(g[cur], a); !run.ok || Transition(g[cur], run.after).0.None?
    ensures var run := RunPasses(g[cur], a);
            e0.status == (if run.ok then Succeeded else Failed) &&
            e0.final == (if run.ok then Transition(g[cur], run.after).1 else run.after) &&
            e0.diags == diags + run.diags
  {
    ExecuteStep(g, cur, a, fuel);
  }

  /**
   * A run that has got to stage `cur` carries on from where that stage's
   * transition leads, with the stage's visit and diagnostics recorded.
   */
  lemma ResumesContinues(g: seq<StageNode>, e0: Execution, visits: seq<Visit>, diags: seq<Diagnostic>,
                         cur: nat, a: Artifact, fuel: nat,
                         visits': seq<Visit>, diags': seq<Diagnostic>, next: nat, b: Artifact, fuel': nat)
    requires Resumes(g, e0, visits, diags, cur, a, fuel) && fuel > 0
    requires var run := RunPasses(g[cur], a); run.ok && Transition(g[cur], run.after) == (Some(next), b)
    requires visits' == visits + [Visit(cur, a)] && diags' == diags + RunPasses(g[cur], a).diags && fuel' == fuel - 1
    ensures Resumes(g, e0, visits', diags', next, b, fuel')
  {
    ExecuteStep(g, cur, a, fuel);
    AfterAfter(visits, diags, [Visit(cur, a)], RunPasses(g[cur], a).diags, Execute(g, next, b, fuel - 1));
  }

  lemma TransitionInGraph(g: seq<StageNode>, cur: nat, a: Artifact)
    requires ValidGraph(g) && cur < |g|
    ensures Transition(g[cur], a).0.Some? ==> Transition(g[cur], a).0.value < |g|
  {
  }

  /**
   * The executor from stage `cur` on module `a`, allowed `fuel` stage
   * executions: a failing stage ends the run at once; after a successful
   * stage a matching jump edge or else the successor is followed, and no
   * successor ends the run successfully.
   */
  function Execute(g: seq<StageNode>, cur: nat, a: Artifact, fuel: nat): (e: Execution)
    requires ValidGraph(g) && cur < |g|
    ensures |e.visits| <= fuel
    ensures e.status == OutOfFuel ==> |e.visits| == fuel
    ensures fuel > 0 ==> e.visits != [] && e.visits[0] == Visit(cur, a)
    decreases fuel
  {
    if fuel == 0 then Execution(OutOfFuel, [], a, [])
    else
      var run := g[cur].passes(a);
      if !run.ok then Execution(Failed, [Visit(cur, a)], run.after, run.diags)
      else
        var t := Transition(g[cur], run.after);
        TransitionInGraph(g, cur, run.after);
        match t.0
        case None => Execution(Succeeded, [Visit(cur, a)], t.1, run.diags)
        case Some(n) => After([Visit(cur, a)], run.diags, Execute(g, n, t.1, fuel - 1))
  }

  function RunOf(g: seq<StageNode>, v: Visit): StageRun
    requires v.stage < |g|
  {
    g[v.stage].passes(v.input)
  }

  /** One step of the state machine: `v`'s stage succeeds and control passes to `w` on `w`'s module. */
  predicate Step(g: seq<StageNode>, v: Visit, w: Visit)
  {
    v.stage < |g| && RunOf(g, v).ok && Transition(g[v.stage], RunOf(g, v).after) == (Some(w.stage), w.input)
  }

  /** The diagnostics raised by a sequence of stage executions, in order. */
  function DiagsOf(g: seq<StageNode>, vs: seq<Visit>): seq<Diagnostic>
    requires forall k :: 0 <= k < |vs| ==> vs[k].stage < |g|
  {
    if vs == [] then [] else RunOf(g, vs[0]).diags + DiagsOf(g, vs[1..])
  }

  /** How an execution with a last visit `v` ended. */
  predicate EndsWith(g: seq<StageNode>, e: Execution, v: Visit)
    requires v.stage < |g|
  {
    var run := RunOf(g, v);
    match e.status
    case Failed => !run.ok && e.final == run.after
    case Succeeded => run.ok && Transition(g[v.stage], run.after) == (None, e.final)
    case OutOfFuel => run.ok && Transition(g[v.stage], run.after).0.Some? &&
                      Transition(g[v.stage], run.after).1 == e.final
  }

  /** Every visit names a stage of `g` and each one hands control to the next. */
  predicate IsWalk(g: seq<StageNode>, vs: seq<Visit>)
  {
    && (forall k :: 0 <= k < |vs| ==> vs[k].stage < |g|)
    && (forall k :: 0 <= k < |vs| - 1 ==> Step(g, vs[k], vs[k + 1]))
  }

  lemma WalkCons(g: seq<StageNode>, v: Visit, vs: seq<Visit>)
    requires IsWalk(g, vs) && v.stage < |g|
    requires vs != [] ==> Step(g, v, vs[0])
    ensures IsWalk(g, [v] + vs)
  {
    var ws := [v] + vs;
    forall k | 0 <= k < |ws| - 1
      ensures Step(g, ws[k], ws[k + 1])
    {
      if k > 0 {
        assert ws[k] == vs[k - 1] && ws[k + 1] == vs[k];
      }
    }
  }

  /**
   * A run is a walk through the stage graph: it starts at `cur`, and each
   * stage it runs succeeded and handed control to the next by an edge or
   * its successor.
   */
  lemma {:induction false} ExecuteIsWalk(g: seq<StageNode>, cur: nat, a: Artifact, fuel: nat, e: Execution)
    requires ValidGraph(g) && cur < |g| && e == Execute(g, cur, a, fuel)
    ensures IsWalk(g, e.visits) && (e.visits != [] ==> e.visits[0] == Visit(cur, a))
    decreases fuel
  {
    if fuel > 0 {
      var run := g[cur].passes(a);
      if run.ok && Transition(g[cur], run.after).0.Some? {
        var t := Transition(g[cur], run.after);
        TransitionInGraph(g, cur, run.after);
        var v := Visit(cur, a);
        var rest := Execute(g, t.0.value, t.1, fuel - 1);
        ExecuteIsWalk(g, t.0.value, t.1, fuel - 1, rest);
        assert e.visits == [v] + rest.visits;
        WalkCons(g, v, rest.visits);
      }
    }
  }

  /**
   * A run stops at the first failing stage, at a stage with nowhere to go,
   * or when its budget is spent; it runs no stage only when it had no budget.
   */
  lemma {:induction false} ExecuteEnds(g: seq<StageNode>, cur: nat, a: Artifact, fuel: nat, e: Execution)
    requires ValidGraph(g) && cur < |g| && e == Execute(g, cur, a, fuel)
    ensures e.visits == [] <==> e.status == OutOfFuel && fuel == 0
    ensures e.visits == [] ==> e.final == a
    ensures e.visits != [] ==> e.visits[|e.visits| - 1].stage < |g| && EndsWith(g, e, e.visits[|e.visits| - 1])
    decreases fuel
  {
    if fuel > 0 {
      var v := Visit(cur, a);
      var run := g[cur].passes(a);
      if run.ok && Transition(g[cur], run.after).0.Some? {
        var t := Transition(g[cur], run.after);
        TransitionInGraph(g, cur, run.after);
        var rest := Execute(g, t.0.value, t.1, fuel - 1);
        ExecuteEnds(g, t.0.value, t.1, fuel - 1, rest);
        assert e == After([v], run.diags, rest);
        if rest.visits != [] {
          assert e.visits[|e.visits| - 1] == rest.visits[|rest.visits| - 1];
        }
      }
    }
  }

  /** A run reports exactly the diagnostics its stages raised, in the order they ran. */
  lemma {:induction false} ExecuteReportsStageDiagnostics(g: seq<StageNode>, cur: nat, a: Artifact, fuel: nat, e: Execution)
    requires ValidGraph(g) && cur < |g| && e == Execute(g, cur, a, fuel)
    ensures (forall k :: 0 <= k < |e.visits| ==> e.visits[k].stage < |g|) && e.diags == DiagsOf(g, e.visits)
    decreases fuel
  {
    ExecuteIsWalk(g, cur, a, fuel, e);
    if fuel > 0 {
      var v := Visit(cur, a);
      var run := g[cur].passes(a);
      if run.ok && Transition(g[cur], run.after).0.Some? {
        var t := Transition(g[cur], run.after);
        TransitionInGraph(g, cur, run.after);
        var rest := Execute(g, t.0.value, t.1, fuel - 1);
        ExecuteReportsStageDiagnostics(g, t.0.value, t.1, fuel - 1, rest);
        assert e == After([v], run.diags, rest);
        assert e.visits[1..] == rest.visits;
      } else {
        assert e.visits == [v] && e.visits[1..] == [];
      }
    }
  }

  /** A pipeline without jumps whose stages all succeed runs its stages once each, in order, and succeeds. */
  lemma {:induction false} LinearPipelineRunsInOrder(g: seq<StageNode>, cur: nat, a: Artifact, fuel: nat)
    requires ValidGraph(g) && cur < |g|
    requires forall i :: 0 <= i < |g| ==> g[i].jumps == [] && g[i].next == if i + 1 < |g| then Some(i + 1) else None
    requires forall i, x :: 0 <= i < |g| ==> g[i].passes(x).ok
    requires fuel >= |g| - cur
    ensures var e := Execute(g, cur, a, fuel);
            e.status == Succeeded && |e.visits| == |g| - cur &&
            forall k :: 0 <= k < |e.visits| ==> e.visits[k].stage == cur + k
    decreases |g| - cur
  {
    var run := g[cur].passes(a);
    assert Transition(g[cur], run.after) == (g[cur].next, run.after);
    if cur + 1 < |g| {
      LinearPipelineRunsInOrder(g, cur + 1, run.after, fuel - 1);
      var e := Execute(g, cur, a, fuel);
      var rest := Execute(g, cur + 1, run.after, fuel - 1);
      assert e.visits == [Visit(cur, a)] + rest.visits;
      forall k | 0 <= k < |e.visits|
        ensures e.visits[k].stage == cur + k
      {
        if k > 0 {
          assert e.visits[k] == rest.visits[k - 1];
        }
      }
    }
  }

  /**
   * In a pipeline without jumps, when stages `cur`..`k-1` succeed and stage
   * `k` fails, the run fails after running exactly stages `cur`..`k`: no
   * later stage runs.
   */
  lemma {:induction false} FailureStopsPipeline(g: seq<StageNode>, cur: nat, a: Artifact, fuel: nat, k: nat)
    requires ValidGraph(g) && cur <= k < |g|
    requires forall i :: 0 <= i < |g| ==> g[i].jumps == [] && g[i].next == if i + 1 < |g| then Some(i + 1) else None
    requires forall i, x :: cur <= i < k ==> g[i].passes(x).ok
    requires forall x :: !g[k].passes(x).ok
    requires fuel > k - cur
    ensures var e := Execute(g, cur, a, fuel);
            e.status == Failed && |e.visits| == k - cur + 1 &&
            forall j :: 0 <= j < |e.visits| ==> e.visits[j].stage == cur + j
    decreases k - cur
  {
    if cur < k {
      var run := g[cur].passes(a);
      assert Transition(g[cur], run.after) == (g[cur].next, run.after);
      FailureStopsPipeline(g, cur + 1, run.after, fuel - 1, k);
      var e := Execute(g, cur, a, fuel);
      var rest := Execute(g, cur + 1, run.after, fuel - 1);
      assert e.visits == [Visit(cur, a)] + rest.visits;
      forall j | 0 <= j < |e.visits|
        ensures e.visits[j].stage == cur + j
      {
        if j > 0 {
          assert e.visits[j] == rest.visits[j - 1];
        }
      }
    }
  }

  // ---------------------------------------------------------------------
  // Construction

  /** The name-to-stage map after the first `n` declarations: each name maps to the last stage declared under it. */
  ghost function NameIndex(decls: seq<StageDecl>, n: nat): map<string, nat>
    requires n <= |decls|
  {
    if n == 0 then map[] else NameIndex(decls, n - 1)[decls[n - 1].name := n - 1]
  }

  lemma NameIndexEmpty(decls: seq<StageDecl>, n: nat)
    requires n <= |decls|
    ensures NameIndex(decls, n) == map[] <==> n == 0
  {
    if n > 0 {
      assert decls[n - 1].name in NameIndex(decls, n);
    }
  }

  /** With unique names, the map holds exactly the names declared so far, each with the stage that declares it. */
  lemma {:induction false} NameIndexAt(decls: seq<StageDecl>, n: nat)
    requires n <= |decls| && UniqueNames(decls)
    ensures forall name :: name in NameIndex(decls, n) <==> exists k :: 0 <= k < n && decls[k].name == name
    ensures forall name :: name in NameIndex(decls, n) ==> NameIndex(decls, n)[name] < n && decls[NameIndex(decls, n)[name]].name == name
  {
    if n > 0 {
      NameIndexAt(decls, n - 1);
    }
  }

  /** Once every declaration is in, the map finds exactly the declared names, each at its stage. */
  lemma NameIndexFinds(decls: seq<StageDecl>)
    requires UniqueNames(decls)
    ensures forall name :: name in NameIndex(decls, |decls|) <==> Declared(decls, name)
    ensures forall name :: name in NameIndex(decls, |decls|) ==> NameIndex(decls, |decls|)[name] == StageIndex(decls, name)
  {
    var index := NameIndex(decls, |decls|);
    NameIndexAt(decls, |decls|);
    forall name | name in index
      ensures index[name] == StageIndex(decls, name)
    {
      var r := StageIndex(decls, name);
      assert decls[r].name == decls[index[name]].name;
    }
  }

  /**
   * One step of the first pass: a new stage after the existing ones, made
   * the successor of the last of them when `link` holds; no other stage changes.
   */
  method AddStage(temp: seq<Stage>, passes: PassPipeline, link: bool) returns (stage: Stage)
    requires link ==> |temp| > 0 && temp[|temp| - 1].next.None?
    requires forall k, l :: 0 <= k < l < |temp| ==> temp[k] != temp[l]
    modifies if link then {temp[|temp| - 1]} else {}
    ensures fresh(stage) && stage.passes == passes && stage.jumps == [] && stage.next == None
    ensures forall k :: 0 <= k < |temp| ==> temp[k].jumps == old(temp[k].jumps)
    ensures forall k :: 0 <= k < |temp| ==>
              temp[k].next == if link && k == |temp| - 1 then Some(|temp|) else old(temp[k].next)
  {
    var prev: Option<Stage> := if link then Some(temp[|temp| - 1]) else None;
    stage := new Stage(passes);
    if prev.Some? {
      prev.value.SetNextStage(|temp|);
    }
  }

  /**
   * The first pass of construction: one stage per declaration, in order,
   * each made the successor of the stage before it, and the name-to-stage
   * map the second pass looks jump names up in.
   */
  method CreateStages(decls: seq<StageDecl>) returns (temp: seq<Stage>, index: map<string, nat>)
    requires forall i :: 0 <= i < |decls| ==> decls[i].name != ""
    requires UniqueNames(decls)
    ensures |temp| == |decls|
    ensures forall k :: 0 <= k < |temp| ==> fresh(temp[k])
    ensures forall k, l :: 0 <= k < l < |temp| ==> temp[k] != temp[l]
    ensures forall k :: 0 <= k < |temp| ==>
              temp[k].passes == decls[k].passes && temp[k].jumps == [] &&
              temp[k].next == if k + 1 < |temp| then Some(k + 1) else None
    ensures forall name :: name in index <==> Declared(decls, name)
    ensures forall name :: name in index ==> index[name] == StageIndex(decls, name)
  {
    temp, index := [], map[];
    for i := 0 to |decls|
      invariant |temp| == i
      invariant forall k :: 0 <= k < i ==> fresh(temp[k])
      invariant forall k, l :: 0 <= k < l < i ==> temp[k] != temp[l]
      invariant forall k :: 0 <= k < i ==>
                  temp[k].passes == decls[k].passes && temp[k].jumps == [] &&
                  temp[k].next == if k + 1 < i then Some(k + 1) else None
      invariant index == NameIndex(decls, i)
    {
      NameIndexEmpty(decls, i);
      var stage := AddStage(temp, decls[i].passes, index != map[]);
      temp := temp + [stage];
      index := index[decls[i].name := i];
    }
    NameIndexFinds(decls);
  }

  /** Stage `i` of the built graph: its passes, its resolved jump names, the next stage in order. */
  lemma BuiltGraphAt(decls: seq<StageDecl>, i: nat)
    requires WellFormed(decls) && i < |decls|
    ensures forall k :: 0 <= k < |decls[i].jumps| ==> Declared(decls, decls[i].jumps[k])
    ensures BuiltGraph(decls)[i] ==
              StageNode(decls[i].passes, ResolveJumps(decls, decls[i].jumps),
                        if i + 1 < |decls| then Some(i + 1) else None)
  {
    forall k | 0 <= k < |decls[i].jumps|
      ensures Declared(decls, decls[i].jumps[k])
    {
      assert JumpResolves(decls, i, k);
    }
  }

  /** The jump-wiring loop for one stage: its jump names, in order, become edges. */
  method WireStage(decls: seq<StageDecl>, names: seq<string>, stage: Stage, index: map<string, nat>)
    requires forall k :: 0 <= k < |names| ==> names[k] != "" && Declared(decls, names[k])
    requires forall name :: name in index <==> Declared(decls, name)
    requires forall name :: name in index ==> index[name] == StageIndex(decls, name)
    requires stage.jumps == []
    modifies stage
    ensures stage.jumps == ResolveJumps(decls, names) && stage.next == old(stage.next)
  {
    for k := 0 to |names|
      invariant stage.jumps == ResolveJumps(decls, names[..k]) && stage.next == old(stage.next)
    {
      var target := index[names[k]];
      assert ResolveJumps(decls, names[..k + 1]) == ResolveJumps(decls, names[..k]) + [Jump(names[k], target)];
      stage.AddJump(names[k], target);
    }
    assert names[..|names|] == names;
  }

  /**
   * The second pass of construction: each stage's jump names, in order, are
   * looked up in the name map and become edges to the stages they name.
   */
  method WireJumps(decls: seq<StageDecl>, temp: seq<Stage>, index: map<string, nat>)
    requires WellFormed(decls) && |temp| == |decls|
    requires forall k, l :: 0 <= k < l < |temp| ==> temp[k] != temp[l]
    requires forall k :: 0 <= k < |temp| ==>
               temp[k].passes == decls[k].passes && temp[k].jumps == [] &&
               temp[k].next == if k + 1 < |temp| then Some(k + 1) else None
    requires forall name :: name in index <==> Declared(decls, name)
    requires forall name :: name in index ==> index[name] == StageIndex(decls, name)
    modifies temp
    ensures forall k :: 0 <= k < |temp| ==> temp[k].Node() == BuiltGraph(decls)[k]
  {
    for i := 0 to |decls|
      invariant forall k :: 0 <= k < |decls| ==>
                  temp[k].passes == decls[k].passes &&
                  temp[k].next == if k + 1 < |decls| then Some(k + 1) else None
      invariant forall k :: 0 <= k < i ==> temp[k].jumps == BuiltGraph(decls)[k].jumps
      invariant forall k :: i <= k < |decls| ==> temp[k].jumps == []
    {
      BuiltGraphAt(decls, i);
      forall k | 0 <= k < |decls[i].jumps|
        ensures decls[i].jumps[k] != ""
      {
        assert JumpResolves(decls, i, k);
      }
      WireStage(decls, decls[i].jumps, temp[i], index);
    }
    BuiltGraphShape(decls);
  }

  /** The stage graph, with its stages in declaration order. */
  class PassManagerSchedule {
    const stages: seq<Stage>

    ghost function Graph(): seq<StageNode>
      reads stages
    {
      seq(|stages|, i reads stages requires 0 <= i < |stages| => stages[i].Node())
    }

    ghost predicate Valid()
      reads stages
    {
      ValidGraph(Graph())
    }

    /**
     * Builds the graph: every declared stage is created in order and made
     * the successor of the one before it; once all exist, each stage's jump
     * names are looked up among the stage names and become its edges.
     */
    constructor (decls: seq<StageDecl>)
      requires WellFormed(decls)
      ensures Valid() && Graph() == BuiltGraph(decls)
      ensures forall i :: 0 <= i < |stages| ==> fresh(stages[i])
    {
      var temp, index := CreateStages(decls);
      WireJumps(decls, temp, index);
      stages := temp;
      new;
      BuiltGraphShape(decls);
      assert forall i :: 0 <= i < |stages| ==> Graph()[i] == BuiltGraph(decls)[i];
    }

    /**
     * `run`: from the first stage, run the current stage; stop with failure
     * if it fails; else take the first matching jump edge (removing only its
     * marker) or the successor; succeed when there is none. At most `fuel`
     * stages run.
     */
    method Run(op: ModuleOp, handler: DiagnosticHandler, fuel: nat) returns (status: RunStatus)
      requires Valid() && |stages| > 0
      modifies op, handler
      ensures var e := Execute(Graph(), 0, old(op.State()), fuel);
              status == e.status && op.State() == e.final &&
              handler.err == old(handler.err) + Captured(e.diags)
    {
      ghost var g := Graph();
      ghost var e0 := Execute(g, 0, op.State(), fuel);
      var current: nat := 0;
      var budget: nat := fuel;
      ghost var visits: seq<Visit> := [];
      ghost var emitted: seq<Diagnostic> := [];
      while true
        invariant Graph() == g && Resumes(g, e0, visits, emitted, current, op.State(), budget)
        invariant handler.err == old(handler.err) + Captured(emitted)
        decreases budget
      {
        ghost var input := op.State();
        if budget == 0 {
          ResumesOutOfFuel(g, e0, visits, emitted, current, input);
          return OutOfFuel;
        }
        ghost var run := RunPasses(g[current], input);
        ghost var err := handler.err;
        var ok, next := RunStage(current, op, handler);
        assert ok == run.ok && handler.err == err + Captured(run.diags);
        assert ok ==> (next, op.State()) == Transition(g[current], run.after);
        CapturedExtends(old(handler.err), emitted, run.diags);
        if !ok || next.None? {
          ResumesEnds(g, e0, visits, emitted, current, input, budget);
          return if ok then Succeeded else Failed;
        }
        ghost var before, raised, from, left := visits, emitted, current, budget;
        visits, emitted := visits + [Visit(current, input)], emitted + run.diags;
        current, budget := next.value, budget - 1;
        ResumesContinues(g, e0, before, raised, from, input, left, visits, emitted, current, op.State(), budget);
      }
    }

    /**
     * One turn of the loop in `run`: the current stage's passes rewrite the
     * module and raise their diagnostics in order; after a success the
     * marker-selected jump edge, or else the successor, is where control goes.
     */
    method RunStage(current: nat, op: ModuleOp, handler: DiagnosticHandler) returns (ok: bool, next: Option<nat>)
      requires Valid() && current < |stages|
      modifies op, handler
      ensures var run := RunPasses(Graph()[current], old(op.State()));
              ok == run.ok && handler.err == old(handler.err) + Captured(run.diags) &&
              (ok ==> (next, op.State()) == Transition(Graph()[current], run.after)) &&
              (!ok ==> op.State() == run.after)
    {
      var stage := stages[current];
      assert stage.Node() == Graph()[current];
      var run := stage.passes(op.State());
      op.ir, op.markers := run.after.ir, run.after.markers;
      handler.HandleAll(run.diags);
      ok, next := run.ok, None;
      if !ok {
        return;
      }
      var jump := GetJump(stage.jumps, op.markers);
      if jump.Some? {
        op.markers := Some(RemoveMarker(op.markers.value, jump.value.marker));
        next := Some(jump.value.target);
      } else {
        next := stage.next;
      }
    }
  }

  /** The schedule of a registry whose stages declare no jumps runs every stage once, in declaration order. */
  lemma LinearScheduleRunsInOrder(decls: seq<StageDecl>, a: Artifact, fuel: nat)
    requires WellFormed(decls) && |decls| > 0
    requires forall i :: 0 <= i < |decls| ==> decls[i].jumps == []
    requires forall i, x :: 0 <= i < |decls| ==> decls[i].passes(x).ok
    requires fuel >= |decls|
    ensures var e := Execute(BuiltGraph(decls), 0, a, fuel);
            e.status == Succeeded && |e.visits| == |decls| &&
            forall k :: 0 <= k < |decls| ==> e.visits[k].stage == k
  {
    BuiltGraphShape(decls);
    var g := BuiltGraph(decls);
    forall i | 0 <= i < |g|
      ensures g[i].jumps == []
    {
      assert |g[i].jumps| == |decls[i].jumps|;
    }
    LinearPipelineRunsInOrder(g, 0, a, fuel);
  }

  // A concrete pipeline: parse, optimize, emit, where optimize may jump back to parse.

  const KeepModule: PassPipeline := (a: Artifact) => StageRun(true, a, [])

  /** Optimises an untouched module once, asking for parse to run again. */
  const OptimizeOnce: PassPipeline :=
    (a: Artifact) => if a.ir == "" then StageRun(true, Artifact("optimized", Some(["parse"])), [])
         else StageRun(true, a, [])

  const LoopBackPipeline: seq<StageDecl> :=
    [StageDecl("parse", [], KeepModule), StageDecl("optimize", ["parse"], OptimizeOnce), StageDecl("emit", [], KeepModule)]

  /** The three stages in a row, with optimize's one edge back to parse. */
  const LoopBackStages: seq<StageNode> :=
    [StageNode(KeepModule, [], Some(1)), StageNode(OptimizeOnce, [Jump("parse", 0)], Some(2)), StageNode(KeepModule, [], None)]

  /** Construction accepts the declarations and builds exactly that graph. */
  lemma LoopBackPipelineBuildsLoopBackStages()
    ensures WellFormed(LoopBackPipeline) && BuiltGraph(LoopBackPipeline) == LoopBackStages
  {
    var d := LoopBackPipeline;
    assert Declared(d, "parse") by { assert d[0].name == "parse"; }
    assert WellFormed(d);
    BuiltGraphShape(d);
    assert StageIndex(d, "parse") == 0;
    assert ResolveJumps(d, ["parse"]) == [Jump("parse", 0)];
    BuiltGraphAt(d, 0);
    BuiltGraphAt(d, 1);
    BuiltGraphAt(d, 2);
  }

  lemma LoopBackStagesRun()
    ensures ValidGraph(LoopBackStages)
    ensures var e := Execute(LoopBackStages, 0, Artifact("", None), 5);
            e.status == Succeeded && e.final == Artifact("optimized", Some([])) &&
            |e.visits| == 5 &&
            e.visits[0].stage == 0 && e.visits[1].stage == 1 && e.visits[2].stage == 0 &&
            e.visits[3].stage == 1 && e.visits[4].stage == 2
  {
    var g := LoopBackStages;
    var a0 := Artifact("", None);
    var a1 := Artifact("optimized", Some(["parse"]));
    var a2 := Artifact("optimized", Some([]));
    assert RemoveMarker(["parse"], "parse") == [];
    assert GetJump(g[1].jumps, a1.markers) == Some(Jump("parse", 0));
    assert Transition(g[1], a1) == (Some(0), a2);
    assert GetJump(g[1].jumps, a2.markers) == None;
    assert Transition(g[1], a2) == (Some(2), a2);
    var e4 := Execute(g, 2, a2, 1);
    assert e4.visits == [Visit(2, a2)] && e4.status == Succeeded && e4.final == a2;
    var e3 := Execute(g, 1, a2, 2);
    assert e3 == After([Visit(1, a2)], [], e4);
    var e2 := Execute(g, 0, a2, 3);
    assert e2 == After([Visit(0, a2)], [], e3);
    var e1 := Execute(g, 1, a0, 4);
    assert e1 == After([Visit(1, a0)], [], e2);
    var e0 := Execute(g, 0, a0, 5);
    assert e0 == After([Visit(0, a0)], [], e1);
  }

  /**
   * The marker optimize attaches sends control back to parse once and is
   * removed; the stages run parse, optimize, parse, optimize, emit.
   */
  lemma LoopBackRunsOptimizeTwice()
    ensures WellFormed(LoopBackPipeline)
    ensures var e := Execute(BuiltGraph(LoopBackPipeline), 0, Artifact("", None), 5);
            e.status == Succeeded && e.final == Artifact("optimized", Some([])) &&
            |e.visits| == 5 &&
            e.visits[0].stage == 0 && e.visits[1].stage == 1 && e.visits[2].stage == 0 &&
            e.visits[3].stage == 1 && e.visits[4].stage == 2
  {
    LoopBackPipelineBuildsLoopBackStages();
    LoopBackStagesRun();
  }
}
