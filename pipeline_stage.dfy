/**
 * One stage of the staged pass pipeline (`PassManagerStage` in
 * dpcomp/src/compiler/compiler.cpp): its jump edges, its successor, the
 * jump lookup against the module's markers, and the pass-name matcher used
 * for selective IR printing.
 */
module PipelineStage {
  import opened Wrappers
  import opened Diagnostics

  /**
   * What the scheduler sees of the module being compiled: its printed form
   * and its pipeline jump markers (None when the module has no such attribute).
   */
  datatype Artifact = Artifact(ir: string, markers: Option<seq<string>>)

  /** The outcome of running the pass manager of one stage. */
  datatype StageRun = StageRun(ok: bool, after: Artifact, diags: seq<Diagnostic>)

  /** The passes a stage runs, taken as a whole: the stage's pass manager. */
  type PassPipeline = Artifact -> StageRun

  /** A jump edge: when `marker` is on the module, go to stage `target`. */
  datatype Jump = Jump(marker: string, target: nat)

  /** A stage as a value: its passes, jump edges in registration order, and successor. */
  datatype StageNode = StageNode(passes: PassPipeline, jumps: seq<Jump>, next: Option<nat>)

  /** The index of the first edge, in registration order, whose marker is among `names`. */
  function FirstMatch(jumps: seq<Jump>, names: seq<string>): (r: Option<nat>)
    ensures r.Some? ==> r.value < |jumps| && jumps[r.value].marker in names
    ensures r.Some? ==> forall e :: 0 <= e < r.value ==> jumps[e].marker !in names
    ensures r.None? <==> forall e :: 0 <= e < |jumps| ==> jumps[e].marker !in names
  {
    if jumps == [] then None
    else if jumps[0].marker in names then Some(0)
    else
      match FirstMatch(jumps[1..], names)
      case None => None
      case Some(e) => Some(e + 1)
  }

  /**
   * `get_jump`: the first registered edge whose marker appears anywhere in
   * `names`; nothing when the markers are absent or no edge matches.
   * Edge registration order decides, not the order of the markers.
   */
  function GetJump(jumps: seq<Jump>, names: Option<seq<string>>): (r: Option<Jump>)
    ensures r.None? <==> names.None? || forall e :: 0 <= e < |jumps| ==> jumps[e].marker !in names.value
    ensures r.Some? ==> exists e :: 0 <= e < |jumps| && jumps[e] == r.value &&
                                   jumps[e].marker in names.value &&
                                   forall e' :: 0 <= e' < e ==> jumps[e'].marker !in names.value
  {
    match names
    case None => None
    case Some(ns) =>
      match FirstMatch(jumps, ns)
      case None => None
      case Some(e) => Some(jumps[e])
  }

  /** The module's markers once the jump marker `name` has been removed. */
  function RemoveMarker(markers: seq<string>, name: string): (r: seq<string>)
    ensures name !in r
    ensures forall m :: m != name ==> multiset(r)[m] == multiset(markers)[m]
    ensures |r| <= |markers|
  {
    if markers == [] then []
    else
      assert markers == [markers[0]] + markers[1..];
      (if markers[0] == name then [] else [markers[0]]) + RemoveMarker(markers[1..], name)
  }

  /** What running `node`'s passes on `a` gives. */
  function RunPasses(node: StageNode, a: Artifact): StageRun
  {
    node.passes(a)
  }

  /**
   * What follows a successful run of `node` that left the module as `a`:
   * a matching jump edge is taken and its marker removed, otherwise the
   * successor (None: the pipeline is finished).
   */
  function Transition(node: StageNode, a: Artifact): (r: (Option<nat>, Artifact))
    ensures r.1.ir == a.ir
    ensures (a.markers.None? || forall e :: 0 <= e < |node.jumps| ==> node.jumps[e].marker !in a.markers.value) ==>
            r == (node.next, a)
    ensures r == (node.next, a) ||
            exists e :: 0 <= e < |node.jumps| && a.markers.Some? && node.jumps[e].marker in a.markers.value &&
                        r == (Some(node.jumps[e].target), a.(markers := Some(RemoveMarker(a.markers.value, node.jumps[e].marker))))
  {
    match GetJump(node.jumps, a.markers)
    case Some(j) => (Some(j.target), a.(markers := Some(RemoveMarker(a.markers.value, j.marker))))
    case None => (node.next, a)
  }

  /**
   * When some edge's marker is on the module, control moves to the first such
   * edge's target, that marker goes, and every other marker stays.
   */
  lemma TransitionTakesFirstEdge(node: StageNode, a: Artifact, e: nat)
    requires a.markers.Some? && e < |node.jumps| && node.jumps[e].marker in a.markers.value
    requires forall e' :: 0 <= e' < e ==> node.jumps[e'].marker !in a.markers.value
    ensures Transition(node, a).0 == Some(node.jumps[e].target)
    ensures var after := Transition(node, a).1;
            after.ir == a.ir && after.markers.Some? &&
            node.jumps[e].marker !in after.markers.value &&
            forall m :: m != node.jumps[e].marker ==>
              multiset(after.markers.value)[m] == multiset(a.markers.value)[m]
  {
    var j := GetJump(node.jumps, a.markers);
    var e0 :| 0 <= e0 < |node.jumps| && node.jumps[e0] == j.value &&
              node.jumps[e0].marker in a.markers.value &&
              forall e' :: 0 <= e' < e0 ==> node.jumps[e'].marker !in a.markers.value;
    assert e0 == e;
  }

  /**
   * When no edge's marker is on the module, control moves to the successor
   * and the module, unrecognised markers included, is left as it is.
   */
  lemma TransitionFollowsSuccessor(node: StageNode, a: Artifact)
    requires a.markers.None? || forall e :: 0 <= e < |node.jumps| ==> node.jumps[e].marker !in a.markers.value
    ensures Transition(node, a) == (node.next, a)
  {
  }

  /** With edges for "A" then "B" and markers "B", "A", the edge for "A" is taken. */
  lemma EdgeOrderBeatsMarkerOrder(x: nat, y: nat)
    ensures GetJump([Jump("A", x), Jump("B", y)], Some(["B", "A"])) == Some(Jump("A", x))
  {
    assert "A" in ["B", "A"];
  }

  /** The MSVC spelling of an anonymous-namespace qualification. */
  const MsvcAnonymousPrefix: string := "`anonymous-namespace'::"
  /** The GCC spelling of an anonymous-namespace qualification. */
  const GccAnonymousPrefix: string := "{anonymous}::"

  /** `StringRef::consume_front`: drop `prefix` from the front of `s` when it is there. */
  function ConsumeFront(s: string, prefix: string): (r: string)
    ensures prefix <= s ==> s == prefix + r
    ensures !(prefix <= s) ==> r == s
  {
    if prefix <= s then s[|prefix|..] else s
  }

  /**
   * The IR-printing filter: strip the MSVC, then the GCC anonymous-namespace
   * prefix from the pass name and test membership in `names`.
   */
  function Checker(names: seq<string>, passName: string): (r: bool)
    ensures r ==> exists p :: p in names &&
                    (passName == p || passName == MsvcAnonymousPrefix + p ||
                     passName == GccAnonymousPrefix + p || passName == MsvcAnonymousPrefix + GccAnonymousPrefix + p)
  {
    var bare := ConsumeFront(passName, MsvcAnonymousPrefix);
    var p := ConsumeFront(bare, GccAnonymousPrefix);
    assert passName == p || passName == MsvcAnonymousPrefix + p ||
           passName == GccAnonymousPrefix + p || passName == MsvcAnonymousPrefix + GccAnonymousPrefix + p;
    p in names
  }

  /**
   * A pass declared in an anonymous namespace is selected by its bare name,
   * whichever compiler spelled the qualification, exactly when that bare
   * name is listed.
   */
  lemma CheckerIgnoresAnonymousNamespace(names: seq<string>, p: string)
    requires !(MsvcAnonymousPrefix <= p) && !(GccAnonymousPrefix <= p)
    ensures Checker(names, p) == (p in names)
    ensures Checker(names, MsvcAnonymousPrefix + p) == (p in names)
    ensures Checker(names, GccAnonymousPrefix + p) == (p in names)
    ensures Checker(names, MsvcAnonymousPrefix + GccAnonymousPrefix + p) == (p in names)
  {
    assert !(MsvcAnonymousPrefix <= GccAnonymousPrefix + p) by {
      assert (GccAnonymousPrefix + p)[0] == '{';
    }
    assert !(GccAnonymousPrefix <= MsvcAnonymousPrefix + p) by {
      assert (MsvcAnonymousPrefix + p)[0] == '`';
    }
    assert (MsvcAnonymousPrefix + p)[|MsvcAnonymousPrefix|..] == p;
    assert (GccAnonymousPrefix + p)[|GccAnonymousPrefix|..] == p;
    assert MsvcAnonymousPrefix <= MsvcAnonymousPrefix + GccAnonymousPrefix + p;
    assert (MsvcAnonymousPrefix + GccAnonymousPrefix + p)[|MsvcAnonymousPrefix|..] == GccAnonymousPrefix + p;
  }

  /** The module under transformation; the pipeline changes it in place. */
  class ModuleOp {
    var ir: string
    var markers: Option<seq<string>>

    constructor (ir: string, markers: Option<seq<string>>)
      ensures this.ir == ir && this.markers == markers
    {
      this.ir := ir;
      this.markers := markers;
    }

    function State(): Artifact
      reads this
    {
      Artifact(ir, markers)
    }
  }

  /**
   * A stage: its pass manager, its jump edges and its successor. Stages
   * refer to each other by index into the schedule.
   */
  class Stage {
    const passes: PassPipeline
    var jumps: seq<Jump>
    var next: Option<nat>

    constructor (passes: PassPipeline)
      ensures this.passes == passes && jumps == [] && next == None
    {
      this.passes := passes;
      jumps := [];
      next := None;
    }

    /** `add_jump`: register one more edge after the existing ones. */
    method AddJump(marker: string, target: nat)
      requires marker != ""
      modifies this
      ensures jumps == old(jumps) + [Jump(marker, target)]
      ensures next == old(next)
    {
      jumps := jumps + [Jump(marker, target)];
    }

    /** `set_next_stage`: the successor may be set once only. */
    method SetNextStage(stage: nat)
      requires next.None?
      modifies this
      ensures next == Some(stage)
      ensures jumps == old(jumps)
    {
      next := Some(stage);
    }

    function Node(): StageNode
      reads this
    {
      StageNode(passes, jumps, next)
    }
  }
}
