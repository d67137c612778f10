/**
 The progress steps of an installation, for every way it can go: which steps are
 begun, with which weights and substeps, and how they end.
 */
module InstallSteps {
  import opened Progress
  import opened ProgressRuns

  function Leaf0(name: string, weight: int, percents: seq<int>, success: bool): Tree {
    Tree(name, weight, 0, percents, [], success)
  }

  // ---- one plan -----------------------------------------------------------------------

  /** How handling one plan goes; the percentages are those of copying the image. */
  datatype PlanOutcome =
    | SlotStillMounted
    | SlotSkipped
    | SlotSkippedNotSaved
    | SlotPendingNotSaved
    | SlotCopyFailed(percents: seq<int>)
    | SlotWritten(percents: seq<int>)
    | SlotWrittenNotSaved(percents: seq<int>)
    | ArtifactCheckFailed
    | ArtifactCopyFailed(percents: seq<int>)
    | ArtifactInstalled(percents: seq<int>)
    | ArtifactReused

  predicate Succeeded(o: PlanOutcome) {
    o.SlotSkipped? || o.SlotWritten? || o.ArtifactInstalled? || o.ArtifactReused?
  }

  function PlanSteps(o: PlanOutcome): seq<Tree> {
    match o
    case SlotStillMounted => [Leaf0("check_slot", 1, [], false)]
    case SlotSkipped => [Leaf0("check_slot", 1, [], true), Leaf0("skip_image", 9, [], true)]
    case SlotSkippedNotSaved => [Leaf0("check_slot", 1, [], true), Leaf0("skip_image", 9, [], false)]
    case SlotPendingNotSaved => [Leaf0("check_slot", 1, [], false)]
    case SlotCopyFailed(ps) => [Leaf0("check_slot", 1, [], true), Leaf0("copy_image", 9, ps, false)]
    case SlotWritten(ps) => [Leaf0("check_slot", 1, [], true), Leaf0("copy_image", 9, ps, true)]
    case SlotWrittenNotSaved(ps) => [Leaf0("check_slot", 1, [], true), Leaf0("copy_image", 9, ps, true)]
    case ArtifactCheckFailed => [Leaf0("check_repo", 1, [], false)]
    case ArtifactCopyFailed(ps) => [Leaf0("check_repo", 1, [], true), Leaf0("copy_image", 9, ps, false)]
    case ArtifactInstalled(ps) => [Leaf0("check_repo", 1, [], true), Leaf0("copy_image", 9, ps, true)]
    case ArtifactReused => [Leaf0("check_repo", 1, [], true), Leaf0("copy_image", 9, [], true)]
  }

  function Percents(o: PlanOutcome): seq<int> {
    match o
    case SlotCopyFailed(ps) => ps
    case SlotWritten(ps) => ps
    case SlotWrittenNotSaved(ps) => ps
    case ArtifactCopyFailed(ps) => ps
    case ArtifactInstalled(ps) => ps
    case _ => []
  }

  /** Percentages of a copy are between 0 and 100. */
  ghost predicate Plausible(o: PlanOutcome) {
    forall i :: 0 <= i < |Percents(o)| ==> 0 <= Percents(o)[i] <= 100
  }

  // ---- the loop over the plans -----------------------------------------------------------

  /** The loop ends with the first plan that fails. */
  function LoopSteps(os: seq<PlanOutcome>): seq<Tree> {
    if os == [] then []
    else if Succeeded(os[0]) then PlanSteps(os[0]) + LoopSteps(os[1..])
    else PlanSteps(os[0])
  }

  predicate AllSucceeded(os: seq<PlanOutcome>) {
    forall i :: 0 <= i < |os| ==> Succeeded(os[i])
  }

  /** How the default handler goes. */
  datatype HandlerOutcome =
    | NotStarted                                 // planning, checking or marking bad failed
    | Looped(plans: seq<PlanOutcome>, pruned: bool)
    | Custom(success: bool)                      // a bundle handler in place of the default one

  /** The single step of the handler, closed in the end. */
  function HandlerSteps(h: HandlerOutcome): seq<Tree> {
    match h
    case NotStarted => []
    case Looped(os, _) => [Tree("update_slots", 6, |os| * 10, [], LoopSteps(os), AllSucceeded(os))]
    case Custom(success) => [Leaf0("launch_and_wait_custom_handler", 6, [], success)]
  }

  /** The one way out that leaves its step open: all plans succeed, and then pruning fails. */
  predicate LeavesStepOpen(h: HandlerOutcome) {
    h.Looped? && AllSucceeded(h.plans) && !h.pruned
  }

  predicate HandlerOk(h: HandlerOutcome) {
    match h
    case NotStarted => false
    case Looped(os, pruned) => AllSucceeded(os) && pruned
    case Custom(success) => success
  }

  // ---- the whole installation --------------------------------------------------------------

  datatype BundleOutcome = BundleOk | BundleUnreadable | SignatureBad | BundleRefused

  function BundleSteps(b: BundleOutcome): Tree {
    Tree("check_bundle", 1, 1, [],
         if b.BundleUnreadable? then [] else [Leaf0("cms_verify", 1, [], !b.SignatureBad?)],
         b.BundleOk?)
  }

  datatype MountOutcome = Mounted | MountFailed | ManifestBad | MountFailedLate

  function MountSteps(m: MountOutcome): seq<Tree> {
    if m.MountFailed? then [] else [Leaf0("check_manifest", 1, [], !m.ManifestBad?)]
  }

  /**
   `accepted`: the handlers, hooks and compatibility checks before the handler pass; `after`:
   everything after it does.
   */
  datatype Script = Script(states: bool, bundle: BundleOutcome, cryptOk: bool, mount: MountOutcome,
                           accepted: bool, handler: HandlerOutcome, after: bool)

  function States(s: Script): Tree { Leaf0("determine_slot_states", 1, [], s.states) }

  const TARGETS := Leaf0("determine_target_install_group", 1, [], true)

  /** The steps under the root, up to the point where the script fails. */
  function RootSteps(s: Script): seq<Tree> {
    if !s.states then [States(s)]
    else if !s.bundle.BundleOk? || !s.cryptOk then [States(s), BundleSteps(s.bundle)]
    else if !s.mount.Mounted? then [States(s), BundleSteps(s.bundle)] + MountSteps(s.mount)
    else
      [States(s), BundleSteps(s.bundle)] + MountSteps(s.mount) + [TARGETS]
      + if s.accepted then HandlerSteps(s.handler) else []
  }

  predicate ScriptOk(s: Script) {
    s.states && s.bundle.BundleOk? && s.cryptOk && s.mount.Mounted? && s.accepted && HandlerOk(s.handler) && s.after
  }

  function InstallTree(s: Script): Tree {
    Tree("do_install_bundle", 1, 10, [], RootSteps(s), ScriptOk(s))
  }

  predicate Reaches(s: Script) {
    s.states && s.bundle.BundleOk? && s.cryptOk && s.mount.Mounted? && s.accepted
  }

  ghost predicate PlausibleScript(s: Script) {
    s.handler.Looped? ==> forall i :: 0 <= i < |s.handler.plans| ==> Plausible(s.handler.plans[i])
  }

  // ---- weights ------------------------------------------------------------------------------

  lemma {:induction false} WeightsConcat(a: seq<Tree>, b: seq<Tree>)
    ensures Weights(a + b) == Weights(a) + Weights(b)
    decreases a
  {
    if a == [] {
      assert a + b == b;
    } else {
      assert (a + b)[1..] == a[1..] + b;
      WeightsConcat(a[1..], b);
    }
  }

  lemma LeafNested(name: string, weight: int, percents: seq<int>, success: bool)
    requires weight >= 1 && forall i :: 0 <= i < |percents| ==> 0 <= percents[i] <= 100
    ensures WellNested(Leaf0(name, weight, percents, success))
  {
  }

  lemma SingleStep(t: Tree)
    requires WellNested(t)
    ensures AllNested([t]) && Weights([t]) == t.weight
  {
    assert [t][1..] == [];
  }

  lemma TwoSteps(t: Tree, u: Tree)
    requires WellNested(t) && WellNested(u)
    ensures AllNested([t, u]) && Weights([t, u]) == t.weight + u.weight
  {
    assert [t, u][1..] == [u];
    SingleStep(u);
  }

  lemma PlanStepsNested(o: PlanOutcome)
    requires Plausible(o)
    ensures AllNested(PlanSteps(o)) && 1 <= Weights(PlanSteps(o)) <= 10
    ensures Succeeded(o) ==> Weights(PlanSteps(o)) == 10
  {
    var ts := PlanSteps(o);
    forall i | 0 <= i < |ts| ensures WellNested(ts[i]) {
      assert ts[i].percents == [] || ts[i].percents == Percents(o);
      LeafNested(ts[i].name, ts[i].weight, ts[i].percents, ts[i].success);
    }
    if |ts| == 1 {
      SingleStep(ts[0]);
      assert ts == [ts[0]];
    } else {
      TwoSteps(ts[0], ts[1]);
      assert ts == [ts[0], ts[1]];
    }
  }

  /** Inside update_slots: never more than ten for each plan, and exactly that if all succeed. */
  lemma {:induction false} LoopStepsNested(os: seq<PlanOutcome>)
    requires forall i :: 0 <= i < |os| ==> Plausible(os[i])
    ensures AllNested(LoopSteps(os)) && 0 <= Weights(LoopSteps(os)) <= |os| * 10
    ensures AllSucceeded(os) ==> Weights(LoopSteps(os)) == |os| * 10
    decreases os
  {
    if os != [] {
      PlanStepsNested(os[0]);
      LoopStepsNested(os[1..]);
      WeightsConcat(PlanSteps(os[0]), LoopSteps(os[1..]));
    }
  }

  lemma HandlerStepsNested(h: HandlerOutcome)
    requires h.Looped? ==> forall i :: 0 <= i < |h.plans| ==> Plausible(h.plans[i])
    ensures AllNested(HandlerSteps(h)) && 0 <= Weights(HandlerSteps(h)) <= 6
    ensures HandlerOk(h) ==> Weights(HandlerSteps(h)) == 6
  {
    if h.Looped? {
      LoopStepsNested(h.plans);
    }
  }

  lemma BundleStepsNested(b: BundleOutcome)
    ensures WellNested(BundleSteps(b))
  {
    if !b.BundleUnreadable? {
      LeafNested("cms_verify", 1, [], !b.SignatureBad?);
      SingleStep(Leaf0("cms_verify", 1, [], !b.SignatureBad?));
    }
  }

  lemma MountStepsNested(m: MountOutcome)
    ensures AllNested(MountSteps(m)) && Weights(MountSteps(m)) == if m.MountFailed? then 0 else 1
  {
    if !m.MountFailed? {
      LeafNested("check_manifest", 1, [], !m.ManifestBad?);
      SingleStep(Leaf0("check_manifest", 1, [], !m.ManifestBad?));
    }
  }

  /** The steps before the handler, up to any of them. */
  function Front(s: Script, mounted: bool, chosen: bool): seq<Tree> {
    [States(s), BundleSteps(s.bundle)] + (if mounted then MountSteps(s.mount) else [])
    + if chosen then [TARGETS] else []
  }

  lemma FrontNested(s: Script, mounted: bool, chosen: bool)
    ensures AllNested(Front(s, mounted, chosen)) && 2 <= Weights(Front(s, mounted, chosen)) <= 4
    ensures mounted && chosen && !s.mount.MountFailed? ==> Weights(Front(s, mounted, chosen)) == 4
  {
    LeafNested("determine_slot_states", 1, [], s.states);
    BundleStepsNested(s.bundle);
    TwoSteps(States(s), BundleSteps(s.bundle));
    MountStepsNested(s.mount);
    LeafNested("determine_target_install_group", 1, [], true);
    SingleStep(TARGETS);
    var two := [States(s), BundleSteps(s.bundle)];
    var m := if mounted then MountSteps(s.mount) else [];
    var t := if chosen then [TARGETS] else [];
    WeightsConcat(two, m);
    WeightsConcat(two + m, t);
  }

  lemma RootStepsNested(s: Script)
    requires PlausibleScript(s)
    ensures AllNested(RootSteps(s)) && 0 <= Weights(RootSteps(s)) <= 10
    ensures ScriptOk(s) ==> Weights(RootSteps(s)) == 10
  {
    var mounted := s.bundle.BundleOk? && s.cryptOk;
    var chosen := mounted && s.mount.Mounted?;
    FrontNested(s, mounted, chosen);
    HandlerStepsNested(s.handler);
    if !s.states {
      LeafNested("determine_slot_states", 1, [], s.states);
      SingleStep(States(s));
    } else {
      var tail := if chosen && s.accepted then HandlerSteps(s.handler) else [];
      WeightsConcat(Front(s, mounted, chosen), tail);
      assert RootSteps(s) == Front(s, mounted, chosen) + tail;
    }
  }

  /** At the root: never more than ten, and exactly ten if the installation succeeds. */
  lemma InstallTreeNested(s: Script)
    requires PlausibleScript(s)
    ensures WellNested(InstallTree(s))
    ensures ScriptOk(s) ==> Weights(RootSteps(s)) == 10
  {
    RootStepsNested(s);
  }

  /** The steps below the root: which of them there are tells how far the installation came. */
  lemma RootStepsShown(s: Script)
    ensures var ts := RootSteps(s);
            && |ts| == (if !s.states then 1
                        else if !s.bundle.BundleOk? || !s.cryptOk || s.mount.MountFailed? then 2
                        else if !s.mount.Mounted? then 3
                        else if !s.accepted || s.handler.NotStarted? then 4
                        else 5)
            && ts[0] == Tree("determine_slot_states", 1, 0, [], [], s.states)
            && (|ts| > 1 ==> && ts[1].name == "check_bundle" && ts[1].weight == 1 && ts[1].success == s.bundle.BundleOk?
                             && ts[1].children == if s.bundle.BundleUnreadable? then []
                                                  else [Tree("cms_verify", 1, 0, [], [], !s.bundle.SignatureBad?)])
            && (|ts| > 2 ==> ts[2] == Tree("check_manifest", 1, 0, [], [], !s.mount.ManifestBad?))
            && (|ts| > 3 ==> ts[3] == Tree("determine_target_install_group", 1, 0, [], [], true))
            && (|ts| > 4 ==> ts[4].weight == 6 && (LeavesStepOpen(s.handler) || ts[4].success == HandlerOk(s.handler))
                             && ts[4].name == if s.handler.Custom? then "launch_and_wait_custom_handler" else "update_slots")
  {
  }

  // ---- results ------------------------------------------------------------------------------

  /** The stack inside update_slots after the loop. */
  function AfterLoop(s: Script): Run
    requires s.handler.Looped?
  {
    match RunForest(Root(InstallTree(s)), Front(s, true, true))
    case Aborted => Aborted
    case Done(s1, rs1) =>
      match BeginStep(s1, "update_slots", |s.handler.plans| * 10, 6)
      case Abort => Aborted
      case Next(s2, r2) =>
        match RunForest(s2, LoopSteps(s.handler.plans))
        case Aborted => Aborted
        case Done(s3, rs3) => Done(s3, rs1 + Log(r2) + rs3)
  }

  /** The whole installation; if pruning fails the handler returns without ending update_slots. */
  function InstallRun(s: Script): Run {
    if Reaches(s) && LeavesStepOpen(s.handler) then
      match AfterLoop(s)
      case Aborted => Aborted
      case Done(s1, rs1) =>
        match EndStep(s1, "do_install_bundle", false)
        case Abort => Aborted
        case Next(s2, r2) => Done(s2, rs1 + Log(r2))
    else
      RunTree([], InstallTree(s))
  }

  /**
   When pruning fails after all plans, the end of the root step aborts: its name is not
   the name of the innermost open step.
   */
  lemma PruneFailureAborts(s: Script)
    requires PlausibleScript(s) && Reaches(s) && LeavesStepOpen(s.handler)
    ensures AfterLoop(s).Done? && EndStep(AfterLoop(s).stack, "do_install_bundle", false).Abort?
  {
    var root := Root(InstallTree(s));
    var front := Front(s, true, true);
    RootOpen(InstallTree(s));
    FrontNested(s, true, true);
    ForestRuns(root, front);
    CreditedOpen(root, Weights(front));
    var s1 := Credited(root, Weights(front));
    var os := s.handler.plans;
    LoopStepsNested(os);
    var t := HandlerSteps(s.handler)[0];
    BeginRun(s1, t);
    if os != [] {
      ForestRuns(Begun(s1, t), LoopSteps(os));
      assert AfterLoop(s).stack[0].name == "update_slots";
    } else {
      assert LoopSteps(os) == [];
      assert AfterLoop(s).stack[0].name == "update_slots";
    }
    assert "update_slots"[0] == 'u' && "do_install_bundle"[0] == 'd';
  }

  /**
   An installation passes every nesting, count and percentage check, closes all its steps,
   ends with a report of 100 and never reports less than before (if no copy does), unless
   it reaches the one way out that leaves a step open; then it always aborts.
   */
  lemma InstallRuns(s: Script)
    requires PlausibleScript(s)
    ensures var r := InstallRun(s);
            && (r.Done? <==> !(Reaches(s) && LeavesStepOpen(s.handler)))
            && (r.Done? ==> r.stack == [] && Within(r.reports, 0.0, 100.0)
                            && r.reports != [] && r.reports[|r.reports| - 1] == 100.0
                            && (Forward(InstallTree(s)) ==> Rising(r.reports)))
  {
    if Reaches(s) && LeavesStepOpen(s.handler) {
      PruneFailureAborts(s);
    } else {
      InstallTreeNested(s);
      RootRuns(InstallTree(s));
    }
  }
}
