/**
 The calls of progress steps that an installation makes, emitted by its control flow:
 every place where it can fail is an input. What is emitted are the steps that
 InstallSteps tabulates for the outcome, and performing them is the run of that table.
 */
module InstallTrace {
  import opened Progress
  import opened ProgressRuns
  import opened InstallSteps

  datatype Call = BeginCall(name: string, substeps: int, weight: int)
                | PercentCall(name: string, percent: int)
                | EndCall(name: string, success: bool)

  // ---- calls of a table, and performing them -----------------------------------------------------

  function PercentCalls(name: string, percents: seq<int>): seq<Call> {
    if percents == [] then [] else [PercentCall(name, percents[0])] + PercentCalls(name, percents[1..])
  }

  function CallsOf(t: Tree): seq<Call>
    decreases t
  {
    [BeginCall(t.name, t.substeps, t.weight)] + PercentCalls(t.name, t.percents)
    + CallsOfAll(t.children) + [EndCall(t.name, t.success)]
  }

  function CallsOfAll(ts: seq<Tree>): seq<Call>
    decreases ts
  {
    if ts == [] then [] else CallsOf(ts[0]) + CallsOfAll(ts[1..])
  }

  function PerformOne(stack: Stack, call: Call): Outcome {
    match call
    case BeginCall(name, substeps, weight) => BeginStep(stack, name, substeps, weight)
    case PercentCall(name, percent) => SetStepPercentage(stack, name, percent)
    case EndCall(name, success) => EndStep(stack, name, success)
  }

  function Perform(stack: Stack, calls: seq<Call>): Run
    decreases |calls|
  {
    if calls == [] then Done(stack, [])
    else match PerformOne(stack, calls[0])
      case Abort => Aborted
      case Next(s, r) => Prepend(Log(r), Perform(s, calls[1..]))
  }

  function Prepend(rs: seq<real>, run: Run): Run {
    match run case Aborted => Aborted case Done(s, rs') => Done(s, rs + rs')
  }

  /** A run, and then what follows it. */
  function Then(run: Run, calls: seq<Call>): Run {
    match run case Aborted => Aborted case Done(s, rs) => Prepend(rs, Perform(s, calls))
  }

  lemma {:induction false} PerformConcat(stack: Stack, a: seq<Call>, b: seq<Call>)
    ensures Perform(stack, a + b) == Then(Perform(stack, a), b)
    decreases |a|
  {
    if a == [] {
      assert a + b == b;
      assert Prepend([], Perform(stack, b)) == Perform(stack, b);
    } else {
      assert (a + b)[0] == a[0] && (a + b)[1..] == a[1..] + b;
      var r := PerformOne(stack, a[0]);
      if r.Next? {
        PerformConcat(r.stack, a[1..], b);
        PrependThen(Log(r.report), Perform(r.stack, a[1..]), b);
      }
    }
  }

  lemma PrependThen(rs: seq<real>, run: Run, calls: seq<Call>)
    ensures Then(Prepend(rs, run), calls) == Prepend(rs, Then(run, calls))
  {
    if run.Done? {
      var next := Perform(run.stack, calls);
      if next.Done? {
        assert rs + run.reports + next.reports == rs + (run.reports + next.reports);
      }
    }
  }

  lemma {:induction false} PerformPercents(stack: Stack, name: string, percents: seq<int>)
    ensures Perform(stack, PercentCalls(name, percents)) == RunPercents(stack, name, percents)
    decreases |percents|
  {
    if percents != [] {
      var calls := PercentCalls(name, percents);
      assert calls[0] == PercentCall(name, percents[0]) && calls[1..] == PercentCalls(name, percents[1..]);
      var r := SetStepPercentage(stack, name, percents[0]);
      if r.Next? {
        PerformPercents(r.stack, name, percents[1..]);
      }
    }
  }

  lemma PerformSingle(stack: Stack, call: Call)
    ensures Perform(stack, [call]) ==
              match PerformOne(stack, call) case Abort => Aborted case Next(s, r) => Done(s, Log(r))
  {
    var r := PerformOne(stack, call);
    assert [call][1..] == [];
    if r.Next? {
      assert Log(r.report) + [] == Log(r.report);
    }
  }

  /** Performing the calls of a tree is running the tree. */
  lemma {:induction false} PerformTree(stack: Stack, t: Tree)
    ensures Perform(stack, CallsOf(t)) == RunTree(stack, t)
    decreases t, 1
  {
    var a, b, c, d := [BeginCall(t.name, t.substeps, t.weight)], PercentCalls(t.name, t.percents),
                      CallsOfAll(t.children), [EndCall(t.name, t.success)];
    PerformSingle(stack, a[0]);
    PerformConcat(stack, a, b);
    PerformConcat(stack, a + b, c);
    PerformConcat(stack, a + b + c, d);
    var r1 := BeginStep(stack, t.name, t.substeps, t.weight);
    if r1.Next? {
      PerformPercents(r1.stack, t.name, t.percents);
      var r2 := RunPercents(r1.stack, t.name, t.percents);
      if r2.Done? {
        PerformForest(r2.stack, t.children);
        var r3 := RunForest(r2.stack, t.children);
        if r3.Done? {
          PerformSingle(r3.stack, d[0]);
        }
      }
    }
  }

  lemma {:induction false} PerformForest(stack: Stack, ts: seq<Tree>)
    ensures Perform(stack, CallsOfAll(ts)) == RunForest(stack, ts)
    decreases ts, 0
  {
    if ts != [] {
      PerformTree(stack, ts[0]);
      PerformConcat(stack, CallsOf(ts[0]), CallsOfAll(ts[1..]));
      var r := RunTree(stack, ts[0]);
      if r.Done? {
        PerformForest(r.stack, ts[1..]);
      }
    }
  }

  lemma {:induction false} CallsOfConcat(a: seq<Tree>, b: seq<Tree>)
    ensures CallsOfAll(a + b) == CallsOfAll(a) + CallsOfAll(b)
    decreases |a|
  {
    if a == [] {
      assert a + b == b;
    } else {
      assert (a + b)[0] == a[0] && (a + b)[1..] == a[1..] + b;
      CallsOfConcat(a[1..], b);
    }
  }

  // ---- the calls of an installation -----------------------------------------------------------------

  function HandlerCalls(h: HandlerOutcome): seq<Call> {
    if LeavesStepOpen(h) then [BeginCall("update_slots", |h.plans| * 10, 6)] + CallsOfAll(LoopSteps(h.plans))
    else CallsOfAll(HandlerSteps(h))
  }

  function InsideCalls(s: Script): seq<Call> {
    if Reaches(s) then CallsOfAll(Front(s, true, true)) + HandlerCalls(s.handler) else CallsOfAll(RootSteps(s))
  }

  function InstallCalls(s: Script): seq<Call> {
    [BeginCall("do_install_bundle", 10, 1)] + InsideCalls(s) + [EndCall("do_install_bundle", ScriptOk(s))]
  }

  // ---- what happens to an installation ------------------------------------------------------------------

  /** Everything that can go one way or the other while a plan is handled. */
  datatype Work =
    | SlotWork(stillMounted: bool, upToDate: bool, pendingSaved: bool, copied: bool, saved: bool, percents: seq<int>)
    | ArtifactWork(checked: bool, known: bool, installed: bool, committed: bool, percents: seq<int>)

  /** Whatever this plan comes to succeeds. */
  predicate Fine(w: Work) {
    match w
    case SlotWork(stillMounted, upToDate, pendingSaved, copied, saved, _) =>
      !stillMounted && saved && (upToDate || (pendingSaved && copied))
    case ArtifactWork(checked, known, installed, committed, _) => checked && (known || installed) && committed
  }

  predicate AllFine(ws: seq<Work>) {
    forall i :: 0 <= i < |ws| ==> Fine(ws[i])
  }

  /** Percentages of a copy are between 0 and 100. */
  ghost predicate Sensible(ws: seq<Work>) {
    forall i, k :: 0 <= i < |ws| && 0 <= k < |ws[i].percents| ==> 0 <= ws[i].percents[k] <= 100
  }

  function OutcomeOf(w: Work): PlanOutcome {
    match w
    case SlotWork(stillMounted, upToDate, pendingSaved, copied, saved, ps) =>
      if stillMounted then SlotStillMounted
      else if upToDate then if saved then SlotSkipped else SlotSkippedNotSaved
      else if !pendingSaved then SlotPendingNotSaved
      else if !copied then SlotCopyFailed(ps)
      else if saved then SlotWritten(ps) else SlotWrittenNotSaved(ps)
    case ArtifactWork(checked, known, installed, committed, ps) =>
      if !checked then ArtifactCheckFailed
      else if known then if committed then ArtifactReused else ArtifactCopyFailed([])
      else if installed && committed then ArtifactInstalled(ps) else ArtifactCopyFailed(ps)
  }

  /**
   The steps of a plan: a check, and if it succeeds the copy, nine times its weight. A
   status that cannot be saved after a copy is no failure of the step.
   */
  lemma StepsOfWork(w: Work)
    ensures Succeeded(OutcomeOf(w)) == Fine(w)
    ensures var ts := PlanSteps(OutcomeOf(w));
            && |ts| == (if ts[0].success then 2 else 1)
            && ts[0] == Leaf0(if w.SlotWork? then "check_slot" else "check_repo", 1, [],
                              if w.SlotWork? then !w.stillMounted && (w.upToDate || w.pendingSaved) else w.checked)
            && (|ts| == 2 ==>
                  ts[1] == if w.SlotWork? && w.upToDate then Leaf0("skip_image", 9, [], w.saved)
                           else Leaf0("copy_image", 9, if w.ArtifactWork? && w.known then [] else w.percents,
                                      if w.SlotWork? then w.copied else Fine(w)))
  {
  }

  function Outcomes(ws: seq<Work>): (os: seq<PlanOutcome>)
    ensures |os| == |ws| && forall i :: 0 <= i < |ws| ==> os[i] == OutcomeOf(ws[i])
  {
    seq(|ws|, i requires 0 <= i < |ws| => OutcomeOf(ws[i]))
  }

  datatype HandlerWork =
    | DefaultWork(planned: bool, markedBad: bool, plans: seq<Work>, pruned: bool)
    | CustomWork(done: bool)

  function HandlerOf(h: HandlerWork): HandlerOutcome {
    match h
    case DefaultWork(planned, markedBad, ws, pruned) =>
      if planned && markedBad then Looped(Outcomes(ws), pruned) else NotStarted
    case CustomWork(done) => Custom(done)
  }

  predicate HandlerFine(h: HandlerWork) {
    match h
    case DefaultWork(planned, markedBad, ws, pruned) => planned && markedBad && AllFine(ws) && pruned
    case CustomWork(done) => done
  }

  /** All plans succeed, and then pruning fails. */
  predicate OnlyPruningFails(h: HandlerWork) {
    h.DefaultWork? && h.planned && h.markedBad && AllFine(h.plans) && !h.pruned
  }

  ghost predicate HandlerSensible(h: HandlerWork) {
    h.DefaultWork? ==> Sensible(h.plans)
  }

  datatype InstallWork = InstallWork(states: bool, readable: bool, signed: bool, admitted: bool, cryptOk: bool,
                                     mounted: bool, manifestOk: bool, mountedLate: bool, accepted: bool,
                                     handler: HandlerWork, after: bool)

  predicate UpToHandler(w: InstallWork) {
    && w.states && w.readable && w.signed && w.admitted && w.cryptOk
    && w.mounted && w.manifestOk && w.mountedLate && w.accepted
  }

  function BundleOf(w: InstallWork): BundleOutcome {
    if !w.readable then BundleUnreadable
    else if !w.signed then SignatureBad
    else if w.admitted then BundleOk else BundleRefused
  }

  function MountOf(w: InstallWork): MountOutcome {
    if !w.mounted then MountFailed
    else if !w.manifestOk then ManifestBad
    else if w.mountedLate then Mounted else MountFailedLate
  }

  function ScriptOf(w: InstallWork): Script {
    Script(w.states, BundleOf(w), w.cryptOk, MountOf(w), w.accepted, HandlerOf(w.handler), w.after)
  }

  lemma OutcomesMeaning(ws: seq<Work>)
    requires Sensible(ws)
    ensures AllSucceeded(Outcomes(ws)) == AllFine(ws) && AllPlausible(Outcomes(ws))
  {
    forall i | 0 <= i < |ws| ensures Succeeded(Outcomes(ws)[i]) == Fine(ws[i]) && Plausible(Outcomes(ws)[i]) {
      StepsOfWork(ws[i]);
    }
  }

  /** The outcome of an installation is decided by what happens to it. */
  lemma ScriptMeaning(w: InstallWork)
    requires HandlerSensible(w.handler)
    ensures var s := ScriptOf(w);
            && PlausibleScript(s) && Reaches(s) == UpToHandler(w)
            && LeavesStepOpen(s.handler) == OnlyPruningFails(w.handler)
            && HandlerOk(s.handler) == HandlerFine(w.handler)
            && ScriptOk(s) == (UpToHandler(w) && HandlerFine(w.handler) && w.after)
  {
    if w.handler.DefaultWork? {
      OutcomesMeaning(w.handler.plans);
    }
  }

  // ---- the control flow ---------------------------------------------------------------------------------

  class Installation {
    var calls: seq<Call>

    constructor ()
      ensures calls == []
    {
      calls := [];
    }

    method Begin(name: string, substeps: int, weight: int)
      modifies this
      ensures calls == old(calls) + [BeginCall(name, substeps, weight)]
    {
      calls := calls + [BeginCall(name, substeps, weight)];
    }

    method End(name: string, success: bool)
      modifies this
      ensures calls == old(calls) + [EndCall(name, success)]
    {
      calls := calls + [EndCall(name, success)];
    }

    /** A step without substeps. */
    method Step(name: string, weight: int, success: bool)
      modifies this
      ensures calls == old(calls) + CallsOf(Leaf0(name, weight, [], success))
    {
      Begin(name, 0, weight);
      End(name, success);
    }

    /** Copying reports percentages. */
    method Copy(percents: seq<int>)
      modifies this
      ensures calls == old(calls) + PercentCalls("copy_image", percents)
    {
      for i := 0 to |percents|
        invariant calls == old(calls) + PercentCalls("copy_image", percents[..i])
      {
        assert percents[..i + 1] == percents[..i] + [percents[i]];
        PercentCallsSnoc("copy_image", percents[..i], percents[i]);
        calls := calls + [PercentCall("copy_image", percents[i])];
      }
      assert percents[..|percents|] == percents;
    }

    method CopyStep(percents: seq<int>, success: bool)
      modifies this
      ensures calls == old(calls) + CallsOf(Leaf0("copy_image", 9, percents, success))
    {
      Begin("copy_image", 0, 9);
      Copy(percents);
      End("copy_image", success);
    }

    method HandleSlotPlan(w: Work) returns (ok: bool)
      requires w.SlotWork?
      modifies this
      ensures calls == old(calls) + CallsOfAll(PlanSteps(OutcomeOf(w))) && ok == Fine(w)
    {
      if w.stillMounted {
        Step("check_slot", 1, false);
        OneCall(Leaf0("check_slot", 1, [], false));
        return false;
      }
      if w.upToDate {
        Step("check_slot", 1, true);
        Step("skip_image", 9, w.saved);
        TwoCalls(old(calls), Leaf0("check_slot", 1, [], true), Leaf0("skip_image", 9, [], w.saved));
        return w.saved;
      }
      if !w.pendingSaved {
        Step("check_slot", 1, false);
        OneCall(Leaf0("check_slot", 1, [], false));
        return false;
      }
      Step("check_slot", 1, true);
      CopyStep(w.percents, w.copied);
      TwoCalls(old(calls), Leaf0("check_slot", 1, [], true), Leaf0("copy_image", 9, w.percents, w.copied));
      return w.copied && w.saved;
    }

    method HandleArtifactPlan(w: Work) returns (ok: bool)
      requires w.ArtifactWork?
      modifies this
      ensures calls == old(calls) + CallsOfAll(PlanSteps(OutcomeOf(w))) && ok == Fine(w)
    {
      Step("check_repo", 1, w.checked);
      if !w.checked {
        OneCall(Leaf0("check_repo", 1, [], false));
        return false;
      }
      // installing, or committing its link afterwards, can fail
      ok := (w.known || w.installed) && w.committed;
      ghost var percents := if w.known then [] else w.percents;
      if !w.known {
        CopyStep(w.percents, ok);
      } else {
        Step("copy_image", 9, ok);
      }
      TwoCalls(old(calls), Leaf0("check_repo", 1, [], true), Leaf0("copy_image", 9, percents, ok));
      assert PlanSteps(OutcomeOf(w)) == [Leaf0("check_repo", 1, [], true), Leaf0("copy_image", 9, percents, ok)];
    }

    method HandlePlan(w: Work) returns (ok: bool)
      modifies this
      ensures calls == old(calls) + CallsOfAll(PlanSteps(OutcomeOf(w))) && ok == Fine(w)
    {
      if w.SlotWork? {
        ok := HandleSlotPlan(w);
      } else {
        ok := HandleArtifactPlan(w);
      }
    }

    /** The loop over the plans, up to the first that fails. */
    method HandlePlans(ws: seq<Work>) returns (ok: bool)
      modifies this
      ensures calls == old(calls) + CallsOfAll(LoopSteps(Outcomes(ws))) && ok == AllFine(ws)
    {
      for i := 0 to |ws|
        invariant AllFine(ws[..i])
        invariant calls == old(calls) + CallsOfAll(LoopSteps(Outcomes(ws[..i])))
      {
        var done := HandlePlan(ws[i]);
        OneMoreWork(old(calls), ws, i);
        if !done {
          return false;
        }
      }
      assert ws[..|ws|] == ws;
      ok := true;
    }

    /**
     The default handler, up to the end of its step; only the exit for a failing prune does
     not end it. Activating the slots has no step, and belongs to what comes after.
     */
    method DefaultHandler(h: HandlerWork) returns (ok: bool)
      requires h.DefaultWork? && Sensible(h.plans)
      modifies this
      ensures calls == old(calls) + HandlerCalls(HandlerOf(h)) && ok == HandlerFine(h)
    {
      if !h.planned || !h.markedBad {
        return false;
      }
      Begin("update_slots", |h.plans| * 10, 6);
      ok := HandlePlans(h.plans);
      OutcomesMeaning(h.plans);
      LoopCalls(old(calls), Outcomes(h.plans), h.pruned);
      if !ok {
        End("update_slots", false);
        return false;
      }
      if !h.pruned {
        return false;
      }
      End("update_slots", true);
      return true;
    }

    method CheckBundle(w: InstallWork) returns (ok: bool)
      modifies this
      ensures calls == old(calls) + CallsOf(BundleSteps(BundleOf(w))) && ok == (w.readable && w.signed && w.admitted)
    {
      Begin("check_bundle", 1, 1);
      if !w.readable {
        End("check_bundle", false);
        return false;
      }
      Step("cms_verify", 1, w.signed);
      OneCall(Leaf0("cms_verify", 1, [], w.signed));
      if !w.signed {
        End("check_bundle", false);
        return false;
      }
      End("check_bundle", w.admitted);
      return w.admitted;
    }

    method MountBundle(w: InstallWork) returns (ok: bool)
      modifies this
      ensures calls == old(calls) + CallsOfAll(MountSteps(MountOf(w)))
      ensures ok == (w.mounted && w.manifestOk && w.mountedLate)
    {
      if !w.mounted {
        return false;
      }
      Step("check_manifest", 1, w.manifestOk);
      OneCall(Leaf0("check_manifest", 1, [], w.manifestOk));
      if !w.manifestOk {
        return false;
      }
      return w.mountedLate;
    }

    /** What happens before the handler. */
    method BeforeHandler(w: InstallWork) returns (ok: bool)
      modifies this
      ensures ok == UpToHandler(w)
      ensures var s := ScriptOf(w);
              calls == old(calls) + CallsOfAll(if ok then Front(s, true, true) else RootSteps(s))
    {
      ghost var s := ScriptOf(w);
      Step("determine_slot_states", 1, w.states);
      OneCall(States(s));
      if !w.states {
        return false;
      }
      ok := CheckBundle(w);
      TwoCalls(old(calls), States(s), BundleSteps(s.bundle));
      if !ok || !w.cryptOk {
        return false;
      }
      ok := MountBundle(w);
      MoreCalls(old(calls), [States(s), BundleSteps(s.bundle)], MountSteps(s.mount));
      if !ok {
        return false;
      }
      Step("determine_target_install_group", 1, true);
      OneCall(TARGETS);
      MoreCalls(old(calls), [States(s), BundleSteps(s.bundle)] + MountSteps(s.mount), [TARGETS]);
      assert Front(s, true, true) == [States(s), BundleSteps(s.bundle)] + MountSteps(s.mount) + [TARGETS];
      assert !w.accepted ==> RootSteps(s) == Front(s, true, true) + [] == Front(s, true, true);
      return w.accepted;
    }

    method Handler(h: HandlerWork) returns (ok: bool)
      requires HandlerSensible(h)
      modifies this
      ensures calls == old(calls) + HandlerCalls(HandlerOf(h)) && ok == HandlerFine(h)
    {
      if h.CustomWork? {
        Step("launch_and_wait_custom_handler", 6, h.done);
        OneCall(Leaf0("launch_and_wait_custom_handler", 6, [], h.done));
        return h.done;
      }
      ok := DefaultHandler(h);
    }

    /** The steps inside the root step. */
    method InsideRoot(w: InstallWork) returns (ok: bool)
      requires HandlerSensible(w.handler)
      modifies this
      ensures calls == old(calls) + InsideCalls(ScriptOf(w))
      ensures ok == (UpToHandler(w) && HandlerFine(w.handler) && w.after)
    {
      ghost var s := ScriptOf(w);
      ScriptMeaning(w);
      ok := BeforeHandler(w);
      if !ok {
        return;
      }
      ok := Handler(w.handler);
      Associative(old(calls), CallsOfAll(Front(s, true, true)), HandlerCalls(s.handler));
      if ok {
        ok := w.after;
      }
    }

    /**
     A whole installation. Its calls are those of the table for its outcome. Performing them
     on an empty stack fails a check exactly if it comes to the handler, all plans succeed,
     and then pruning fails.
     */
    method DoInstallBundle(w: InstallWork) returns (ok: bool)
      requires calls == [] && HandlerSensible(w.handler)
      modifies this
      ensures calls == InstallCalls(ScriptOf(w)) && Perform([], calls) == InstallRun(ScriptOf(w))
      ensures ok == (UpToHandler(w) && HandlerFine(w.handler) && w.after)
      ensures Perform([], calls).Done? <==> !(UpToHandler(w) && OnlyPruningFails(w.handler))
    {
      ok := RootStep(w);
      InstallWorks(w);
    }

    method RootStep(w: InstallWork) returns (ok: bool)
      requires calls == [] && HandlerSensible(w.handler)
      modifies this
      ensures calls == [BeginCall("do_install_bundle", 10, 1)] + InsideCalls(ScriptOf(w)) + [EndCall("do_install_bundle", ok)]
      ensures ok == (UpToHandler(w) && HandlerFine(w.handler) && w.after)
    {
      Begin("do_install_bundle", 10, 1);
      ok := InsideRoot(w);
      End("do_install_bundle", ok);
    }
  }

  lemma InstallWorks(w: InstallWork)
    requires HandlerSensible(w.handler)
    ensures var s := ScriptOf(w);
            && ScriptOk(s) == (UpToHandler(w) && HandlerFine(w.handler) && w.after)
            && Perform([], InstallCalls(s)) == InstallRun(s)
            && (InstallRun(s).Done? <==> !(UpToHandler(w) && OnlyPruningFails(w.handler)))
  {
    ScriptMeaning(w);
    PerformInstall(ScriptOf(w));
    InstallRuns(ScriptOf(w));
  }

  lemma {:induction false} PercentCallsSnoc(name: string, percents: seq<int>, p: int)
    ensures PercentCalls(name, percents + [p]) == PercentCalls(name, percents) + [PercentCall(name, p)]
  {
    if percents != [] {
      assert (percents + [p])[1..] == percents[1..] + [p];
      PercentCallsSnoc(name, percents[1..], p);
    }
  }

  ghost predicate AllPlausible(os: seq<PlanOutcome>) {
    forall i :: 0 <= i < |os| ==> Plausible(os[i])
  }

  lemma Associative(a: seq<Call>, b: seq<Call>, c: seq<Call>)
    ensures a + b + c == a + (b + c)
  {
  }

  lemma OneCall(t: Tree)
    ensures CallsOfAll([t]) == CallsOf(t)
  {
    assert [t][1..] == [];
    assert CallsOf(t) + [] == CallsOf(t);
  }

  lemma MoreCalls(base: seq<Call>, a: seq<Tree>, b: seq<Tree>)
    ensures base + CallsOfAll(a) + CallsOfAll(b) == base + CallsOfAll(a + b)
  {
    CallsOfConcat(a, b);
  }

  lemma TwoCalls(base: seq<Call>, t: Tree, u: Tree)
    ensures base + CallsOf(t) + CallsOf(u) == base + CallsOfAll([t, u])
  {
    OneCall(t);
    OneCall(u);
    MoreCalls(base, [t], [u]);
    assert [t] + [u] == [t, u];
  }

  /** The calls of the step over the loop: it is ended unless only pruning fails. */
  lemma LoopCalls(base: seq<Call>, os: seq<PlanOutcome>, pruned: bool)
    ensures var open := base + [BeginCall("update_slots", |os| * 10, 6)] + CallsOfAll(LoopSteps(os));
            var end := if AllSucceeded(os) && !pruned then [] else [EndCall("update_slots", AllSucceeded(os))];
            open + end == base + HandlerCalls(Looped(os, pruned))
  {
    var t := Tree("update_slots", 6, |os| * 10, [], LoopSteps(os), AllSucceeded(os));
    var begin := [BeginCall("update_slots", |os| * 10, 6)];
    if LeavesStepOpen(Looped(os, pruned)) {
      Associative(base, begin, CallsOfAll(LoopSteps(os)));
    } else {
      OneCall(t);
      CallsOfStep(base, t);
    }
  }

  lemma CallsOfStep(base: seq<Call>, t: Tree)
    requires t.percents == []
    ensures base + CallsOf(t) ==
            base + [BeginCall(t.name, t.substeps, t.weight)] + CallsOfAll(t.children) + [EndCall(t.name, t.success)]
  {
    var begin, loop, end :=
        [BeginCall(t.name, t.substeps, t.weight)], CallsOfAll(t.children), [EndCall(t.name, t.success)];
    assert begin + PercentCalls(t.name, []) == begin;
    Associative(base + begin, loop, end);
    Associative(base, begin, loop + end);
    Associative(begin, loop, end);
  }

  /** One more plan, or the one that ends the loop. */
  lemma OneMoreWork(base: seq<Call>, ws: seq<Work>, i: nat)
    requires i < |ws| && AllFine(ws[..i])
    ensures AllFine(ws[..i + 1]) == Fine(ws[i]) && (AllFine(ws) ==> Fine(ws[i]))
    ensures base + CallsOfAll(LoopSteps(Outcomes(ws[..i]))) + CallsOfAll(PlanSteps(OutcomeOf(ws[i]))) ==
            base + CallsOfAll(LoopSteps(Outcomes(if Fine(ws[i]) then ws[..i + 1] else ws)))
  {
    OutcomesSplit(ws, i);
    var os, o := Outcomes(ws[..i]), OutcomeOf(ws[i]);
    OneMoreOutcome(base, os, o, if Fine(ws[i]) then [] else Outcomes(ws[i + 1..]));
    FineSplit(ws, i);
  }

  lemma FineSplit(ws: seq<Work>, i: nat)
    requires i < |ws| && AllFine(ws[..i])
    ensures AllFine(ws[..i + 1]) == Fine(ws[i]) && (AllFine(ws) ==> Fine(ws[i]))
  {
    assert forall k :: 0 <= k < i ==> ws[..i + 1][k] == ws[..i][k];
    assert ws[..i + 1][i] == ws[i];
  }

  lemma OneMoreOutcome(base: seq<Call>, os: seq<PlanOutcome>, o: PlanOutcome, rest: seq<PlanOutcome>)
    requires AllSucceeded(os) && (Succeeded(o) ==> rest == [])
    ensures base + CallsOfAll(LoopSteps(os)) + CallsOfAll(PlanSteps(o)) ==
            base + CallsOfAll(LoopSteps(os + ([o] + rest)))
  {
    LoopStepsMore(os, o, rest);
    MoreCalls(base, LoopSteps(os), PlanSteps(o));
  }

  lemma OutcomesSplit(ws: seq<Work>, i: nat)
    requires i < |ws| && AllFine(ws[..i])
    ensures AllSucceeded(Outcomes(ws[..i])) && Succeeded(OutcomeOf(ws[i])) == Fine(ws[i])
    ensures Outcomes(ws[..i + 1]) == Outcomes(ws[..i]) + ([OutcomeOf(ws[i])] + [])
    ensures Outcomes(ws) == Outcomes(ws[..i]) + ([OutcomeOf(ws[i])] + Outcomes(ws[i + 1..]))
  {
    StepsOfWork(ws[i]);
    forall k | 0 <= k < i ensures Succeeded(Outcomes(ws[..i])[k]) {
      assert Fine(ws[..i][k]);
      StepsOfWork(ws[k]);
    }
  }

  lemma {:induction false} LoopStepsMore(os: seq<PlanOutcome>, o: PlanOutcome, rest: seq<PlanOutcome>)
    requires AllSucceeded(os) && (Succeeded(o) ==> rest == [])
    ensures LoopSteps(os + ([o] + rest)) == LoopSteps(os) + PlanSteps(o)
  {
    var all := os + ([o] + rest);
    if os == [] {
      assert all == [o] + rest && all[1..] == rest;
      assert PlanSteps(o) + [] == PlanSteps(o);
    } else {
      assert all[1..] == os[1..] + ([o] + rest);
      LoopStepsMore(os[1..], o, rest);
    }
  }

  /** Performing the calls of an installation is running its table. */
  lemma PerformInstall(s: Script)
    requires PlausibleScript(s)
    ensures Perform([], InstallCalls(s)) == InstallRun(s)
  {
    if Reaches(s) && LeavesStepOpen(s.handler) {
      PerformOpen(s);
      PruneFailureAborts(s);
    } else {
      if Reaches(s) {
        CallsOfConcat(Front(s, true, true), HandlerSteps(s.handler));
        assert RootSteps(s) == Front(s, true, true) + HandlerSteps(s.handler);
      }
      assert InstallCalls(s) == CallsOf(InstallTree(s));
      PerformTree([], InstallTree(s));
    }
  }

  lemma PerformOpen(s: Script)
    requires PlausibleScript(s) && Reaches(s) && LeavesStepOpen(s.handler)
    ensures Perform([], InstallCalls(s)) == Aborted
  {
    var root, front := Root(InstallTree(s)), CallsOfAll(Front(s, true, true));
    var update, loop := [BeginCall("update_slots", |s.handler.plans| * 10, 6)], CallsOfAll(LoopSteps(s.handler.plans));
    var begin, end := [BeginCall("do_install_bundle", 10, 1)], [EndCall("do_install_bundle", false)];
    PruneFailureAborts(s);
    AfterLoopIsPerformed(s);
    PerformConcat(root, front + (update + loop), end);
    PerformSingle(AfterLoop(s).stack, end[0]);
    PerformSingle([], begin[0]);
    PerformConcat([], begin, front + (update + loop) + end);
    assert InstallCalls(s) == begin + (front + (update + loop) + end);
  }

  lemma AfterLoopIsPerformed(s: Script)
    requires s.handler.Looped?
    ensures Perform(Root(InstallTree(s)),
                    CallsOfAll(Front(s, true, true))
                    + ([BeginCall("update_slots", |s.handler.plans| * 10, 6)]
                       + CallsOfAll(LoopSteps(s.handler.plans)))) == AfterLoop(s)
  {
    var root, front := Root(InstallTree(s)), CallsOfAll(Front(s, true, true));
    var update, loop := [BeginCall("update_slots", |s.handler.plans| * 10, 6)], CallsOfAll(LoopSteps(s.handler.plans));
    PerformConcat(root, front, update + loop);
    PerformForest(root, Front(s, true, true));
    var r1 := RunForest(root, Front(s, true, true));
    if r1.Done? {
      PerformConcat(r1.stack, update, loop);
      PerformSingle(r1.stack, update[0]);
      var r2 := BeginStep(r1.stack, "update_slots", |s.handler.plans| * 10, 6);
      if r2.Next? {
        PerformForest(r2.stack, LoopSteps(s.handler.plans));
        var r3 := RunForest(r2.stack, LoopSteps(s.handler.plans));
        if r3.Done? {
          assert r1.reports + (Log(r2.report) + r3.reports) == r1.reports + Log(r2.report) + r3.reports;
        }
      }
    }
  }
}
