/**
 Whole runs of nested steps: a tree says which steps a run begins and ends, in which
 order, with which explicit percentages in between.
 */
module ProgressRuns {
  import opened Wrappers
  import opened Progress

  datatype Tree = Tree(name: string, weight: int, substeps: int, percents: seq<int>, children: seq<Tree>, success: bool)

  function Weights(ts: seq<Tree>): int {
    if ts == [] then 0 else ts[0].weight + Weights(ts[1..])
  }

  /** Positive weights that fit their parent, and fill it if the parent is to succeed. */
  ghost predicate WellNested(t: Tree) {
    && t.weight >= 1 && 0 <= Weights(t.children) <= t.substeps
    && (t.success ==> Weights(t.children) == t.substeps)
    && (t.percents != [] ==> t.substeps == 0)
    && (forall i :: 0 <= i < |t.percents| ==> 0 <= t.percents[i] <= 100)
    && forall i :: 0 <= i < |t.children| ==> WellNested(t.children[i])
  }

  ghost predicate AllNested(ts: seq<Tree>) {
    forall i :: 0 <= i < |ts| ==> WellNested(ts[i])
  }

  /** No step of the run goes back in its explicit percentages. */
  ghost predicate Forward(t: Tree) {
    && (forall i, j :: 0 <= i < j < |t.percents| ==> t.percents[i] <= t.percents[j])
    && forall i :: 0 <= i < |t.children| ==> Forward(t.children[i])
  }

  // ---- running a tree -----------------------------------------------------------------

  datatype Run = Done(stack: Stack, reports: seq<real>) | Aborted

  function Log(report: Option<real>): seq<real> {
    if report.Some? then [report.value] else []
  }

  function RunPercents(stack: Stack, name: string, percents: seq<int>): Run
    decreases percents
  {
    if percents == [] then Done(stack, [])
    else match SetStepPercentage(stack, name, percents[0])
      case Abort => Aborted
      case Next(s, r) =>
        match RunPercents(s, name, percents[1..])
        case Aborted => Aborted
        case Done(s', rs) => Done(s', Log(r) + rs)
  }

  function RunTree(stack: Stack, t: Tree): Run
    decreases t
  {
    match BeginStep(stack, t.name, t.substeps, t.weight)
    case Abort => Aborted
    case Next(s1, r1) =>
      match RunPercents(s1, t.name, t.percents)
      case Aborted => Aborted
      case Done(s2, rs2) =>
        match RunForest(s2, t.children)
        case Aborted => Aborted
        case Done(s3, rs3) =>
          match EndStep(s3, t.name, t.success)
          case Abort => Aborted
          case Next(s4, r4) => Done(s4, Log(r1) + rs2 + rs3 + Log(r4))
  }

  function RunForest(stack: Stack, ts: seq<Tree>): Run
    decreases ts
  {
    if ts == [] then Done(stack, [])
    else match RunTree(stack, ts[0])
      case Aborted => Aborted
      case Done(s1, rs1) =>
        match RunForest(s1, ts[1..])
        case Aborted => Aborted
        case Done(s2, rs2) => Done(s2, rs1 + rs2)
  }

  // ---- shares of a percentage ------------------------------------------------------------

  lemma ShareAdd(a: int, b: int, total: real, n: int)
    requires n > 0
    ensures Share(a, total, n) + Share(b, total, n) == Share(a + b, total, n)
  {
    var x, y, d := a as real * total, b as real * total, n as real;
    assert (a + b) as real * total == x + y;
    assert x / d + y / d == (x + y) / d;
  }

  lemma ShareBounds(a: int, total: real, n: int)
    requires n > 0 && 0 <= a <= n && 0.0 <= total
    ensures 0.0 <= Share(a, total, n) <= total
    ensures a == n ==> Share(a, total, n) == total
    ensures a == 0 ==> Share(a, total, n) == 0.0
    ensures a > 0 && total > 0.0 ==> Share(a, total, n) > 0.0
  {
    var x, d := a as real * total, n as real;
    assert 0.0 <= x <= d * total;
    assert x / d * d == x;
    assert a == n ==> d * total / d == total;
    assert a > 0 && total > 0.0 ==> x > 0.0;
  }

  lemma PercentAdd(total: real, a: int, b: int)
    ensures PercentOf(total, a) + PercentOf(total, b) == PercentOf(total, a + b)
  {
    var x, y := a as real / 100.0, b as real / 100.0;
    assert (a + b) as real / 100.0 == x + y;
    assert total * x + total * y == total * (x + y);
  }

  lemma PercentBounds(total: real, a: int)
    requires 0.0 <= total && 0 <= a <= 100
    ensures 0.0 <= PercentOf(total, a) <= total
    ensures a == 0 ==> PercentOf(total, a) == 0.0
    ensures a == 100 ==> PercentOf(total, a) == total
    ensures a < 100 && total <= 100.0 ==> PercentOf(total, a) < 100.0
  {
    var x := a as real / 100.0;
    assert 0.0 <= x <= 1.0;
    assert total * x <= total * 1.0;
    if a < 100 && total <= 100.0 {
      assert x < 1.0;
      assert total * x <= 100.0 * x;
    }
  }

  lemma TruncMonotone(x: real, y: real)
    requires 0.0 <= x <= y
    ensures Trunc(x) <= Trunc(y)
  {
  }

  // ---- the invariant between steps ---------------------------------------------------------

  /** A step with substeps, credited for exactly the substeps that are done. */
  ghost predicate Counting(s: Step) {
    && s.substepsTotal > 0 && 0 <= s.substepsDone <= s.substepsTotal && s.lastExplicit == 0
    && 0.0 <= s.percentTotal
    && s.percentDone == Share(s.substepsDone, s.percentTotal, s.substepsTotal)
  }

  ghost predicate Fits(c: Step, p: Step)
    requires p.substepsTotal > 0
  {
    && c.weight >= 1 && p.substepsDone + c.weight <= p.substepsTotal
    && c.percentTotal == Share(c.weight, p.percentTotal, p.substepsTotal)
  }

  /** A stack of steps with substeps, each still open in its parent. */
  ghost predicate Open(stack: Stack) {
    && stack != []
    && Counting(stack[0])
    && (|stack| == 1 ==> stack[0].percentTotal == 100.0)
    && (|stack| > 1 ==> Open(stack[1..]) && Fits(stack[0], stack[1]))
  }

  lemma {:induction false} LevelBound(stack: Stack)
    requires Open(stack)
    ensures 0.0 <= stack[0].percentDone <= stack[0].percentTotal <= 100.0
    ensures 0.0 <= Level(stack) <= 100.0 - stack[0].percentTotal + stack[0].percentDone
  {
    var s := stack[0];
    ShareBounds(s.substepsDone, s.percentTotal, s.substepsTotal);
    if |stack| == 1 {
      assert Level(stack[1..]) == 0.0;
    } else {
      var p := stack[1];
      LevelBound(stack[1..]);
      ShareAdd(p.substepsDone, s.weight, p.percentTotal, p.substepsTotal);
      ShareBounds(p.substepsDone + s.weight, p.percentTotal, p.substepsTotal);
    }
  }

  /** The stack after a child of this weight: its whole share is credited, nothing else changes. */
  function Credited(stack: Stack, weight: int): Stack
    requires stack != [] && stack[0].substepsTotal > 0
  {
    [stack[0].(substepsDone := stack[0].substepsDone + weight,
               percentDone := stack[0].percentDone + Share(weight, stack[0].percentTotal, stack[0].substepsTotal))]
    + stack[1..]
  }

  ghost predicate Room(stack: Stack, weight: int) {
    Open(stack) && weight >= 0 && stack[0].substepsDone + weight <= stack[0].substepsTotal
  }

  lemma CreditedOpen(stack: Stack, weight: int)
    requires Room(stack, weight)
    ensures Open(Credited(stack, weight))
    ensures Level(Credited(stack, weight)) ==
              Level(stack) + Share(weight, stack[0].percentTotal, stack[0].substepsTotal)
    ensures Level(stack) <= Level(Credited(stack, weight)) <= 100.0
  {
    var s := stack[0];
    ShareAdd(s.substepsDone, weight, s.percentTotal, s.substepsTotal);
    ShareBounds(weight, s.percentTotal, s.substepsTotal);
    assert Credited(stack, weight)[1..] == stack[1..];
    LevelBound(Credited(stack, weight));
  }

  function Capped(x: real): real {
    if x > 99.0 then 99.0 else x
  }

  /** The highest percentage reported on the way to a level, by steps worth `share` in all. */
  function Top(level: real, share: real): real {
    if share == 100.0 then 100.0 else Capped(level)
  }

  ghost predicate Within(rs: seq<real>, low: real, high: real) {
    forall i :: 0 <= i < |rs| ==> low <= rs[i] <= high
  }

  ghost predicate Rising(rs: seq<real>) {
    forall i, j :: 0 <= i < j < |rs| ==> rs[i] <= rs[j]
  }

  lemma RisingConcat(a: seq<real>, b: seq<real>, m: real, low: real, high: real)
    requires Within(a, low, m) && Within(b, m, high)
    requires low <= m <= high
    ensures Within(a + b, low, high)
    ensures Rising(a) && Rising(b) ==> Rising(a + b)
  {
  }

  // ---- steps without substeps ----------------------------------------------------------------

  /** A leaf step on an open stack, with the part of its share that explicit percentages have credited. */
  function Leaf(stack: Stack, t: Tree, last: int, done: real): Stack
    requires stack != [] && stack[0].substepsTotal > 0
  {
    var total := Share(t.weight, stack[0].percentTotal, stack[0].substepsTotal);
    [Step(t.name, t.weight, 0, 0, total, done, last),
     stack[0].(percentDone := stack[0].percentDone + PercentOf(total, last))] + stack[1..]
  }

  lemma LeafLevel(stack: Stack, t: Tree, last: int, done: real)
    requires Room(stack, t.weight) && t.weight >= 1 && 0 <= last <= 100
    ensures var total := Share(t.weight, stack[0].percentTotal, stack[0].substepsTotal);
            && 0.0 <= total <= 100.0
            && Level(Leaf(stack, t, last, done)[1..]) == Level(stack) + PercentOf(total, last)
            && Level(stack) <= Level(stack) + PercentOf(total, last) <= Level(stack) + total <= 100.0
            && 0.0 <= Level(stack)
  {
    var total := Share(t.weight, stack[0].percentTotal, stack[0].substepsTotal);
    CreditedOpen(stack, t.weight);
    LevelBound(stack);
    ShareBounds(t.weight, stack[0].percentTotal, stack[0].substepsTotal);
    PercentBounds(total, last);
    assert Leaf(stack, t, last, done)[1..][1..] == stack[1..];
  }

  lemma LeafPercent(stack: Stack, t: Tree, last: int, done: real, p: int)
    requires Room(stack, t.weight) && t.weight >= 1 && 0 <= last <= 100 && 0 <= p <= 100
    ensures var total := Share(t.weight, stack[0].percentTotal, stack[0].substepsTotal);
            var done' := PercentOf(total, p - last);
            var r := SetStepPercentage(Leaf(stack, t, last, done), t.name, p);
            && r.Next? && r.stack == Leaf(stack, t, p, done')
            && (p == 100 ==> r.report.None?)
            && (p < 100 ==> r.report == Some(Capped(Level(stack) + PercentOf(total, p))))
  {
    var total := Share(t.weight, stack[0].percentTotal, stack[0].substepsTotal);
    var done' := PercentOf(total, p - last);
    PercentAdd(total, last, p - last);
    LeafLevel(stack, t, p, done');
    assert WithPercentage(Leaf(stack, t, last, done), p) == Leaf(stack, t, p, done');
    if p < 100 {
      PercentAdd(total, p, -last);
      PercentAdd(total, last, -last);
      PercentBounds(total, p);
      PercentBounds(total, last);
    }
  }

  /** The callback values of explicit percentages; one of 100 is left to the end of the step. */
  function PercentReports(level: real, total: real, percents: seq<int>): seq<real> {
    if percents == [] then []
    else (if percents[0] == 100 then [] else [Capped(level + PercentOf(total, percents[0]))])
         + PercentReports(level, total, percents[1..])
  }

  function LastOr(percents: seq<int>, last: int): int {
    if percents == [] then last else LastOr(percents[1..], percents[0])
  }

  function DoneOr(total: real, percents: seq<int>, last: int, done: real): real {
    if percents == [] then done
    else DoneOr(total, percents[1..], percents[0], PercentOf(total, percents[0] - last))
  }

  lemma {:induction false} LastBounds(percents: seq<int>, last: int)
    requires 0 <= last <= 100
    requires forall i :: 0 <= i < |percents| ==> 0 <= percents[i] <= 100
    ensures 0 <= LastOr(percents, last) <= 100
    decreases percents
  {
    if percents != [] {
      LastBounds(percents[1..], percents[0]);
    }
  }

  lemma {:induction false} PercentsRun(stack: Stack, t: Tree, last: int, done: real, percents: seq<int>)
    requires Room(stack, t.weight) && t.weight >= 1 && 0 <= last <= 100
    requires forall i :: 0 <= i < |percents| ==> 0 <= percents[i] <= 100
    ensures var total := Share(t.weight, stack[0].percentTotal, stack[0].substepsTotal);
            RunPercents(Leaf(stack, t, last, done), t.name, percents) ==
            Done(Leaf(stack, t, LastOr(percents, last), DoneOr(total, percents, last, done)),
                 PercentReports(Level(stack), total, percents))
    decreases percents
  {
    var total := Share(t.weight, stack[0].percentTotal, stack[0].substepsTotal);
    if percents != [] {
      var p := percents[0];
      LeafPercent(stack, t, last, done, p);
      PercentsRun(stack, t, p, PercentOf(total, p - last), percents[1..]);
    }
  }

  lemma {:induction false} PercentReportsWithin(level: real, total: real, percents: seq<int>, low: int)
    requires 0.0 <= total && 0.0 <= level <= level + total <= 100.0 && 0 <= low <= 100
    requires forall i :: 0 <= i < |percents| ==> low <= percents[i] <= 100
    ensures Within(PercentReports(level, total, percents), Capped(level + PercentOf(total, low)), Capped(level + total))
    ensures (forall i, j :: 0 <= i < j < |percents| ==> percents[i] <= percents[j]) ==>
              Rising(PercentReports(level, total, percents))
    decreases percents
  {
    if percents != [] {
      var p := percents[0];
      PercentBounds(total, low);
      PercentBounds(total, p);
      PercentAdd(total, low, p - low);
      PercentBounds(total, p - low);
      PercentReportsWithin(level, total, percents[1..], low);
      if forall i, j :: 0 <= i < j < |percents| ==> percents[i] <= percents[j] {
        PercentReportsWithin(level, total, percents[1..], p);
      }
    }
  }

  /** What is reported when a step of this share ends, with its parent credited. */
  lemma EndReport(stack: Stack, weight: int, head: Step)
    requires Room(stack, weight) && weight >= 1
    requires var total := Share(weight, stack[0].percentTotal, stack[0].substepsTotal);
             0.0 <= head.percentDone <= total
    ensures var total := Share(weight, stack[0].percentTotal, stack[0].substepsTotal);
            var s := [head] + Credited(stack, weight);
            && Trunc(s[0].percentDone) <= Trunc(s[1].percentDone)
            && Capped(Level(stack) + total) <= Reported(s) <= Top(Level(stack) + total, total)
            && (head.percentDone == total ==> Reported(s) == Top(Level(stack) + total, total))
            && Trunc(Reported(s)) <= 100
  {
    var total := Share(weight, stack[0].percentTotal, stack[0].substepsTotal);
    var s := [head] + Credited(stack, weight);
    CreditedOpen(stack, weight);
    LevelBound(stack);
    ShareBounds(weight, stack[0].percentTotal, stack[0].substepsTotal);
    assert s[1..] == Credited(stack, weight);
    TruncMonotone(head.percentDone, s[1].percentDone);
    TruncMonotone(Reported(s), 100.0);
  }

  /** What has been credited, and what is left to be credited, is the whole share. */
  lemma LeafCredit(total: real, last: int)
    requires 0.0 <= total && 0 <= last <= 100
    ensures PercentOf(total, last) + PercentOf(total, 100 - last) == total
    ensures PercentOf(total, 100) == total && PercentOf(total, 0) == 0.0
    ensures 0.0 <= PercentOf(total, 100 - last) <= total
  {
    PercentAdd(total, last, 100 - last);
    PercentBounds(total, 100 - last);
    PercentBounds(total, 100);
    PercentBounds(total, 0);
  }

  lemma LeafFinished(stack: Stack, t: Tree, last: int, done: real)
    requires Room(stack, t.weight) && t.weight >= 1 && 0 <= last <= 100
    ensures var total := Share(t.weight, stack[0].percentTotal, stack[0].substepsTotal);
            var s := Finished(Leaf(stack, t, last, done));
            && s == [s[0]] + Credited(stack, t.weight) && 0.0 <= s[0].percentDone <= total
  {
    var total := Share(t.weight, stack[0].percentTotal, stack[0].substepsTotal);
    ShareBounds(t.weight, stack[0].percentTotal, stack[0].substepsTotal);
    LeafCredit(total, last);
    var leaf := Leaf(stack, t, last, done);
    assert leaf[2..] == stack[1..];
    assert Finished(leaf)[1] == Credited(stack, t.weight)[0];
    assert Finished(leaf)[2..] == stack[1..];
  }

  lemma LeafEnd(stack: Stack, t: Tree, last: int, done: real)
    requires Room(stack, t.weight) && t.weight >= 1 && 0 <= last <= 100
    ensures var total := Share(t.weight, stack[0].percentTotal, stack[0].substepsTotal);
            var r := EndStep(Leaf(stack, t, last, done), t.name, t.success);
            && r.Next? && r.stack == Credited(stack, t.weight)
            && r.report.Some?
            && Capped(Level(stack) + total) <= r.report.value <= Top(Level(stack) + total, total)
  {
    var s := Finished(Leaf(stack, t, last, done));
    LeafFinished(stack, t, last, done);
    EndReport(stack, t.weight, s[0]);
    assert s[1..] == Credited(stack, t.weight);
  }

  // ---- whole trees -------------------------------------------------------------------------

  function Begun(stack: Stack, t: Tree): Stack
    requires stack != [] && stack[0].substepsTotal > 0
  {
    [Step(t.name, t.weight, t.substeps, 0, Share(t.weight, stack[0].percentTotal, stack[0].substepsTotal), 0.0, 0)] + stack
  }

  lemma BeginRun(stack: Stack, t: Tree)
    requires Room(stack, t.weight) && t.weight >= 1 && t.substeps >= 0
    ensures BeginStep(stack, t.name, t.substeps, t.weight) == Next(Begun(stack, t), Some(Capped(Level(stack))))
    ensures t.substeps > 0 ==> Open(Begun(stack, t)) && Level(Begun(stack, t)) == Level(stack)
    ensures t.substeps == 0 ==> Begun(stack, t) == Leaf(stack, t, 0, 0.0)
  {
    var s := stack[0];
    var total := Share(t.weight, s.percentTotal, s.substepsTotal);
    ShareBounds(t.weight, s.percentTotal, s.substepsTotal);
    LevelBound(stack);
    TruncMonotone(total, s.percentTotal);
    TruncMonotone(total, 100.0);
    TruncMonotone(Capped(Level(stack)), 100.0);
    assert Begun(stack, t)[1..] == stack;
    if t.substeps > 0 {
      ShareBounds(0, total, t.substeps);
    } else {
      PercentBounds(total, 0);
    }
  }

  lemma InnerFinished(stack: Stack, t: Tree, done: int)
    requires Room(stack, t.weight) && t.weight >= 1 && t.substeps > 0
    ensures var inner := Credited(Begun(stack, t), done);
            && inner[1..] == stack && |Finished(inner)| == |stack| + 1
            && Finished(inner) == [Finished(inner)[0]] + Credited(stack, t.weight)
            && Finished(inner)[1..] == Credited(stack, t.weight)
  {
    var inner := Credited(Begun(stack, t), done);
    assert inner[1..] == stack && inner[2..] == stack[1..];
    var s := Finished(inner);
    assert s[2..] == stack[1..] && s[1] == Credited(stack, t.weight)[0];
  }

  lemma InnerEnd(stack: Stack, t: Tree, done: int)
    requires Room(stack, t.weight) && t.weight >= 1 && t.substeps > 0
    requires 0 <= done <= t.substeps && (t.success ==> done == t.substeps)
    ensures var total := Share(t.weight, stack[0].percentTotal, stack[0].substepsTotal);
            var r := EndStep(Credited(Begun(stack, t), done), t.name, t.success);
            r == Next(Credited(stack, t.weight), Some(Top(Level(stack) + total, total)))
  {
    InnerFinished(stack, t, done);
    ShareBounds(t.weight, stack[0].percentTotal, stack[0].substepsTotal);
    EndReport(stack, t.weight, Finished(Credited(Begun(stack, t), done))[0]);
  }

  lemma {:induction false} WeightsPositive(ts: seq<Tree>)
    requires AllNested(ts)
    ensures Weights(ts) >= |ts|
    decreases ts
  {
    if ts != [] {
      WeightsPositive(ts[1..]);
    }
  }

  /** Reports between the begin and the end of a step. */
  lemma Framed(low: real, rs: seq<real>, end: real, high: real)
    requires Within(rs, low, end) && low <= end <= high
    ensures Within([low] + rs + [end], low, high)
    ensures Rising(rs) ==> Rising([low] + rs + [end])
  {
  }

  /** A run that credits this weight and stays within its bounds. */
  ghost predicate GoodRun(stack: Stack, weight: int, r: Run, forward: bool)
    requires stack != [] && stack[0].substepsTotal > 0
  {
    var total := Share(weight, stack[0].percentTotal, stack[0].substepsTotal);
    && r.Done? && r.stack == Credited(stack, weight)
    && Within(r.reports, Capped(Level(stack)), Top(Level(stack) + total, total))
    && (forward ==> Rising(r.reports))
  }

  ghost predicate AllForward(ts: seq<Tree>) {
    forall i :: 0 <= i < |ts| ==> Forward(ts[i])
  }

  lemma LeafRunIs(stack: Stack, t: Tree)
    requires Room(stack, t.weight) && WellNested(t) && t.substeps == 0
    ensures var total := Share(t.weight, stack[0].percentTotal, stack[0].substepsTotal);
            var end := EndStep(Leaf(stack, t, LastOr(t.percents, 0), DoneOr(total, t.percents, 0, 0.0)), t.name, t.success);
            && end.Next? && end.report.Some?
            && Capped(Level(stack) + total) <= end.report.value <= Top(Level(stack) + total, total)
            && RunTree(stack, t) ==
               Done(Credited(stack, t.weight),
                    [Capped(Level(stack))] + PercentReports(Level(stack), total, t.percents) + [end.report.value])
  {
    var total := Share(t.weight, stack[0].percentTotal, stack[0].substepsTotal);
    WeightsPositive(t.children);
    BeginRun(stack, t);
    PercentsRun(stack, t, 0, 0.0, t.percents);
    LastBounds(t.percents, 0);
    LeafEnd(stack, t, LastOr(t.percents, 0), DoneOr(total, t.percents, 0, 0.0));
    assert t.children == [];
    var rs := [Capped(Level(stack))] + PercentReports(Level(stack), total, t.percents);
    assert rs + [] == rs;
  }

  lemma LeafBounds(stack: Stack, t: Tree, end: real)
    requires Room(stack, t.weight) && WellNested(t)
    requires var total := Share(t.weight, stack[0].percentTotal, stack[0].substepsTotal);
             Capped(Level(stack) + total) <= end <= Top(Level(stack) + total, total)
    ensures var total := Share(t.weight, stack[0].percentTotal, stack[0].substepsTotal);
            var rs := [Capped(Level(stack))] + PercentReports(Level(stack), total, t.percents) + [end];
            Within(rs, Capped(Level(stack)), Top(Level(stack) + total, total)) && (Forward(t) ==> Rising(rs))
  {
    var total := Share(t.weight, stack[0].percentTotal, stack[0].substepsTotal);
    LeafLevel(stack, t, 0, 0.0);
    PercentReportsWithin(Level(stack), total, t.percents, 0);
    PercentBounds(total, 0);
    Framed(Capped(Level(stack)), PercentReports(Level(stack), total, t.percents), end, Top(Level(stack) + total, total));
  }

  lemma LeafRuns(stack: Stack, t: Tree)
    requires Room(stack, t.weight) && WellNested(t) && t.substeps == 0
    ensures GoodRun(stack, t.weight, RunTree(stack, t), Forward(t))
  {
    var total := Share(t.weight, stack[0].percentTotal, stack[0].substepsTotal);
    LeafRunIs(stack, t);
    var end := EndStep(Leaf(stack, t, LastOr(t.percents, 0), DoneOr(total, t.percents, 0, 0.0)), t.name, t.success);
    LeafBounds(stack, t, end.report.value);
  }

  lemma InnerRunIs(stack: Stack, t: Tree)
    requires Room(stack, t.weight) && WellNested(t) && t.substeps > 0
    requires Open(Begun(stack, t))
    requires GoodRun(Begun(stack, t), Weights(t.children), RunForest(Begun(stack, t), t.children),
                     AllForward(t.children))
    ensures var total := Share(t.weight, stack[0].percentTotal, stack[0].substepsTotal);
            RunTree(stack, t) ==
            Done(Credited(stack, t.weight),
                 [Capped(Level(stack))] + RunForest(Begun(stack, t), t.children).reports + [Top(Level(stack) + total, total)])
  {
    BeginRun(stack, t);
    InnerEnd(stack, t, Weights(t.children));
    assert [Capped(Level(stack))] + [] == [Capped(Level(stack))];
  }

  lemma InnerBounds(stack: Stack, t: Tree, w: int, rs: seq<real>)
    requires Room(stack, t.weight) && t.weight >= 1 && t.substeps > 0 && 0 <= w <= t.substeps
    requires var share := Share(w, Share(t.weight, stack[0].percentTotal, stack[0].substepsTotal), t.substeps);
             Within(rs, Capped(Level(stack)), Top(Level(stack) + share, share))
    ensures var total := Share(t.weight, stack[0].percentTotal, stack[0].substepsTotal);
            var low, high := Capped(Level(stack)), Top(Level(stack) + total, total);
            Within([low] + rs + [high], low, high) && (Rising(rs) ==> Rising([low] + rs + [high]))
  {
    var total := Share(t.weight, stack[0].percentTotal, stack[0].substepsTotal);
    LeafLevel(stack, t, 0, 0.0);
    ShareBounds(w, total, t.substeps);
    Framed(Capped(Level(stack)), rs, Top(Level(stack) + total, total), Top(Level(stack) + total, total));
  }

  /**
   The main result: a well nested tree runs without any abort on every open stack, its
   parent receives exactly the share of the tree, no report exceeds 100, and the
   reports never decrease if the explicit percentages do not.
   */
  lemma {:induction false} TreeRuns(stack: Stack, t: Tree)
    requires Room(stack, t.weight) && WellNested(t)
    ensures GoodRun(stack, t.weight, RunTree(stack, t), Forward(t))
    decreases t
  {
    BeginRun(stack, t);
    if t.substeps == 0 {
      LeafRuns(stack, t);
    } else {
      ForestRuns(Begun(stack, t), t.children);
      InnerRunIs(stack, t);
      InnerBounds(stack, t, Weights(t.children), RunForest(Begun(stack, t), t.children).reports);
    }
  }

  /** A step followed by others is not worth everything, so nothing is reported above 99 before the last. */
  lemma ForestBounds(stack: Stack, w: int, rest: int)
    requires Room(stack, w + rest) && w >= 1 && rest >= 1
    ensures var s := stack[0];
            var a, b, c := Share(w, s.percentTotal, s.substepsTotal), Share(rest, s.percentTotal, s.substepsTotal),
                           Share(w + rest, s.percentTotal, s.substepsTotal);
            && a + b == c && 0.0 <= a < 100.0 && 0.0 <= b < 100.0 && c <= 100.0
  {
    var s := stack[0];
    LevelBound(stack);
    ShareAdd(w, rest, s.percentTotal, s.substepsTotal);
    ShareBounds(w, s.percentTotal, s.substepsTotal);
    ShareBounds(rest, s.percentTotal, s.substepsTotal);
    ShareBounds(w + rest, s.percentTotal, s.substepsTotal);
  }

  lemma RunsCompose(stack: Stack, w: int, rest: int, all: int, a: Run, b: Run, f: bool, g: bool)
    requires all == w + rest && Room(stack, all) && w >= 1 && rest >= 1
    requires GoodRun(stack, w, a, f) && GoodRun(Credited(stack, w), rest, b, g)
    ensures GoodRun(stack, all, Done(b.stack, a.reports + b.reports), f && g)
  {
    var s, s1 := stack[0], Credited(stack, w);
    ForestBounds(stack, w, rest);
    CreditedOpen(stack, w);
    assert Credited(s1, rest) == Credited(stack, w + rest);
    var total := Share(w + rest, s.percentTotal, s.substepsTotal);
    RisingConcat(a.reports, b.reports, Capped(Level(s1)), Capped(Level(stack)), Top(Level(stack) + total, total));
  }

  lemma NoneRuns(stack: Stack)
    requires Room(stack, 0)
    ensures GoodRun(stack, 0, RunForest(stack, []), AllForward([]))
  {
    ShareBounds(0, stack[0].percentTotal, stack[0].substepsTotal);
  }

  lemma ForestUnfolds(stack: Stack, ts: seq<Tree>)
    requires ts != [] && RunTree(stack, ts[0]).Done?
    ensures var a := RunTree(stack, ts[0]);
            var b := RunForest(a.stack, ts[1..]);
            b.Done? ==> RunForest(stack, ts) == Done(b.stack, a.reports + b.reports)
    ensures AllForward(ts) ==> Forward(ts[0]) && AllForward(ts[1..])
  {
  }

  lemma LastRuns(stack: Stack, ts: seq<Tree>)
    requires |ts| == 1 && Room(stack, Weights(ts)) && GoodRun(stack, Weights(ts), RunTree(stack, ts[0]), Forward(ts[0]))
    ensures GoodRun(stack, Weights(ts), RunForest(stack, ts), AllForward(ts))
  {
    ForestUnfolds(stack, ts);
    var a := RunTree(stack, ts[0]);
    assert a.reports + [] == a.reports;
  }

  lemma {:induction false} ForestRuns(stack: Stack, ts: seq<Tree>)
    requires Room(stack, Weights(ts)) && AllNested(ts)
    ensures GoodRun(stack, Weights(ts), RunForest(stack, ts), AllForward(ts))
    decreases ts
  {
    if ts == [] {
      NoneRuns(stack);
    } else {
      var w, rest := ts[0].weight, Weights(ts[1..]);
      WeightsPositive(ts[1..]);
      TreeRuns(stack, ts[0]);
      CreditedOpen(stack, w);
      ForestUnfolds(stack, ts);
      if |ts| == 1 {
        LastRuns(stack, ts);
      } else {
        ForestRuns(Credited(stack, w), ts[1..]);
        RunsCompose(stack, w, rest, Weights(ts), RunTree(stack, ts[0]), RunForest(Credited(stack, w), ts[1..]),
                    Forward(ts[0]), AllForward(ts[1..]));
      }
    }
  }

  // ---- the root step ------------------------------------------------------------------------

  function Root(t: Tree): Stack {
    [Step(t.name, t.weight, t.substeps, 0, 100.0, 0.0, 0)]
  }

  lemma RootOpen(t: Tree)
    requires t.substeps > 0
    ensures Open(Root(t)) && Level(Root(t)) == 0.0
  {
    ShareBounds(0, 100.0, t.substeps);
    assert Root(t)[1..] == [];
  }

  /** A well nested root step runs on an empty stack, reports rising percentages, and ends with 100. */
  lemma RootRuns(t: Tree)
    requires WellNested(t) && t.percents == []
    ensures var r := RunTree([], t);
            && r.Done? && r.stack == []
            && Within(r.reports, 0.0, 100.0)
            && r.reports != [] && r.reports[|r.reports| - 1] == 100.0
            && (Forward(t) ==> Rising(r.reports))
  {
    assert BeginStep([], t.name, t.substeps, t.weight) == Next(Root(t), Some(0.0));
    WeightsPositive(t.children);
    var inner := RunForest(Root(t), t.children);
    if t.substeps > 0 {
      RootOpen(t);
      ForestRuns(Root(t), t.children);
      ShareBounds(Weights(t.children), 100.0, t.substeps);
    }
    Framed(0.0, inner.reports, 100.0, 100.0);
    assert RunTree([], t).reports == [0.0] + [] + inner.reports + [100.0];
    assert [0.0] + [] + inner.reports == [0.0] + inner.reports;
  }

  /** An explicit percentage on the root step aborts. */
  lemma RootPercentAborts(t: Tree)
    requires t.percents != []
    ensures RunTree([], t) == Aborted
  {
  }
}
