/**
 The slots known to the boot selection, and the abstract machine that every
 bootloader backend implements.

 The abstract machine sees only what the getters report: the primary slot, the
 slots reported good, the slots that operations on other slots cannot turn good
 (`disabled`), and among them the ones that even marking them good does not
 bring back (`retired`).
 */
module BootModel {
  import opened Wrappers
  import opened Text

  // ---- slots -----------------------------------------------------------------

  datatype Slot = Slot(name: string, bootname: Option<string>)

  predicate Handled(s: Slot) {
    s.bootname.Some?
  }

  /** What the system configuration parser guarantees about names and bootnames. */
  ghost predicate ValidSlots(slots: seq<Slot>) {
    && (forall i :: 0 <= i < |slots| && Handled(slots[i]) ==>
          slots[i].bootname.value != "" && ' ' !in slots[i].bootname.value)
    && (forall i, j :: 0 <= i < j < |slots| ==> slots[i].name != slots[j].name)
    && (forall i, j :: 0 <= i < j < |slots| && Handled(slots[i]) ==> slots[i].bootname != slots[j].bootname)
  }

  /** Two iterations over one hash table see the same slots, in any order. */
  ghost predicate SameSlots(a: seq<Slot>, b: seq<Slot>) {
    forall s :: s in a <==> s in b
  }

  /** The first slot in iteration order with this bootname. */
  function FindSlot(slots: seq<Slot>, b: string): (r: Option<Slot>)
    ensures r.Some? ==> r.value in slots && r.value.bootname == Some(b)
    ensures r.None? ==> forall s :: s in slots ==> s.bootname != Some(b)
  {
    if slots == [] then None
    else if slots[0].bootname == Some(b) then Some(slots[0])
    else FindSlot(slots[1..], b)
  }

  lemma FindSlotUnique(slots: seq<Slot>, s: Slot)
    requires ValidSlots(slots) && s in slots && Handled(s)
    ensures FindSlot(slots, s.bootname.value) == Some(s)
  {
    var r := FindSlot(slots, s.bootname.value);
    var i :| 0 <= i < |slots| && slots[i] == s;
    var j :| 0 <= j < |slots| && slots[j] == r.value;
    assert slots[i].bootname == slots[j].bootname;
    assert i == j;
  }

  /** Bootnames of all handled slots but this one, in iteration order. */
  function OtherBootnames(slots: seq<Slot>, slot: Slot): (r: seq<string>)
    ensures forall b :: b in r <==> exists s :: s in slots && s != slot && s.bootname == Some(b)
  {
    if slots == [] then []
    else
      var rest := OtherBootnames(slots[1..], slot);
      assert forall s :: s in slots <==> s == slots[0] || s in slots[1..];
      if slots[0] != slot && Handled(slots[0]) then [slots[0].bootname.value] + rest else rest
  }

  lemma {:induction false} OtherBootnamesSnoc(slots: seq<Slot>, s: Slot, slot: Slot)
    ensures OtherBootnames(slots + [s], slot) ==
            OtherBootnames(slots, slot) + if s != slot && Handled(s) then [s.bootname.value] else []
  {
    if slots == [] {
      assert [s][1..] == [];
    } else {
      assert (slots + [s])[1..] == slots[1..] + [s];
      OtherBootnamesSnoc(slots[1..], s, slot);
    }
  }

  /** The default boot order: the given slot first, then all others. */
  function PrimaryFirst(slots: seq<Slot>, slot: Slot): seq<string>
    requires Handled(slot)
  {
    [slot.bootname.value] + OtherBootnames(slots, slot)
  }

  lemma OrderSnoc(slots: seq<Slot>, s: Slot, slot: Slot)
    requires Handled(slot)
    ensures var order := Join(PrimaryFirst(slots, slot), ' ');
            Join(PrimaryFirst(slots + [s], slot), ' ') ==
            if s == slot || !Handled(s) then order else order + [' '] + s.bootname.value
  {
    OtherBootnamesSnoc(slots, s, slot);
    if s == slot || !Handled(s) {
      assert PrimaryFirst(slots + [s], slot) == PrimaryFirst(slots, slot);
    } else {
      assert PrimaryFirst(slots + [s], slot) == PrimaryFirst(slots, slot) + [s.bootname.value];
      JoinSnoc(PrimaryFirst(slots, slot), s.bootname.value, ' ');
    }
  }

  method BootchooserOrderPrimary(slots: seq<Slot>, slot: Slot) returns (order: string)
    requires Handled(slot)
    ensures order == Join(PrimaryFirst(slots, slot), ' ')
  {
    order := slot.bootname.value;
    assert PrimaryFirst([], slot) == [slot.bootname.value];
    for i := 0 to |slots|
      invariant order == Join(PrimaryFirst(slots[..i], slot), ' ')
    {
      var s := slots[i];
      assert slots[..i + 1] == slots[..i] + [s];
      OrderSnoc(slots[..i], s, slot);
      if s == slot {
        continue;
      }
      if !Handled(s) {
        continue;
      }
      order := order + [' '] + s.bootname.value;
    }
    assert slots[..|slots|] == slots;
  }

  lemma PrimaryFirstSplits(slots: seq<Slot>, slot: Slot)
    requires ValidSlots(slots) && slot in slots && Handled(slot)
    ensures Split(Join(PrimaryFirst(slots, slot), ' '), ' ') == PrimaryFirst(slots, slot)
    ensures forall s :: s in slots && Handled(s) ==> s.bootname.value in PrimaryFirst(slots, slot)
  {
    forall x | x in PrimaryFirst(slots, slot)
      ensures x != "" && ' ' !in x
    {
      var s :| s in slots && s.bootname == Some(x);
    }
    SplitOfJoin(PrimaryFirst(slots, slot), ' ');
  }

  // ---- attempts ------------------------------------------------------------------

  /** Configured attempt counters of the backends that count attempts; values below one select the default. */
  type Attempts = x: int | -0x8000_0000 <= x < 0x8000_0000

  datatype Config = Config(defaultAttempts: Attempts, primaryAttempts: Attempts)

  const DEFAULT_ATTEMPTS: Attempts := 3
  const ATTEMPTS_PRIMARY: Attempts := 3

  function OnGood(c: Config): (n: nat)
    ensures 0 < n < 0x8000_0000
  {
    if c.defaultAttempts <= 0 then DEFAULT_ATTEMPTS else c.defaultAttempts
  }

  function OnPrimary(c: Config): (n: nat)
    ensures 0 < n < 0x8000_0000
  {
    if c.primaryAttempts <= 0 then ATTEMPTS_PRIMARY else c.primaryAttempts
  }

  /** Three attempts unless a positive number is configured. */
  lemma DefaultIsThree(c: Config)
    ensures OnGood(c) == if c.defaultAttempts > 0 then c.defaultAttempts else 3
    ensures OnPrimary(c) == if c.primaryAttempts > 0 then c.primaryAttempts else 3
  {
  }

  // ---- the abstract boot-selection machine -------------------------------------

  datatype View = View(primary: Option<string>, good: set<string>, disabled: set<string>, retired: set<string>)

  ghost predicate Wf(v: View) {
    && (v.primary.Some? ==> v.primary.value in v.good)
    && v.disabled !! v.good
    && v.retired <= v.disabled
  }

  datatype BootOp = MarkState(slot: Slot, good: bool) | MakePrimary(slot: Slot)

  /** Marking b bad: b is no longer good nor primary, everybody else is as before. */
  ghost predicate MarkedBad(v: View, b: string, w: View) {
    && w.good == v.good - {b}
    && (v.primary.Some? && v.primary != Some(b) ==> w.primary == v.primary)
    && v.disabled + {b} <= w.disabled
    && v.retired <= w.retired
  }

  /**
   Marking b good: nobody else changes, and a retired b stays what it was. The first of two
   writes that make b primary is no more than that.
   */
  ghost predicate MarkedGood(v: View, b: string, w: View) {
    && v.good <= w.good <= v.good + {b}
    && (v.primary.Some? ==> w.primary == v.primary || w.primary == Some(b))
    && v.disabled - {b} <= w.disabled
    && v.retired <= w.retired
  }

  /** Making b primary: b is primary and good, nobody turns bad, the disabled others stay disabled. */
  ghost predicate MadePrimary(v: View, b: string, w: View) {
    && w.primary == Some(b)
    && v.good + {b} <= w.good
    && v.disabled - {b} <= w.disabled
    && v.retired - {b} <= w.retired
  }

  /** One stored write of an operation; `last` tells the write that completes it. */
  ghost predicate AbstractWrite(v: View, op: BootOp, w: View, last: bool)
    requires Handled(op.slot)
  {
    var b := op.slot.bootname.value;
    match op
    case MarkState(_, false) => MarkedBad(v, b, w)
    case MarkState(_, true) => MarkedGood(v, b, w)
    case MakePrimary(_) => if last then MadePrimary(v, b, w) else MarkedGood(v, b, w)
  }

  /** A run of the abstract machine; any operation may be cut short after any of its writes. */
  ghost predicate AbstractRun(vs: seq<View>, ops: seq<BootOp>) {
    && |vs| == |ops| + 1
    && (forall i :: 0 <= i < |vs| ==> Wf(vs[i]))
    && (forall i :: 0 <= i < |ops| ==> Handled(ops[i].slot))
    && (forall i :: 0 <= i < |ops| ==>
          AbstractWrite(vs[i], ops[i], vs[i + 1], true) || AbstractWrite(vs[i], ops[i], vs[i + 1], false))
  }

  /** A slot marked bad stays bad, and is never primary, under operations on other slots. */
  lemma {:induction false} BadStaysBad(vs: seq<View>, ops: seq<BootOp>, b: string, i: nat)
    requires AbstractRun(vs, ops)
    requires b in vs[0].disabled
    requires forall k :: 0 <= k < |ops| && ops[k] != MarkState(ops[k].slot, false) ==> ops[k].slot.bootname.value != b
    requires i < |vs|
    ensures b in vs[i].disabled && b !in vs[i].good && vs[i].primary != Some(b)
  {
    if i > 0 {
      BadStaysBad(vs, ops, b, i - 1);
      var op := ops[i - 1];
      assert AbstractWrite(vs[i - 1], op, vs[i], true) || AbstractWrite(vs[i - 1], op, vs[i], false);
    }
    assert Wf(vs[i]);
  }

  /** A retired slot comes back only by being made primary. */
  lemma {:induction false} RetiredUntilMadePrimary(vs: seq<View>, ops: seq<BootOp>, b: string, i: nat)
    requires AbstractRun(vs, ops)
    requires b in vs[0].retired
    requires forall k :: 0 <= k < |ops| && ops[k].MakePrimary? ==> ops[k].slot.bootname.value != b
    requires i < |vs|
    ensures b in vs[i].retired && b !in vs[i].good && vs[i].primary != Some(b)
  {
    if i > 0 {
      RetiredUntilMadePrimary(vs, ops, b, i - 1);
      var op := ops[i - 1];
      assert AbstractWrite(vs[i - 1], op, vs[i], true) || AbstractWrite(vs[i - 1], op, vs[i], false);
    }
    assert Wf(vs[i]);
  }

  /** A good slot stays good as long as nobody marks it bad. */
  lemma {:induction false} GoodStaysGood(vs: seq<View>, ops: seq<BootOp>, b: string, i: nat)
    requires AbstractRun(vs, ops)
    requires b in vs[0].good
    requires forall k :: 0 <= k < |ops| && ops[k] == MarkState(ops[k].slot, false) ==> ops[k].slot.bootname.value != b
    requires i < |vs|
    ensures b in vs[i].good
  {
    if i > 0 {
      GoodStaysGood(vs, ops, b, i - 1);
      var op := ops[i - 1];
      assert AbstractWrite(vs[i - 1], op, vs[i], true) || AbstractWrite(vs[i - 1], op, vs[i], false);
    }
  }

  /** The rest of a run after its first write is a run. */
  lemma RestOfRun(vs: seq<View>, ops: seq<BootOp>)
    requires AbstractRun(vs, ops) && ops != []
    ensures AbstractRun(vs[1..], ops[1..])
    ensures AbstractWrite(vs[0], ops[0], vs[1], true) || AbstractWrite(vs[0], ops[0], vs[1], false)
  {
    forall i | 0 <= i < |ops[1..]|
      ensures AbstractWrite(vs[1..][i], ops[1..][i], vs[1..][i + 1], true)
                || AbstractWrite(vs[1..][i], ops[1..][i], vs[1..][i + 1], false)
    {
      assert vs[1..][i] == vs[i + 1] && ops[1..][i] == ops[i + 1] && vs[1..][i + 1] == vs[i + 2];
    }
  }

  /** A run that starts with marking the slot bad: unless marked good or made primary later, it stays bad. */
  lemma BadAfterMarking(vs: seq<View>, ops: seq<BootOp>, b: string, i: nat)
    requires AbstractRun(vs, ops) && ops != [] && 1 <= i < |vs|
    requires ops[0] == MarkState(ops[0].slot, false) && ops[0].slot.bootname.value == b
    requires forall k :: 1 <= k < |ops| && ops[k] != MarkState(ops[k].slot, false) ==> ops[k].slot.bootname.value != b
    ensures b !in vs[i].good && vs[i].primary != Some(b)
  {
    RestOfRun(vs, ops);
    BadStaysBad(vs[1..], ops[1..], b, i - 1);
  }

  lemma RetiredAfterMarking(vs: seq<View>, ops: seq<BootOp>, b: string, i: nat)
    requires AbstractRun(vs, ops) && ops != [] && 1 <= i < |vs| && b in vs[1].retired
    requires forall k :: 1 <= k < |ops| && ops[k].MakePrimary? ==> ops[k].slot.bootname.value != b
    ensures b !in vs[i].good && vs[i].primary != Some(b)
  {
    RestOfRun(vs, ops);
    RetiredUntilMadePrimary(vs[1..], ops[1..], b, i - 1);
  }
}
