/**
 Dispatch over the backends that store their state as named variables. A crash may
 leave any of the environments an operation stores.
 */
module Bootchooser {
  import opened Wrappers
  import opened BootModel
  import Text
  import Grub
  import Uboot
  import Barebox

  type Env = map<string, string>

  datatype Bootloader = GrubLoader | UbootLoader(uboot: Config) | BareboxLoader(barebox: Config)

  /** The environments an operation stores one after the other; none if it fails before storing anything. */
  function Writes(l: Bootloader, env: Env, slots: seq<Slot>, op: BootOp): seq<Env>
    requires Handled(op.slot)
  {
    match l
    case GrubLoader => Grub.Writes(env, slots, op)
    case UbootLoader(c) => Uboot.Writes(c, env, slots, op)
    case BareboxLoader(c) => Barebox.Writes(c, env, slots, op)
  }

  function PrimaryOf(l: Bootloader, env: Env, slots: seq<Slot>): Result<Slot> {
    match l
    case GrubLoader => Grub.PrimaryOf(env, slots)
    case UbootLoader(_) => Uboot.PrimaryOf(env, slots)
    case BareboxLoader(_) => Barebox.PrimaryOf(env, slots)
  }

  function StateOf(l: Bootloader, env: Env, b: string): Result<bool> {
    match l
    case GrubLoader => Grub.StateOf(env, b)
    case UbootLoader(_) => Uboot.StateOf(env, b)
    case BareboxLoader(_) => Barebox.StateOf(env, b)
  }

  ghost function ViewOf(l: Bootloader, env: Env, slots: seq<Slot>): View {
    match l
    case GrubLoader => Grub.ViewOf(env, slots)
    case UbootLoader(_) => Uboot.ViewOf(env, slots)
    case BareboxLoader(_) => Barebox.ViewOf(env, slots)
  }

  /** The abstract view is what the getters report. */
  lemma ViewMeaning(l: Bootloader, env: Env, slots: seq<Slot>, s: Slot)
    requires s in slots && Handled(s) && ValidSlots(slots)
    ensures s.bootname.value in ViewOf(l, env, slots).good <==> StateOf(l, env, s.bootname.value) == Ok(true)
    ensures ViewOf(l, env, slots).primary == s.bootname <==> PrimaryOf(l, env, slots) == Ok(s)
  {
    FindSlotUnique(slots, s);
    if PrimaryOf(l, env, slots).Ok? {
      FindSlotUnique(slots, PrimaryOf(l, env, slots).value);
    }
  }

  lemma ViewWf(l: Bootloader, env: Env, slots: seq<Slot>)
    ensures Wf(ViewOf(l, env, slots))
  {
    match l
    case GrubLoader => Grub.ViewWf(env, slots);
    case UbootLoader(_) => Uboot.ViewWf(env, slots);
    case BareboxLoader(_) => Barebox.ViewWf(Barebox.ReadAll(env, slots), slots);
  }

  lemma NotReported(l: Bootloader, env: Env, slots: seq<Slot>, s: Slot)
    requires s in slots && Handled(s) && ValidSlots(slots)
    requires s.bootname.value !in ViewOf(l, env, slots).good && ViewOf(l, env, slots).primary != s.bootname
    ensures StateOf(l, env, s.bootname.value) != Ok(true) && PrimaryOf(l, env, slots) != Ok(s)
  {
    ViewMeaning(l, env, slots, s);
  }

  /** All three backends refine the one abstract machine, write by write and for any iteration order. */
  lemma Refines(l: Bootloader, env: Env, slots: seq<Slot>, order: seq<Slot>, op: BootOp, i: nat)
    requires ValidSlots(slots) && ValidSlots(order) && SameSlots(slots, order)
    requires op.slot in slots && Handled(op.slot)
    requires i < |Writes(l, env, order, op)|
    ensures var ws := Writes(l, env, order, op);
            && Wf(ViewOf(l, env, slots)) && Wf(ViewOf(l, ws[i], slots))
            && AbstractWrite(ViewOf(l, env, slots), op, ViewOf(l, ws[i], slots), i == |ws| - 1)
  {
    match l
    case GrubLoader => Grub.Refines(env, slots, order, op);
    case UbootLoader(c) => Uboot.Refines(c, env, slots, order, op, i);
    case BareboxLoader(c) => Barebox.Refines(c, env, slots, order, op, i);
  }

  /** set_state changes what get_state reports, errors included, of no other slot, at any of its writes. */
  lemma OthersKeepState(l: Bootloader, env: Env, slots: seq<Slot>, slot: Slot, good: bool, i: nat, other: Slot)
    requires ValidSlots(slots) && slot in slots && Handled(slot) && other in slots && Handled(other) && other != slot
    requires i < |Writes(l, env, slots, MarkState(slot, good))|
    ensures StateOf(l, Writes(l, env, slots, MarkState(slot, good))[i], other.bootname.value) ==
              StateOf(l, env, other.bootname.value)
  {
    var b, c := slot.bootname.value, other.bootname.value;
    FindSlotUnique(slots, slot);
    FindSlotUnique(slots, other);
    match l
    case GrubLoader => Grub.OthersKeepState(env, b, good, c);
    case UbootLoader(config) => Uboot.OthersKeepState(config, env, b, good, i, c);
    case BareboxLoader(config) => Barebox.OthersKeepState(config, env, b, good, c);
  }

  /** set_primary followed by get_primary, through any of these backends. */
  lemma SetPrimaryThenGet(l: Bootloader, env: Env, setterOrder: seq<Slot>, getterOrder: seq<Slot>, slot: Slot)
    requires ValidSlots(setterOrder) && ValidSlots(getterOrder) && SameSlots(setterOrder, getterOrder)
    requires slot in setterOrder && Handled(slot)
    requires Writes(l, env, setterOrder, MakePrimary(slot)) != []
    ensures var ws := Writes(l, env, setterOrder, MakePrimary(slot));
            PrimaryOf(l, ws[|ws| - 1], getterOrder) == Ok(slot)
  {
    var ws := Writes(l, env, setterOrder, MakePrimary(slot));
    Refines(l, env, getterOrder, setterOrder, MakePrimary(slot), |ws| - 1);
    ViewMeaning(l, ws[|ws| - 1], getterOrder, slot);
  }

  // ---- the bootloader's own steps ------------------------------------------------------

  /** The bootloader has used up the attempts of a slot: GRUB knows a single one. */
  function UsedUp(l: Bootloader, env: Env, b: string): Env {
    match l
    case GrubLoader => env[b + "_TRY" := "1"]
    case UbootLoader(_) => env["BOOT_" + b + "_LEFT" := "0"]
    case BareboxLoader(_) => env["bootstate." + b + ".remaining_attempts" := "0"]
  }

  lemma UsedUpIsDisabled(l: Bootloader, env: Env, slots: seq<Slot>, slot: Slot)
    requires slot in slots && Handled(slot)
    ensures slot.bootname.value in ViewOf(l, UsedUp(l, env, slot.bootname.value), slots).disabled
  {
    match l
    case GrubLoader => Grub.TriedIsDisabled(env, slots, slot);
    case UbootLoader(_) => Uboot.SpentIsDisabled(env, slots, slot);
    case BareboxLoader(_) => Barebox.SpentIsDisabled(env, slots, slot);
  }

  // ---- whole runs ------------------------------------------------------------------

  /** Successively stored environments: each operation may be cut short after any of its writes. */
  ghost predicate EnvRun(l: Bootloader, slots: seq<Slot>, envs: seq<Env>, ops: seq<BootOp>) {
    && |envs| == |ops| + 1
    && (forall i :: 0 <= i < |ops| ==> Handled(ops[i].slot) && ops[i].slot in slots)
    && (forall i :: 0 <= i < |ops| ==> envs[i + 1] in Writes(l, envs[i], slots, ops[i]))
  }

  ghost function Views(l: Bootloader, slots: seq<Slot>, envs: seq<Env>): (vs: seq<View>)
    ensures |vs| == |envs| && forall i :: 0 <= i < |vs| ==> vs[i] == ViewOf(l, envs[i], slots)
  {
    seq(|envs|, i requires 0 <= i < |envs| => ViewOf(l, envs[i], slots))
  }

  lemma StepIsAbstract(l: Bootloader, slots: seq<Slot>, env: Env, op: BootOp, env': Env)
    requires ValidSlots(slots) && Handled(op.slot) && op.slot in slots
    requires env' in Writes(l, env, slots, op)
    ensures Wf(ViewOf(l, env, slots)) && Wf(ViewOf(l, env', slots))
    ensures var v, w := ViewOf(l, env, slots), ViewOf(l, env', slots);
            AbstractWrite(v, op, w, true) || AbstractWrite(v, op, w, false)
  {
    var ws := Writes(l, env, slots, op);
    var k :| 0 <= k < |ws| && ws[k] == env';
    Refines(l, env, slots, slots, op, k);
  }

  lemma RunIsAbstract(l: Bootloader, slots: seq<Slot>, envs: seq<Env>, ops: seq<BootOp>)
    requires ValidSlots(slots) && EnvRun(l, slots, envs, ops) && ops != []
    ensures AbstractRun(Views(l, slots, envs), ops)
  {
    var vs := Views(l, slots, envs);
    forall i | 0 <= i < |ops|
      ensures Wf(vs[i])
      ensures AbstractWrite(vs[i], ops[i], vs[i + 1], true) || AbstractWrite(vs[i], ops[i], vs[i + 1], false)
    {
      StepIsAbstract(l, slots, envs[i], ops[i], envs[i + 1]);
    }
    var n := |ops| - 1;
    StepIsAbstract(l, slots, envs[n], ops[n], envs[n + 1]);
  }

  /**
   Once one write of marking the slot bad is stored, the slot is reported neither good
   nor primary in any later environment, until it is itself marked good or made primary.
   */
  lemma MarkedBadStaysBad(l: Bootloader, slots: seq<Slot>, envs: seq<Env>, ops: seq<BootOp>, slot: Slot, i: nat)
    requires ValidSlots(slots) && EnvRun(l, slots, envs, ops) && ops != []
    requires ops[0] == MarkState(slot, false)
    requires forall k :: 1 <= k < |ops| && ops[k] != MarkState(ops[k].slot, false) ==>
               ops[k].slot.bootname != slot.bootname
    requires 1 <= i < |envs|
    ensures StateOf(l, envs[i], slot.bootname.value) != Ok(true) && PrimaryOf(l, envs[i], slots) != Ok(slot)
  {
    RunIsAbstract(l, slots, envs, ops);
    BadAfterMarking(Views(l, slots, envs), ops, slot.bootname.value, i);
    NotReported(l, envs[i], slots, slot);
  }

  /**
   A slot whose attempts are used up is reported neither good nor primary, at once and in
   any later environment, until it is itself marked good or made primary.
   */
  lemma UsedUpStaysDown(l: Bootloader, slots: seq<Slot>, env: Env, envs: seq<Env>, ops: seq<BootOp>, slot: Slot, i: nat)
    requires ValidSlots(slots) && slot in slots && Handled(slot) && EnvRun(l, slots, envs, ops)
    requires envs[0] == UsedUp(l, env, slot.bootname.value)
    requires forall k :: 0 <= k < |ops| && ops[k] != MarkState(ops[k].slot, false) ==> ops[k].slot.bootname != slot.bootname
    requires i < |envs|
    ensures StateOf(l, envs[i], slot.bootname.value) != Ok(true) && PrimaryOf(l, envs[i], slots) != Ok(slot)
  {
    UsedUpIsDisabled(l, env, slots, slot);
    if ops == [] {
      ViewWf(l, envs[0], slots);
    } else {
      RunIsAbstract(l, slots, envs, ops);
      BadStaysBad(Views(l, slots, envs), ops, slot.bootname.value, i);
    }
    NotReported(l, envs[i], slots, slot);
  }

  lemma RetiredOnceBad(l: Bootloader, slots: seq<Slot>, env: Env, slot: Slot, next: Env)
    requires ValidSlots(slots) && slot in slots && Handled(slot)
    requires l.BareboxLoader? || (l.UbootLoader? && Uboot.ORDER in env)
    requires next in Writes(l, env, slots, MarkState(slot, false))
    ensures slot.bootname.value in ViewOf(l, next, slots).retired
  {
    var op := MarkState(slot, false);
    var ws := Writes(l, env, slots, op);
    var k :| 0 <= k < |ws| && ws[k] == next;
    if l.BareboxLoader? {
      Barebox.Refines(l.barebox, env, slots, slots, op, k);
    } else {
      Uboot.Refines(l.uboot, env, slots, slots, op, k);
    }
  }

  /**
   With barebox, and with U-Boot while the boot order can be read, even marking the
   slot good again does not bring it back: only making it primary does.
   */
  lemma OnlySetPrimaryRevives(l: Bootloader, slots: seq<Slot>, envs: seq<Env>, ops: seq<BootOp>, slot: Slot, i: nat)
    requires ValidSlots(slots) && EnvRun(l, slots, envs, ops) && ops != []
    requires ops[0] == MarkState(slot, false)
    requires l.BareboxLoader? || (l.UbootLoader? && Uboot.ORDER in envs[0])
    requires forall k :: 1 <= k < |ops| && ops[k].MakePrimary? ==> ops[k].slot.bootname != slot.bootname
    requires 1 <= i < |envs|
    ensures StateOf(l, envs[i], slot.bootname.value) != Ok(true) && PrimaryOf(l, envs[i], slots) != Ok(slot)
  {
    RunIsAbstract(l, slots, envs, ops);
    RetiredOnceBad(l, slots, envs[0], slot, envs[1]);
    RetiredAfterMarking(Views(l, slots, envs), ops, slot.bootname.value, i);
    NotReported(l, envs[i], slots, slot);
  }

  /** With GRUB a slot marked bad and then good again is good: marking good is enough there. */
  lemma GrubMarkGoodRevives()
    ensures var a := Slot("rootfs.0", Some("A"));
            var env := map["ORDER" := "A", "A_OK" := "1", "A_TRY" := "0"];
            var bad := Grub.AfterState(env, "A", false);
            StateOf(GrubLoader, bad, "A") == Ok(false)
                && StateOf(GrubLoader, Grub.AfterState(bad, "A", true), "A") == Ok(true)
  {
    var env := map["ORDER" := "A", "A_OK" := "1", "A_TRY" := "0"];
    assert Grub.OkKey("A") == "A_OK" && Grub.TryKey("A") == "A_TRY";
    Text.PiecesOfFirst("A", ' ', "");
    Grub.AfterStateFlags(env, "A", false, "A");
    Grub.AfterStateFlags(Grub.AfterState(env, "A", false), "A", true, "A");
  }
}
