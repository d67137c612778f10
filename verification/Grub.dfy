/**
 The GRUB backend: variables ORDER, <bootname>_OK and <bootname>_TRY in one
 environment block. Every setter stores all its variables with one call of the
 environment tool, so the block changes in one write.
 */
module Grub {
  import opened Wrappers
  import opened Text
  import opened BootModel

  type Env = map<string, string>

  const ORDER := "ORDER"

  function OkKey(b: string): string { b + "_OK" }

  function TryKey(b: string): string { b + "_TRY" }

  lemma KeysApart(b: string, c: string)
    ensures OkKey(b) != TryKey(c) && OkKey(b) != ORDER && TryKey(b) != ORDER
    ensures b != c ==> OkKey(b) != OkKey(c) && TryKey(b) != TryKey(c)
  {
    assert OkKey(b)[|OkKey(b)| - 1] == 'K' && TryKey(c)[|TryKey(c)| - 1] == 'Y' && TryKey(b)[|TryKey(b)| - 1] == 'Y';
    assert ORDER[|ORDER| - 1] == 'R';
    assert OkKey(b)[..|OkKey(b)| - 3] == b && OkKey(c)[..|OkKey(c)| - 3] == c;
    assert TryKey(b)[..|TryKey(b)| - 4] == b && TryKey(c)[..|TryKey(c)| - 4] == c;
  }

  // ---- what the getters report -------------------------------------------------

  predicate HasFlags(env: Env, b: string) {
    OkKey(b) in env && TryKey(b) in env
  }

  predicate FlagsGood(env: Env, b: string)
    requires HasFlags(env, b)
  {
    Strtoull(env[OkKey(b)], 0).value == 1 && Strtoull(env[TryKey(b)], 0).value == 0
  }

  function StateOf(env: Env, b: string): Result<bool> {
    if ORDER !in env then Err
    else if b !in Split(env[ORDER], ' ') then Ok(false)
    else if !HasFlags(env, b) then Err
    else Ok(FlagsGood(env, b))
  }

  /** Scans boot order names for the first configured slot with good flags. */
  function FirstGood(env: Env, slots: seq<Slot>, names: seq<string>): (r: Result<Slot>)
    ensures r.Ok? ==> r.value in slots && Handled(r.value)
  {
    if names == [] then Err
    else match FindSlot(slots, names[0])
      case None => FirstGood(env, slots, names[1..])
      case Some(s) =>
        if !HasFlags(env, names[0]) then Err
        else if FlagsGood(env, names[0]) then Ok(s)
        else FirstGood(env, slots, names[1..])
  }

  function PrimaryOf(env: Env, slots: seq<Slot>): (r: Result<Slot>)
    ensures r.Ok? ==> r.value in slots && Handled(r.value)
  {
    if ORDER !in env then Err else FirstGood(env, slots, Split(env[ORDER], ' '))
  }

  /** Both variables of the slot are there. */
  ghost predicate IsStored(env: Env, b: string) {
    b + "_OK" in env && b + "_TRY" in env
  }

  /** The slot works, and it is not being tried. */
  ghost predicate Works(env: Env, b: string) {
    IsStored(env, b) && Strtoull(env[b + "_OK"], 0).value == 1 && Strtoull(env[b + "_TRY"], 0).value == 0
  }

  /** What is reported of a slot, told from the variables. */
  lemma StateMeaning(env: Env, b: string)
    ensures StateOf(env, b) == Ok(true) <==> "ORDER" in env && b in Split(env["ORDER"], ' ') && Works(env, b)
    ensures StateOf(env, b) == Err <==> "ORDER" !in env || (b in Split(env["ORDER"], ' ') && !IsStored(env, b))
  {
  }

  /** The name at position i works, and all configured slots listed before it are readable and do not. */
  ghost predicate FirstGoodAt(env: Env, slots: seq<Slot>, names: seq<string>, i: nat)
    requires i < |names|
  {
    && Works(env, names[i])
    && forall j :: 0 <= j < i && FindSlot(slots, names[j]).Some? ==> IsStored(env, names[j]) && !Works(env, names[j])
  }

  /** What is reported as primary, told from the variables. */
  lemma PrimaryMeaning(env: Env, slots: seq<Slot>, s: Slot)
    requires ValidSlots(slots)
    ensures PrimaryOf(env, slots) == Ok(s) <==>
            && "ORDER" in env && s in slots && Handled(s)
            && var names := Split(env["ORDER"], ' ');
               exists i :: 0 <= i < |names| && names[i] == s.bootname.value && FirstGoodAt(env, slots, names, i)
  {
    if ORDER in env {
      FirstGoodMeaning(env, slots, Split(env[ORDER], ' '), s);
    }
  }

  /** The primary slot is the first good one. */
  lemma FirstGoodMeaning(env: Env, slots: seq<Slot>, names: seq<string>, s: Slot)
    requires ValidSlots(slots)
    ensures FirstGood(env, slots, names) == Ok(s) <==>
            && s in slots && Handled(s)
            && exists i :: 0 <= i < |names| && names[i] == s.bootname.value && FirstGoodAt(env, slots, names, i)
  {
    if FirstGood(env, slots, names) == Ok(s) {
      var i := FirstGoodIsAt(env, slots, names, s);
    }
    if s in slots && Handled(s) {
      if i :| 0 <= i < |names| && names[i] == s.bootname.value && FirstGoodAt(env, slots, names, i) {
        FirstGoodIs(env, slots, names, s, i);
      }
    }
  }

  lemma {:induction false} FirstGoodIsAt(env: Env, slots: seq<Slot>, names: seq<string>, s: Slot) returns (i: nat)
    requires FirstGood(env, slots, names) == Ok(s)
    ensures i < |names| && s.bootname == Some(names[i]) && FirstGoodAt(env, slots, names, i)
    decreases |names|
  {
    if FindSlot(slots, names[0]) == Some(s) && HasFlags(env, names[0]) && FlagsGood(env, names[0]) {
      i := 0;
    } else {
      var k := FirstGoodIsAt(env, slots, names[1..], s);
      i := k + 1;
      assert forall j :: 1 <= j < i ==> names[j] == names[1..][j - 1];
    }
  }

  lemma {:induction false} FirstGoodIs(env: Env, slots: seq<Slot>, names: seq<string>, s: Slot, i: nat)
    requires ValidSlots(slots) && s in slots && Handled(s)
    requires i < |names| && names[i] == s.bootname.value && FirstGoodAt(env, slots, names, i)
    ensures FirstGood(env, slots, names) == Ok(s)
    decreases i
  {
    FindSlotUnique(slots, s);
    if i > 0 {
      assert forall j :: 0 <= j < i ==> names[1..][j] == names[j + 1];
      FirstGoodIs(env, slots, names[1..], s, i - 1);
    }
  }

  // ---- what the setters store --------------------------------------------------

  function AfterState(env: Env, b: string, good: bool): Env {
    env[OkKey(b) := if good then "1" else "0"][TryKey(b) := "0"]
  }

  function AfterPrimary(env: Env, slots: seq<Slot>, slot: Slot): Env
    requires Handled(slot)
  {
    env[OkKey(slot.bootname.value) := "1"][TryKey(slot.bootname.value) := "0"][ORDER := Join(PrimaryFirst(slots, slot), ' ')]
  }

  /** The environments stored by an operation, one for each write. */
  function Writes(env: Env, slots: seq<Slot>, op: BootOp): (ws: seq<Env>)
    requires Handled(op.slot)
  {
    match op
    case MarkState(s, good) => [AfterState(env, s.bootname.value, good)]
    case MakePrimary(s) => [AfterPrimary(env, slots, s)]
  }

  // ---- refinement of the abstract machine ----------------------------------------

  /** Bad by a stored flag, whatever the boot order says. */
  predicate Disabled(env: Env, b: string) {
    || (OkKey(b) in env && Strtoull(env[OkKey(b)], 0).value != 1)
    || (TryKey(b) in env && Strtoull(env[TryKey(b)], 0).value != 0)
  }

  ghost function ViewOf(env: Env, slots: seq<Slot>): View {
    View(
      match PrimaryOf(env, slots) case Ok(s) => s.bootname case Err => None,
      set s | s in slots && Handled(s) && StateOf(env, s.bootname.value) == Ok(true) :: s.bootname.value,
      set s | s in slots && Handled(s) && Disabled(env, s.bootname.value) :: s.bootname.value,
      {})
  }

  lemma {:induction false} FirstGoodIsGood(env: Env, slots: seq<Slot>, names: seq<string>)
    ensures FirstGood(env, slots, names).Ok? ==>
            var b := FirstGood(env, slots, names).value.bootname.value;
            b in names && HasFlags(env, b) && FlagsGood(env, b)
  {
    if names != [] {
      FirstGoodIsGood(env, slots, names[1..]);
    }
  }

  lemma ViewWf(env: Env, slots: seq<Slot>)
    ensures Wf(ViewOf(env, slots))
  {
    if ORDER in env {
      FirstGoodIsGood(env, slots, Split(env[ORDER], ' '));
    }
  }

  /** Both "1" and "0" read back as themselves. */
  lemma FlagValues()
    ensures Strtoull("1", 0).value == 1 && Strtoull("0", 0).value == 0
  {
    assert Accumulate("1", 10, 0) == Accumulate("", 10, 1);
    assert Accumulate("0", 8, 0) == Accumulate("", 8, 0);
  }

  lemma AfterStateFlags(env: Env, b: string, good: bool, c: string)
    ensures var w := AfterState(env, b, good);
            && (c == b ==> HasFlags(w, c) && FlagsGood(w, c) == good && Disabled(w, c) == !good)
            && (c != b ==> HasFlags(w, c) == HasFlags(env, c) && Disabled(w, c) == Disabled(env, c))
            && (c != b && HasFlags(env, c) ==> FlagsGood(w, c) == FlagsGood(env, c))
            && (ORDER in w <==> ORDER in env) && (ORDER in env ==> w[ORDER] == env[ORDER])
  {
    KeysApart(b, c);
    KeysApart(c, b);
    FlagValues();
  }

  /** Marking a slot changes what is reported of no other slot. */
  lemma OthersKeepState(env: Env, b: string, good: bool, other: string)
    requires other != b
    ensures StateOf(AfterState(env, b, good), other) == StateOf(env, other)
  {
    AfterStateFlags(env, b, good, other);
  }

  lemma {:induction false} FirstGoodAfterState(env: Env, slots: seq<Slot>, names: seq<string>, b: string, good: bool)
    ensures var r, w := FirstGood(env, slots, names), FirstGood(AfterState(env, b, good), slots, names);
            r.Ok? ==>
              && (!good && r.value.bootname != Some(b) ==> w == r)
              && (good ==> w == r || (w.Ok? && w.value.bootname == Some(b)))
  {
    if names != [] {
      AfterStateFlags(env, b, good, names[0]);
      FirstGoodAfterState(env, slots, names[1..], b, good);
    }
  }

  lemma RefinesMarkState(env: Env, slots: seq<Slot>, slot: Slot, good: bool)
    requires slot in slots && Handled(slot)
    ensures var w := AfterState(env, slot.bootname.value, good);
            AbstractWrite(ViewOf(env, slots), MarkState(slot, good), ViewOf(w, slots), true)
  {
    var b := slot.bootname.value;
    var w := AfterState(env, b, good);
    forall c
      ensures c != b ==> StateOf(w, c) == StateOf(env, c) && Disabled(w, c) == Disabled(env, c)
      ensures c == b ==> (StateOf(w, c) == Ok(true) ==> good) && Disabled(w, c) == !good
    {
      AfterStateFlags(env, b, good, c);
    }
    AfterStateFlags(env, b, good, b);
    if ORDER in env {
      FirstGoodAfterState(env, slots, Split(env[ORDER], ' '), b, good);
    }
    if !good {
      assert ViewOf(w, slots).good == ViewOf(env, slots).good - {b};
    }
  }

  lemma AfterPrimaryFlags(env: Env, slots: seq<Slot>, slot: Slot, c: string)
    requires Handled(slot)
    ensures var w, b := AfterPrimary(env, slots, slot), slot.bootname.value;
            && (c == b ==> HasFlags(w, c) && FlagsGood(w, c))
            && (c != b ==> HasFlags(w, c) == HasFlags(env, c) && Disabled(w, c) == Disabled(env, c))
            && (c != b && HasFlags(env, c) ==> FlagsGood(w, c) == FlagsGood(env, c))
  {
    var b := slot.bootname.value;
    AfterStateFlags(env, b, true, c);
    KeysApart(b, c);
    KeysApart(c, b);
  }

  /** get_primary after set_primary, for any two iteration orders of the slot table. */
  lemma SetPrimaryThenGet(env: Env, setterOrder: seq<Slot>, getterOrder: seq<Slot>, slot: Slot)
    requires ValidSlots(setterOrder) && ValidSlots(getterOrder) && SameSlots(setterOrder, getterOrder)
    requires slot in setterOrder && Handled(slot)
    ensures PrimaryOf(AfterPrimary(env, setterOrder, slot), getterOrder) == Ok(slot)
    ensures StateOf(AfterPrimary(env, setterOrder, slot), slot.bootname.value) == Ok(true)
  {
    PrimaryFirstSplits(setterOrder, slot);
    AfterPrimaryFlags(env, setterOrder, slot, slot.bootname.value);
    FindSlotUnique(getterOrder, slot);
  }

  /** What making a slot primary keeps of the others. */
  lemma OthersAfterPrimary(env: Env, order: seq<Slot>, slot: Slot, s: Slot)
    requires ValidSlots(order) && slot in order && Handled(slot) && s in order && Handled(s)
               && s.bootname != slot.bootname
    ensures var w, c := AfterPrimary(env, order, slot), s.bootname.value;
            Disabled(w, c) == Disabled(env, c) && (StateOf(env, c) == Ok(true) ==> StateOf(w, c) == Ok(true))
  {
    PrimaryFirstSplits(order, slot);
    AfterPrimaryFlags(env, order, slot, s.bootname.value);
  }

  lemma RefinesMakePrimary(env: Env, slots: seq<Slot>, order: seq<Slot>, slot: Slot)
    requires ValidSlots(slots) && ValidSlots(order) && SameSlots(slots, order)
    requires slot in slots && Handled(slot)
    ensures AbstractWrite(ViewOf(env, slots), MakePrimary(slot), ViewOf(AfterPrimary(env, order, slot), slots), true)
  {
    SetPrimaryThenGet(env, order, slots, slot);
    forall s | s in slots && Handled(s) && s.bootname != slot.bootname
      ensures var w, c := AfterPrimary(env, order, slot), s.bootname.value;
              Disabled(w, c) == Disabled(env, c) && (StateOf(env, c) == Ok(true) ==> StateOf(w, c) == Ok(true))
    {
      OthersAfterPrimary(env, order, slot, s);
    }
  }

  /** The bootloader notes that it tries a slot: until the slot is marked good, it is neither good nor primary. */
  lemma TriedIsDisabled(env: Env, slots: seq<Slot>, slot: Slot)
    requires slot in slots && Handled(slot)
    ensures var b := slot.bootname.value;
            var v := ViewOf(env[b + "_TRY" := "1"], slots);
            b in v.disabled && b !in v.good && v.primary != Some(b)
  {
    var b := slot.bootname.value;
    FlagValues();
    ViewWf(env[b + "_TRY" := "1"], slots);
  }

  /** Every write of every operation is a step of the abstract machine, in any iteration order. */
  lemma Refines(env: Env, slots: seq<Slot>, order: seq<Slot>, op: BootOp)
    requires ValidSlots(slots) && ValidSlots(order) && SameSlots(slots, order)
    requires op.slot in slots && Handled(op.slot)
    ensures var ws := Writes(env, order, op);
            && Wf(ViewOf(env, slots)) && |ws| == 1 && Wf(ViewOf(ws[0], slots))
            && AbstractWrite(ViewOf(env, slots), op, ViewOf(ws[0], slots), true)
  {
    ViewWf(env, slots);
    ViewWf(Writes(env, order, op)[0], slots);
    match op
    case MarkState(s, good) => RefinesMarkState(env, slots, s, good);
    case MakePrimary(s) => RefinesMakePrimary(env, slots, order, s);
  }

  // ---- the backend itself --------------------------------------------------------

  class Backend {
    const slots: seq<Slot>
    var env: Env

    constructor (slots: seq<Slot>, env: Env)
      ensures this.slots == slots && this.env == env
    {
      this.slots, this.env := slots, env;
    }

    method GetState(slot: Slot) returns (r: Result<bool>)
      requires Handled(slot)
      ensures r == StateOf(env, slot.bootname.value)
    {
      var b := slot.bootname.value;
      if ORDER !in env {
        return Err;
      }
      var bootnames := Split(env[ORDER], ' ');
      var found := false;
      for i := 0 to |bootnames|
        invariant !found && b !in bootnames[..i]
      {
        if bootnames[i] == b {
          found := true;
          break;
        }
      }
      if !found {
        return Ok(false);
      }
      if OkKey(b) !in env || TryKey(b) !in env {
        return Err;
      }
      return Ok(Strtoull(env[OkKey(b)], 0).value == 1 && Strtoull(env[TryKey(b)], 0).value == 0);
    }

    method SetState(slot: Slot, good: bool)
      requires Handled(slot)
      modifies this`env
      ensures [env] == Writes(old(env), slots, MarkState(slot, good))
      ensures var b := slot.bootname.value; env == old(env)[b + "_OK" := if good then "1" else "0"][b + "_TRY" := "0"]
    {
      var b := slot.bootname.value;
      var pairs: map<string, string> := map[];
      if good {
        pairs := pairs[OkKey(b) := "1"];
        pairs := pairs[TryKey(b) := "0"];
      } else {
        pairs := pairs[OkKey(b) := "0"];
        pairs := pairs[TryKey(b) := "0"];
      }
      env := env + pairs;
      assert env == AfterState(old(env), b, good);
    }

    method GetPrimary() returns (r: Result<Slot>)
      requires ValidSlots(slots)
      ensures r == PrimaryOf(env, slots)
    {
      if ORDER !in env {
        return Err;
      }
      if env[ORDER] == "" {
        return Err;
      }
      var bootnames := Split(env[ORDER], ' ');
      for i := 0 to |bootnames|
        invariant FirstGood(env, slots, bootnames) == FirstGood(env, slots, bootnames[i..])
      {
        var bootname := bootnames[i];
        for j := 0 to |slots|
          invariant forall k :: 0 <= k < j && slots[k].bootname == Some(bootname) ==>
            HasFlags(env, bootname) && !FlagsGood(env, bootname)
        {
          var slot := slots[j];
          if slot.bootname != Some(bootname) {
            continue;
          }
          FindSlotUnique(slots, slot);
          if OkKey(bootname) !in env || TryKey(bootname) !in env {
            return Err;
          }
          if Strtoull(env[OkKey(bootname)], 0).value != 1 || Strtoull(env[TryKey(bootname)], 0).value > 0 {
            continue;
          }
          return Ok(slot);
        }
      }
      return Err;
    }

    method SetPrimary(slot: Slot)
      requires Handled(slot)
      modifies this`env
      ensures [env] == Writes(old(env), slots, MakePrimary(slot))
      ensures var b := slot.bootname.value;
              env == old(env)[b + "_OK" := "1"][b + "_TRY" := "0"]["ORDER" := Join(PrimaryFirst(slots, slot), ' ')]
    {
      var b := slot.bootname.value;
      var order := BootchooserOrderPrimary(slots, slot);
      KeysApart(b, b);
      env := env + map[OkKey(b) := "1", TryKey(b) := "0", ORDER := order];
      assert env == AfterPrimary(old(env), slots, slot);
    }
  }
}
