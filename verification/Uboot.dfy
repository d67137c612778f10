/**
 The U-Boot backend: variables BOOT_ORDER and BOOT_<bootname>_LEFT (hexadecimal).
 Each variable is stored by its own call of the environment tool, so a crash may
 happen between the two writes of one operation.
 */
module Uboot {
  import opened Wrappers
  import opened Text
  import opened BootModel

  type Env = map<string, string>

  const ORDER := "BOOT_ORDER"

  function LeftKey(b: string): string { "BOOT_" + b + "_LEFT" }

  lemma KeysApart(b: string, c: string)
    ensures LeftKey(b) != ORDER
    ensures b != c ==> LeftKey(b) != LeftKey(c)
  {
    assert LeftKey(b)[|LeftKey(b)| - 1] == 'T' && ORDER[|ORDER| - 1] == 'R';
    assert LeftKey(b)[5..|LeftKey(b)| - 5] == b && LeftKey(c)[5..|LeftKey(c)| - 5] == c;
  }

  // ---- what the getters report -------------------------------------------------

  predicate HasLeft(env: Env, b: string) { LeftKey(b) in env }

  predicate LeftGood(env: Env, b: string)
    requires HasLeft(env, b)
  {
    Strtoull(env[LeftKey(b)], 16).value > 0
  }

  function StateOf(env: Env, b: string): Result<bool> {
    if ORDER !in env then Err
    else if b !in Split(env[ORDER], ' ') then Ok(false)
    else if !HasLeft(env, b) then Err
    else Ok(LeftGood(env, b))
  }

  function FirstGood(env: Env, slots: seq<Slot>, names: seq<string>): (r: Result<Slot>)
    ensures r.Ok? ==> r.value in slots && Handled(r.value) && r.value.bootname.value in names
    ensures r.Ok? ==> HasLeft(env, r.value.bootname.value) && LeftGood(env, r.value.bootname.value)
  {
    if names == [] then Err
    else match FindSlot(slots, names[0])
      case None => FirstGood(env, slots, names[1..])
      case Some(s) =>
        if !HasLeft(env, names[0]) then Err
        else if LeftGood(env, names[0]) then Ok(s)
        else FirstGood(env, slots, names[1..])
  }

  function PrimaryOf(env: Env, slots: seq<Slot>): (r: Result<Slot>)
    ensures r.Ok? ==> r.value in slots && Handled(r.value)
  {
    if ORDER !in env then Err else FirstGood(env, slots, Split(env[ORDER], ' '))
  }

  /** What is reported of a slot, told from the variables. */
  lemma StateMeaning(env: Env, b: string)
    ensures var left := "BOOT_" + b + "_LEFT";
            && (StateOf(env, b) == Ok(true) <==>
                  "BOOT_ORDER" in env && b in Split(env["BOOT_ORDER"], ' ')
                  && left in env && Strtoull(env[left], 16).value > 0)
            && (StateOf(env, b) == Err <==>
                  "BOOT_ORDER" !in env || (b in Split(env["BOOT_ORDER"], ' ') && left !in env))
  {
  }

  /** The name at position i has attempts left, and all configured slots listed before it are readable and have none. */
  ghost predicate FirstGoodAt(env: Env, slots: seq<Slot>, names: seq<string>, i: nat)
    requires i < |names|
  {
    && HasAttempts(env, names[i])
    && forall j :: 0 <= j < i && FindSlot(slots, names[j]).Some? ==>
                     "BOOT_" + names[j] + "_LEFT" in env && !HasAttempts(env, names[j])
  }

  ghost predicate HasAttempts(env: Env, b: string) {
    "BOOT_" + b + "_LEFT" in env && Strtoull(env["BOOT_" + b + "_LEFT"], 16).value > 0
  }

  /** What is reported as primary, told from the variables. */
  lemma PrimaryMeaning(env: Env, slots: seq<Slot>, s: Slot)
    requires ValidSlots(slots)
    ensures PrimaryOf(env, slots) == Ok(s) <==>
            && "BOOT_ORDER" in env && s in slots && Handled(s)
            && var names := Split(env["BOOT_ORDER"], ' ');
               exists i :: 0 <= i < |names| && names[i] == s.bootname.value && FirstGoodAt(env, slots, names, i)
  {
    if ORDER in env {
      var names := Split(env[ORDER], ' ');
      if PrimaryOf(env, slots) == Ok(s) {
        var i := FirstGoodIsAt(env, slots, names, s);
      }
      if s in slots && Handled(s) {
        if i :| 0 <= i < |names| && names[i] == s.bootname.value && FirstGoodAt(env, slots, names, i) {
          FirstGoodIs(env, slots, names, s, i);
        }
      }
    }
  }

  lemma {:induction false} FirstGoodIsAt(env: Env, slots: seq<Slot>, names: seq<string>, s: Slot) returns (i: nat)
    requires FirstGood(env, slots, names) == Ok(s)
    ensures i < |names| && s.bootname == Some(names[i]) && FirstGoodAt(env, slots, names, i)
    decreases |names|
  {
    if FindSlot(slots, names[0]) == Some(s) && HasLeft(env, names[0]) && LeftGood(env, names[0]) {
      i := 0;
    } else {
      var k := FirstGoodIsAt(env, slots, names[1..], s);
      i := k + 1;
      assert forall j :: 1 <= j < i ==> names[j] == names[1..][j - 1];
    }
  }

  lemma {:induction false} FirstGoodIs(env: Env, slots: seq<Slot>, names: seq<string>, s: Slot, i: nat)
    requires ValidSlots(slots) && s in slots && Handled(s)
    requires i < |names| && names[i] == s.bootname.value && FirstGoodAt(env, slots, names, i)
    ensures FirstGood(env, slots, names) == Ok(s)
    decreases i
  {
    FindSlotUnique(slots, s);
    if i > 0 {
      assert forall j :: 0 <= j < i ==> names[1..][j] == names[j + 1];
      FirstGoodIs(env, slots, names[1..], s, i - 1);
    }
  }

  // ---- what the setters store --------------------------------------------------

  /** The boot order words other than b; empty words are dropped as well. */
  function Without(names: seq<string>, b: string): (r: seq<string>)
    ensures forall x :: x in r <==> x in names && x != b && x != ""
  {
    if names == [] then []
    else
      assert forall x :: x in names <==> x == names[0] || x in names[1..];
      if names[0] == b || names[0] == "" then Without(names[1..], b)
      else [names[0]] + Without(names[1..], b)
  }

  function StateWrites(c: Config, env: Env, b: string, good: bool): (ws: seq<Env>)
    ensures ws != []
  {
    if good then [env[LeftKey(b) := Print(OnGood(c), 16)]]
    else if ORDER !in env then [env[LeftKey(b) := Print(0, 16)]]
    else
      var unlisted := env[ORDER := Join(Without(Split(env[ORDER], ' '), b), ' ')];
      [unlisted, unlisted[LeftKey(b) := Print(0, 16)]]
  }

  function NewOrder(env: Env, slots: seq<Slot>, slot: Slot): seq<string>
    requires Handled(slot)
  {
    var current := if ORDER in env then env[ORDER] else Join(PrimaryFirst(slots, slot), ' ');
    [slot.bootname.value] + Without(Split(current, ' '), slot.bootname.value)
  }

  function PrimaryWrites(c: Config, env: Env, slots: seq<Slot>, slot: Slot): (ws: seq<Env>)
    requires Handled(slot)
    ensures |ws| == 2
  {
    var raised := env[LeftKey(slot.bootname.value) := Print(OnPrimary(c), 16)];
    [raised, raised[ORDER := Join(NewOrder(env, slots, slot), ' ')]]
  }

  /** The environments stored by an operation, one for each write. */
  function Writes(c: Config, env: Env, slots: seq<Slot>, op: BootOp): (ws: seq<Env>)
    requires Handled(op.slot)
    ensures ws != []
  {
    match op
    case MarkState(s, good) => StateWrites(c, env, s.bootname.value, good)
    case MakePrimary(s) => PrimaryWrites(c, env, slots, s)
  }

  // ---- refinement of the abstract machine ----------------------------------------

  predicate Unlisted(env: Env, b: string) {
    ORDER in env && b !in Split(env[ORDER], ' ')
  }

  predicate Disabled(env: Env, b: string) {
    Unlisted(env, b) || (HasLeft(env, b) && !LeftGood(env, b))
  }

  ghost function ViewOf(env: Env, slots: seq<Slot>): View {
    View(
      match PrimaryOf(env, slots) case Ok(s) => s.bootname case Err => None,
      set s | s in slots && Handled(s) && StateOf(env, s.bootname.value) == Ok(true) :: s.bootname.value,
      set s | s in slots && Handled(s) && Disabled(env, s.bootname.value) :: s.bootname.value,
      set s | s in slots && Handled(s) && Unlisted(env, s.bootname.value) :: s.bootname.value)
  }

  lemma ViewWf(env: Env, slots: seq<Slot>)
    ensures Wf(ViewOf(env, slots))
  {
  }

  /** Marking a slot changes what is reported of no other slot, at any of its writes. */
  lemma OthersKeepState(c: Config, env: Env, b: string, good: bool, i: nat, other: string)
    requires i < |StateWrites(c, env, b, good)| && other != b && other != ""
    ensures StateOf(StateWrites(c, env, b, good)[i], other) == StateOf(env, other)
  {
    LeftStored(env, b, OnGood(c), other);
    LeftStored(env, b, 0, other);
    if ORDER in env {
      var unlisted := env[ORDER := Join(Without(Split(env[ORDER], ' '), b), ' ')];
      WithoutSplits(env[ORDER], b);
      OrderStored(env, unlisted[ORDER], other);
      LeftStored(unlisted, b, 0, other);
    }
  }

  /** What is stored when a slot is unlisted is empty exactly if no other slot was listed. */
  lemma StaysListedIff(env: Env, b: string)
    requires ORDER in env
    ensures Join(Without(Split(env[ORDER], ' '), b), ' ') != "" <==>
              exists x :: x in Split(env[ORDER], ' ') && x != b && x != ""
  {
    var rest := Without(Split(env[ORDER], ' '), b);
    WithoutSplits(env[ORDER], b);
    if rest != [] {
      assert rest[0] in rest;
      assert Join(rest, ' ') == "" ==> Split("", ' ') == rest;
      assert Split("", ' ') == [];
    } else {
      assert forall x :: x in Split(env[ORDER], ' ') && x != b && x != "" ==> x in rest;
    }
  }

  lemma WithoutSplits(s: string, b: string)
    ensures Split(Join(Without(Split(s, ' '), b), ' '), ' ') == Without(Split(s, ' '), b)
  {
    PiecesAreFree(s, ' ');
    SplitOfJoin(Without(Split(s, ' '), b), ' ');
  }

  lemma LeftStored(env: Env, b: string, n: nat, c: string)
    requires n < TWO_64
    ensures var w := env[LeftKey(b) := Print(n, 16)];
            && (ORDER in w <==> ORDER in env) && (ORDER in env ==> w[ORDER] == env[ORDER])
            && (c == b ==> HasLeft(w, c) && LeftGood(w, c) == (n > 0))
            && (c != b ==> HasLeft(w, c) == HasLeft(env, c))
            && (c != b && HasLeft(env, c) ==> LeftGood(w, c) == LeftGood(env, c))
  {
    KeysApart(b, c);
    StrtoullOfPrint(n, 16);
  }

  lemma OrderStored(env: Env, order: string, c: string)
    ensures var w := env[ORDER := order];
            HasLeft(w, c) == HasLeft(env, c) && (HasLeft(env, c) ==> LeftGood(w, c) == LeftGood(env, c))
  {
    KeysApart(c, c);
  }

  lemma {:induction false} FirstGoodSameLeft(env: Env, env': Env, slots: seq<Slot>, names: seq<string>)
    requires forall c :: HasLeft(env', c) == HasLeft(env, c) && (HasLeft(env, c) ==> LeftGood(env', c) == LeftGood(env, c))
    ensures FirstGood(env', slots, names) == FirstGood(env, slots, names)
  {
    if names != [] {
      FirstGoodSameLeft(env, env', slots, names[1..]);
    }
  }

  lemma {:induction false} FirstGoodWithout(env: Env, slots: seq<Slot>, names: seq<string>, b: string)
    requires ValidSlots(slots)
    ensures var r := FirstGood(env, slots, names);
            r.Ok? && r.value.bootname != Some(b) ==> FirstGood(env, slots, Without(names, b)) == r
  {
    if names != [] {
      FirstGoodWithout(env, slots, names[1..], b);
      if FindSlot(slots, names[0]).Some? {
        assert names[0] != "";
      }
    }
  }

  lemma {:induction false} FirstGoodLeftStored(env: Env, slots: seq<Slot>, names: seq<string>, b: string, n: nat)
    requires n < TWO_64
    ensures var r, w := FirstGood(env, slots, names), FirstGood(env[LeftKey(b) := Print(n, 16)], slots, names);
            r.Ok? ==>
              && (n == 0 && r.value.bootname != Some(b) ==> w == r)
              && (n > 0 ==> w == r || (w.Ok? && w.value.bootname == Some(b)))
  {
    if names != [] {
      LeftStored(env, b, n, names[0]);
      FirstGoodLeftStored(env, slots, names[1..], b, n);
    }
  }

  /** Storing a positive counter for b: only b can turn good. */
  lemma RefinesRaise(env: Env, slots: seq<Slot>, b: string, n: nat)
    requires 0 < n < TWO_64
    ensures MarkedGood(ViewOf(env, slots), b, ViewOf(env[LeftKey(b) := Print(n, 16)], slots))
  {
    var w := env[LeftKey(b) := Print(n, 16)];
    forall c
      ensures c != b ==> StateOf(w, c) == StateOf(env, c) && Disabled(w, c) == Disabled(env, c)
      ensures Unlisted(w, c) == Unlisted(env, c)
      ensures StateOf(env, b) == Ok(true) ==> StateOf(w, b) == Ok(true)
    {
      LeftStored(env, b, n, c);
      LeftStored(env, b, n, b);
    }
    LeftStored(env, b, n, b);
    if ORDER in env {
      FirstGoodLeftStored(env, slots, Split(env[ORDER], ' '), b, n);
    }
  }

  /** Removing b from the boot order: b alone turns bad, for good. */
  lemma RefinesUnlist(env: Env, slots: seq<Slot>, slot: Slot)
    requires ValidSlots(slots) && slot in slots && Handled(slot)
    requires ORDER in env
    ensures var b, w := slot.bootname.value, env[ORDER := Join(Without(Split(env[ORDER], ' '), slot.bootname.value), ' ')];
            MarkedBad(ViewOf(env, slots), b, ViewOf(w, slots)) && b in ViewOf(w, slots).retired
  {
    var b := slot.bootname.value;
    var names := Without(Split(env[ORDER], ' '), b);
    var w := env[ORDER := Join(names, ' ')];
    WithoutSplits(env[ORDER], b);
    forall c
      ensures HasLeft(w, c) == HasLeft(env, c) && (HasLeft(env, c) ==> LeftGood(w, c) == LeftGood(env, c))
    {
      OrderStored(env, Join(names, ' '), c);
    }
    assert Unlisted(w, b);
    FirstGoodSameLeft(env, w, slots, names);
    FirstGoodWithout(env, slots, Split(env[ORDER], ' '), b);
    assert forall s :: s in slots && Handled(s) && s.bootname.value != b ==>
        StateOf(w, s.bootname.value) == StateOf(env, s.bootname.value);
    assert ViewOf(w, slots).good == ViewOf(env, slots).good - {b};
  }

  /** Storing a zero counter for b. */
  lemma RefinesZero(env: Env, slots: seq<Slot>, slot: Slot)
    requires slot in slots && Handled(slot)
    ensures MarkedBad(ViewOf(env, slots), slot.bootname.value, ViewOf(env[LeftKey(slot.bootname.value) := Print(0, 16)], slots))
  {
    var b := slot.bootname.value;
    var w := env[LeftKey(b) := Print(0, 16)];
    forall c
      ensures c != b ==> StateOf(w, c) == StateOf(env, c) && Disabled(w, c) == Disabled(env, c)
      ensures Unlisted(w, c) == Unlisted(env, c)
    {
      LeftStored(env, b, 0, c);
    }
    LeftStored(env, b, 0, b);
    assert Disabled(w, b) && StateOf(w, b) != Ok(true);
    if ORDER in env {
      FirstGoodLeftStored(env, slots, Split(env[ORDER], ' '), b, 0);
    }
    assert ViewOf(w, slots).good == ViewOf(env, slots).good - {b};
  }

  /** Marking bad twice in a row is marking bad. */
  lemma MarkedBadTwice(v: View, b: string, u: View, w: View)
    requires MarkedBad(v, b, u) && MarkedBad(u, b, w) && Wf(u)
    ensures MarkedBad(v, b, w)
  {
  }

  lemma NewOrderSplits(env: Env, order: seq<Slot>, slot: Slot)
    requires ValidSlots(order) && slot in order && Handled(slot)
    ensures Split(Join(NewOrder(env, order, slot), ' '), ' ') == NewOrder(env, order, slot)
    ensures ORDER !in env ==> forall s :: s in order && Handled(s) ==> s.bootname.value in NewOrder(env, order, slot)
    ensures ORDER in env ==> forall s :: s in order && Handled(s) ==>
              (s.bootname.value in NewOrder(env, order, slot) <==>
               s == slot || s.bootname.value in Split(env[ORDER], ' '))
  {
    var current := if ORDER in env then env[ORDER] else Join(PrimaryFirst(order, slot), ' ');
    PiecesAreFree(current, ' ');
    SplitOfJoin(NewOrder(env, order, slot), ' ');
    PrimaryFirstSplits(order, slot);
    forall s | s in order && Handled(s) && s.bootname == slot.bootname
      ensures s == slot
    {
      FindSlotUnique(order, slot);
      FindSlotUnique(order, s);
    }
  }

  /** get_primary after set_primary, for any two iteration orders of the slot table. */
  lemma SetPrimaryThenGet(c: Config, env: Env, setterOrder: seq<Slot>, getterOrder: seq<Slot>, slot: Slot)
    requires ValidSlots(setterOrder) && ValidSlots(getterOrder) && SameSlots(setterOrder, getterOrder)
    requires slot in setterOrder && Handled(slot)
    ensures var w := PrimaryWrites(c, env, setterOrder, slot)[1];
            PrimaryOf(w, getterOrder) == Ok(slot) && StateOf(w, slot.bootname.value) == Ok(true)
  {
    var b := slot.bootname.value;
    NewOrderSplits(env, setterOrder, slot);
    LeftStored(env, b, OnPrimary(c), b);
    OrderStored(PrimaryWrites(c, env, setterOrder, slot)[0], Join(NewOrder(env, setterOrder, slot), ' '), b);
    FindSlotUnique(getterOrder, slot);
  }

  lemma RefinesMakePrimary(c: Config, env: Env, slots: seq<Slot>, order: seq<Slot>, slot: Slot)
    requires ValidSlots(slots) && ValidSlots(order) && SameSlots(slots, order)
    requires slot in slots && Handled(slot)
    ensures MadePrimary(ViewOf(env, slots), slot.bootname.value, ViewOf(PrimaryWrites(c, env, order, slot)[1], slots))
  {
    var b := slot.bootname.value;
    var ws := PrimaryWrites(c, env, order, slot);
    var w := ws[1];
    SetPrimaryThenGet(c, env, order, slots, slot);
    NewOrderSplits(env, order, slot);
    forall d
      ensures d != b ==> HasLeft(w, d) == HasLeft(env, d) && (HasLeft(env, d) ==> LeftGood(w, d) == LeftGood(env, d))
    {
      LeftStored(env, b, OnPrimary(c), d);
      OrderStored(ws[0], Join(NewOrder(env, order, slot), ' '), d);
    }
    forall s | s in slots && Handled(s) && s.bootname.value != b
      ensures StateOf(env, s.bootname.value) == Ok(true) ==> StateOf(w, s.bootname.value) == Ok(true)
      ensures Disabled(env, s.bootname.value) ==> Disabled(w, s.bootname.value)
      ensures Unlisted(env, s.bootname.value) ==> Unlisted(w, s.bootname.value)
    {
      assert s != slot;
    }
  }

  /** The bootloader counts down: a slot without attempts left is neither good nor primary. */
  lemma SpentIsDisabled(env: Env, slots: seq<Slot>, slot: Slot)
    requires slot in slots && Handled(slot)
    ensures var b := slot.bootname.value;
            var v := ViewOf(env["BOOT_" + b + "_LEFT" := "0"], slots);
            b in v.disabled && b !in v.good && v.primary != Some(b)
  {
    var b := slot.bootname.value;
    assert Print(0, 16) == "0";
    StrtoullOfPrint(0, 16);
    ViewWf(env["BOOT_" + b + "_LEFT" := "0"], slots);
  }

  /** Every write of every operation is a step of the abstract machine, in any iteration order. */
  lemma Refines(c: Config, env: Env, slots: seq<Slot>, order: seq<Slot>, op: BootOp, i: nat)
    requires ValidSlots(slots) && ValidSlots(order) && SameSlots(slots, order)
    requires op.slot in slots && Handled(op.slot)
    requires i < |Writes(c, env, order, op)|
    ensures var ws := Writes(c, env, order, op);
            && Wf(ViewOf(env, slots)) && Wf(ViewOf(ws[i], slots))
            && AbstractWrite(ViewOf(env, slots), op, ViewOf(ws[i], slots), i == |ws| - 1)
    ensures op == MarkState(op.slot, false) && ORDER in env ==>
              op.slot.bootname.value in ViewOf(Writes(c, env, order, op)[i], slots).retired
  {
    var ws := Writes(c, env, order, op);
    var b := op.slot.bootname.value;
    ViewWf(env, slots);
    ViewWf(ws[i], slots);
    match op
    case MarkState(s, true) =>
      RefinesRaise(env, slots, b, OnGood(c));
    case MarkState(s, false) =>
      if ORDER in env {
        RefinesUnlist(env, slots, s);
        ViewWf(ws[0], slots);
        RefinesZero(ws[0], slots, s);
        MarkedBadTwice(ViewOf(env, slots), b, ViewOf(ws[0], slots), ViewOf(ws[1], slots));
      } else {
        RefinesZero(env, slots, s);
      }
    case MakePrimary(s) =>
      RefinesRaise(env, slots, b, OnPrimary(c));
      RefinesMakePrimary(c, env, slots, order, s);
  }

  // ---- the backend itself --------------------------------------------------------

  class Backend {
    const slots: seq<Slot>
    const config: Config
    var env: Env
    ghost var stored: seq<Env>  // every environment that was ever on the storage

    constructor (slots: seq<Slot>, config: Config, env: Env)
      ensures this.slots == slots && this.config == config && this.env == env && stored == []
    {
      this.slots, this.config, this.env := slots, config, env;
      stored := [];
    }

    method EnvSet(key: string, value: string)
      modifies this`env, this`stored
      ensures env == old(env)[key := value] && stored == old(stored) + [env]
    {
      env := env[key := value];
      stored := stored + [env];
    }

    method GetState(slot: Slot) returns (r: Result<bool>)
      requires Handled(slot)
      ensures r == StateOf(env, slot.bootname.value)
    {
      var b := slot.bootname.value;
      if ORDER !in env {
        return Err;
      }
      var bootnames := Split(env[ORDER], ' ');
      var found := false;
      for i := 0 to |bootnames|
        invariant !found && b !in bootnames[..i]
      {
        if bootnames[i] == b {
          found := true;
          break;
        }
      }
      if !found {
        return Ok(false);
      }
      if LeftKey(b) !in env {
        return Err;
      }
      return Ok(Strtoull(env[LeftKey(b)], 16).value > 0);
    }

    method SetState(slot: Slot, good: bool)
      requires Handled(slot)
      modifies this`env, this`stored
      ensures stored == old(stored) + Writes(config, old(env), slots, MarkState(slot, good))
      ensures env == stored[|stored| - 1]
    {
      var b := slot.bootname.value;
      var attempts: int := 0;
      if !good && ORDER in env {
        var bootnames := Split(env[ORDER], ' ');
        var orderNew: seq<string> := [];
        for i := 0 to |bootnames|
          invariant orderNew + Without(bootnames[i..], b) == Without(bootnames, b)
        {
          if bootnames[i] == b {
            continue;
          }
          if bootnames[i] == "" {
            continue;
          }
          orderNew := orderNew + [bootnames[i]];
        }
        assert orderNew == Without(bootnames, b);
        EnvSet(ORDER, Join(orderNew, ' '));
      }
      if good {
        attempts := config.defaultAttempts;
        if attempts <= 0 {
          attempts := DEFAULT_ATTEMPTS;
        }
      }
      EnvSet(LeftKey(b), Print(attempts, 16));
      assert stored == old(stored) + StateWrites(config, old(env), b, good);
    }

    method GetPrimary() returns (r: Result<Slot>)
      requires ValidSlots(slots)
      ensures r == PrimaryOf(env, slots)
    {
      if ORDER !in env {
        return Err;
      }
      var bootnames := Split(env[ORDER], ' ');
      for i := 0 to |bootnames|
        invariant FirstGood(env, slots, bootnames) == FirstGood(env, slots, bootnames[i..])
      {
        var bootname := bootnames[i];
        for j := 0 to |slots|
          invariant forall k :: 0 <= k < j && slots[k].bootname == Some(bootname) ==>
            HasLeft(env, bootname) && !LeftGood(env, bootname)
        {
          var slot := slots[j];
          if slot.bootname != Some(bootname) {
            continue;
          }
          FindSlotUnique(slots, slot);
          if LeftKey(bootname) !in env {
            return Err;
          }
          if Strtoull(env[LeftKey(bootname)], 16).value <= 0 {
            continue;
          }
          return Ok(slot);
        }
      }
      return Err;
    }

    method SetPrimary(slot: Slot)
      requires Handled(slot)
      modifies this`env, this`stored
      ensures stored == old(stored) + Writes(config, old(env), slots, MakePrimary(slot))
      ensures env == stored[|stored| - 1]
    {
      var b := slot.bootname.value;
      var orderNew := b;
      var current: string;
      if ORDER in env {
        current := env[ORDER];
      } else {
        current := BootchooserOrderPrimary(slots, slot);
      }
      var bootnames := Split(current, ' ');
      ghost var words := [b];
      for i := 0 to |bootnames|
        invariant env == old(env) && stored == old(stored)
        invariant words != [] && orderNew == Join(words, ' ')
        invariant words + Without(bootnames[i..], b) == [b] + Without(bootnames, b)
      {
        if bootnames[i] == b {
          continue;
        }
        if bootnames[i] == "" {
          continue;
        }
        JoinSnoc(words, bootnames[i], ' ');
        orderNew := orderNew + [' '] + bootnames[i];
        words := words + [bootnames[i]];
      }
      assert words == NewOrder(old(env), slots, slot);
      var attempts: int := config.primaryAttempts;
      if attempts <= 0 {
        attempts := ATTEMPTS_PRIMARY;
      }
      EnvSet(LeftKey(b), Print(attempts, 16));
      ghost var raised := env;
      EnvSet(ORDER, orderNew);
      assert [raised, env] == PrimaryWrites(config, old(env), slots, slot);
      assert stored == old(stored) + PrimaryWrites(config, old(env), slots, slot);
    }
  }
}
