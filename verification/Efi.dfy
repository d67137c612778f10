/**
 The EFI backend: numbered boot entries, the BootOrder list of numbers and the
 one-shot BootNext number (UEFI Specification, section 3.3), read and stored
 through the boot manager tool.
 */
module Efi {
  import opened Wrappers
  import opened Text
  import opened BootModel

  datatype Entry = Entry(num: string, name: string)

  /** All entries, the BootOrder value as printed (numbers between commas), and BootNext if set. */
  datatype Firmware = Firmware(entries: seq<Entry>, order: string, next: Option<string>)

  /** Boot numbers are unique and are plain words. */
  ghost predicate ValidFirmware(f: Firmware) {
    && (forall e :: e in f.entries ==> e.num != "" && ',' !in e.num)
    && (forall i, j :: 0 <= i < j < |f.entries| ==> f.entries[i].num != f.entries[j].num)
  }

  function ByNum(entries: seq<Entry>, num: string): (r: Option<Entry>)
    ensures r.Some? ==> r.value in entries && r.value.num == num
    ensures r.None? ==> forall e :: e in entries ==> e.num != num
  {
    if entries == [] then None
    else if entries[0].num == num then Some(entries[0])
    else ByNum(entries[1..], num)
  }

  function FirstNamed(entries: seq<Entry>, b: string): (r: Option<Entry>)
    ensures r.Some? ==> r.value in entries && r.value.name == b
    ensures r.None? ==> forall e :: e in entries ==> e.name != b
  {
    if entries == [] then None
    else if entries[0].name == b then Some(entries[0])
    else FirstNamed(entries[1..], b)
  }

  /** The entries behind a list of numbers; unknown numbers are dropped. */
  function Resolve(entries: seq<Entry>, nums: seq<string>): (r: seq<Entry>)
    ensures forall e :: e in r ==> e in entries
  {
    if nums == [] then []
    else match ByNum(entries, nums[0])
      case None => Resolve(entries, nums[1..])
      case Some(e) => [e] + Resolve(entries, nums[1..])
  }

  function Nums(es: seq<Entry>): (r: seq<string>)
    ensures |r| == |es|
    ensures forall i :: 0 <= i < |r| ==> r[i] == es[i].num
  {
    if es == [] then [] else [es[0].num] + Nums(es[1..])
  }

  function RemoveNamed(es: seq<Entry>, b: string): seq<Entry> {
    if es == [] then []
    else if es[0].name == b then es[1..]
    else [es[0]] + RemoveNamed(es[1..], b)
  }

  lemma {:induction false} RemoveNamedMembers(es: seq<Entry>, b: string)
    ensures forall e :: e in RemoveNamed(es, b) ==> e in es
    ensures forall e :: e in es && e.name != b ==> e in RemoveNamed(es, b)
  {
    if es != [] && es[0].name != b {
      RemoveNamedMembers(es[1..], b);
    }
  }

  /** The boot manager's output can be parsed: it lists entries and a boot order. */
  predicate Readable(f: Firmware) {
    f.entries != [] && f.order != ""
  }

  function Listed(f: Firmware): (r: seq<Entry>)
    ensures forall e :: e in r ==> e in f.entries
  {
    Resolve(f.entries, Split(f.order, ','))
  }

  function NextEntry(f: Firmware): Option<Entry> {
    if f.next.None? then None else ByNum(f.entries, f.next.value)
  }

  // ---- what the getters report -------------------------------------------------

  function StateOf(f: Firmware, b: string): Result<bool> {
    if !Readable(f) then Err else Ok(FirstNamed(Listed(f), b).Some?)
  }

  /** The first entry that belongs to a configured slot. */
  function FirstSlot(es: seq<Entry>, slots: seq<Slot>): (r: Result<Slot>)
    ensures r.Ok? ==> r.value in slots && Handled(r.value)
    ensures r.Ok? ==> exists e :: e in es && r.value.bootname == Some(e.name)
  {
    if es == [] then Err
    else match FindSlot(slots, es[0].name)
      case Some(s) => Ok(s)
      case None => FirstSlot(es[1..], slots)
  }

  function BootSequence(f: Firmware): seq<Entry> {
    (if NextEntry(f).Some? then [NextEntry(f).value] else []) + Listed(f)
  }

  function PrimaryOf(f: Firmware, slots: seq<Slot>): (r: Result<Slot>)
    ensures r.Ok? ==> r.value in slots && Handled(r.value)
  {
    if !Readable(f) then Err else FirstSlot(BootSequence(f), slots)
  }

  /** The configured slot that BootNext selects, if any. */
  function NextSlot(f: Firmware, slots: seq<Slot>): Option<Slot> {
    if NextEntry(f).None? then None else FindSlot(slots, NextEntry(f).value.name)
  }

  // ---- what the setters store --------------------------------------------------

  /** The boot order without the first entry of this name, or with the slot's entry moved to the front. */
  function NewListed(f: Firmware, b: string, prepend: bool): seq<Entry>
    requires prepend ==> FirstNamed(f.entries, b).Some?
  {
    var rest := RemoveNamed(Listed(f), b);
    if prepend then [FirstNamed(f.entries, b).value] + rest else rest
  }

  function WithOrder(f: Firmware, es: seq<Entry>): Firmware {
    f.(order := Join(Nums(es), ','))
  }

  function Modified(f: Firmware, b: string, prepend: bool): Result<Firmware> {
    if !Readable(f) || (prepend && FirstNamed(f.entries, b).None?) then Err
    else Ok(WithOrder(f, NewListed(f, b, prepend)))
  }

  function TempPrimary(f: Firmware, b: string): Result<Firmware> {
    if !Readable(f) then Err
    else match FirstNamed(f.entries, b)
      case None => Err
      case Some(e) => Ok(f.(next := Some(e.num)))
  }

  /** The firmware state stored by an operation; an error stores nothing. */
  function Stored(f: Firmware, useBootnext: bool, op: BootOp): Result<Firmware>
    requires Handled(op.slot)
  {
    match op
    case MarkState(s, good) => Modified(f, s.bootname.value, good)
    case MakePrimary(s) =>
      if useBootnext then TempPrimary(f, s.bootname.value) else Modified(f, s.bootname.value, true)
  }

  // ---- reading back what was stored ------------------------------------------------

  lemma ByNumSelf(entries: seq<Entry>, e: Entry)
    requires e in entries
    requires forall i, j :: 0 <= i < j < |entries| ==> entries[i].num != entries[j].num
    ensures ByNum(entries, e.num) == Some(e)
  {
    var r := ByNum(entries, e.num);
    var i :| 0 <= i < |entries| && entries[i] == e;
    var j :| 0 <= j < |entries| && entries[j] == r.value;
    assert entries[i].num == entries[j].num;
    assert i == j;
  }

  lemma {:induction false} ResolveOfNums(entries: seq<Entry>, es: seq<Entry>)
    requires forall i, j :: 0 <= i < j < |entries| ==> entries[i].num != entries[j].num
    requires forall e :: e in es ==> e in entries
    ensures Resolve(entries, Nums(es)) == es
  {
    if es != [] {
      ByNumSelf(entries, es[0]);
      assert Nums(es)[1..] == Nums(es[1..]);
      ResolveOfNums(entries, es[1..]);
    }
  }

  lemma ListedOfNums(f: Firmware, es: seq<Entry>)
    requires ValidFirmware(f)
    requires forall e :: e in es ==> e in f.entries
    ensures Listed(WithOrder(f, es)) == es
    ensures Join(Nums(es), ',') != "" <==> es != []
  {
    forall x | x in Nums(es)
      ensures x != "" && ',' !in x
    {
      var i :| 0 <= i < |es| && Nums(es)[i] == x;
      assert es[i] in es;
    }
    SplitOfJoin(Nums(es), ',');
    ResolveOfNums(f.entries, es);
  }

  /** The firmware state after a successful persistent operation lists what was asked for. */
  lemma ModifiedListed(f: Firmware, b: string, prepend: bool)
    requires ValidFirmware(f)
    requires Modified(f, b, prepend).Ok?
    ensures var w := Modified(f, b, prepend).value;
            && ValidFirmware(w) && w.next == f.next && w.entries == f.entries
            && Listed(w) == NewListed(f, b, prepend)
            && (Readable(w) <==> Listed(w) != [])
  {
    RemoveNamedMembers(Listed(f), b);
    ListedOfNums(f, NewListed(f, b, prepend));
  }

  /** get_primary after set_primary through BootNext, for any iteration order of the slot table. */
  lemma SetPrimaryThenGetBootnext(f: Firmware, getterOrder: seq<Slot>, slot: Slot)
    requires ValidFirmware(f) && ValidSlots(getterOrder) && slot in getterOrder && Handled(slot)
    requires TempPrimary(f, slot.bootname.value).Ok?
    ensures PrimaryOf(TempPrimary(f, slot.bootname.value).value, getterOrder) == Ok(slot)
  {
    var e := FirstNamed(f.entries, slot.bootname.value).value;
    ByNumSelf(f.entries, e);
    FindSlotUnique(getterOrder, slot);
  }

  /**
   Through BootOrder, get_primary after set_primary gives the slot back exactly when
   BootNext does not already select another configured slot.
   */
  lemma SetPrimaryThenGetBootorder(f: Firmware, getterOrder: seq<Slot>, slot: Slot)
    requires ValidFirmware(f) && ValidSlots(getterOrder) && slot in getterOrder && Handled(slot)
    requires Modified(f, slot.bootname.value, true).Ok?
    ensures PrimaryOf(Modified(f, slot.bootname.value, true).value, getterOrder) == Ok(slot) <==>
            NextSlot(f, getterOrder).None? || NextSlot(f, getterOrder) == Some(slot)
  {
    var b := slot.bootname.value;
    var w := Modified(f, b, true).value;
    ModifiedListed(f, b, true);
    FindSlotUnique(getterOrder, slot);
    assert Listed(w)[0].name == b;
    assert FirstSlot(Listed(w), getterOrder) == Ok(slot);
    if NextEntry(w).Some? {
      assert BootSequence(w)[1..] == Listed(w);
    } else {
      assert BootSequence(w) == Listed(w);
    }
  }

  /** A firmware state in which persistent activation is without effect on get_primary. */
  lemma BootnextOverridesBootorder()
    ensures var slots := [Slot("rootfs.0", Some("A")), Slot("rootfs.1", Some("B"))];
            var f := Firmware([Entry("0000", "A"), Entry("0001", "B")], "0000,0001", Some("0000"));
            && ValidFirmware(f) && ValidSlots(slots)
            && Stored(f, false, MakePrimary(slots[1])).Ok?
            && PrimaryOf(Stored(f, false, MakePrimary(slots[1])).value, slots) == Ok(slots[0])
  {
    var slots := [Slot("rootfs.0", Some("A")), Slot("rootfs.1", Some("B"))];
    var f := Firmware([Entry("0000", "A"), Entry("0001", "B")], "0000,0001", Some("0000"));
    assert f.entries[0].num[3] == '0' && f.entries[1].num[3] == '1';
    assert FirstNamed(f.entries, "B") == Some(f.entries[1]) by {
      assert FirstNamed(f.entries[1..], "B") == Some(f.entries[1]);
    }
    SetPrimaryThenGetBootorder(f, slots, slots[1]);
    assert NextSlot(f, slots) == Some(slots[0]);
    ModifiedListed(f, "B", true);
    assert BootSequence(Modified(f, "B", true).value)[0] == f.entries[0];
  }

  // ---- marking bad ---------------------------------------------------------------

  predicate AtMostOnce(es: seq<Entry>, b: string) {
    forall i, j :: 0 <= i < j < |es| && es[i].name == b ==> es[j].name != b
  }

  lemma {:induction false} RemoveNamedOnce(es: seq<Entry>, b: string)
    ensures FirstNamed(RemoveNamed(es, b), b).None? <==> AtMostOnce(es, b)
  {
    if es != [] {
      var rest := es[1..];
      assert forall i :: 0 <= i < |rest| ==> rest[i] == es[i + 1];
      if es[0].name == b {
        if FirstNamed(rest, b).Some? {
          var j :| 0 <= j < |rest| && rest[j] == FirstNamed(rest, b).value;
          assert es[j + 1].name == b;
        }
      } else {
        RemoveNamedOnce(rest, b);
        assert AtMostOnce(rest, b) ==> AtMostOnce(es, b) by {
          forall i, j | AtMostOnce(rest, b) && 0 <= i < j < |es| && es[i].name == b ensures es[j].name != b {
            assert es[i] == rest[i - 1] && es[j] == rest[j - 1];
          }
        }
        assert AtMostOnce(es, b) ==> AtMostOnce(rest, b);
      }
    }
  }

  lemma RemovedAll(es: seq<Entry>, b: string)
    requires AtMostOnce(es, b)
    ensures RemoveNamed(es, b) == [] <==> forall e :: e in es ==> e.name == b
  {
    if forall e :: e in es ==> e.name == b {
      if |es| > 1 {
        assert es[0] in es && es[1] in es;
      }
    } else if es != [] && es[0].name == b {
      assert es == [es[0]] + es[1..];
    }
  }

  /** Without the first entry of this name, another entry of this name is the first one of a configured slot. */
  ghost predicate SecondIsFirst(es: seq<Entry>, slots: seq<Slot>, b: string) {
    exists i, j :: IsSecond(es, slots, b, i, j)
  }

  ghost predicate IsSecond(es: seq<Entry>, slots: seq<Slot>, b: string, i: int, j: int) {
    0 <= i < j < |es| && es[i].name == b && es[j].name == b && NoneBetween(es, slots, i, j)
  }

  ghost predicate NoneBetween(es: seq<Entry>, slots: seq<Slot>, i: int, j: int) {
    forall k :: 0 <= k < |es| && k < j && k != i ==> FindSlot(slots, es[k].name).None?
  }

  lemma NoneBetweenTail(es: seq<Entry>, slots: seq<Slot>, i: int, j: int)
    requires es != []
    ensures 0 <= i <= j < |es| - 1 ==>
              (NoneBetween(es, slots, i + 1, j + 1) <==>
                  FindSlot(slots, es[0].name).None? && NoneBetween(es[1..], slots, i, j))
    ensures 0 <= j < |es| - 1 ==> (NoneBetween(es, slots, 0, j + 1) <==> NoneBetween(es[1..], slots, j, j))
  {
    assert forall k :: 0 <= k < |es| - 1 ==> es[1..][k] == es[k + 1];
  }

  ghost predicate IsFirst(es: seq<Entry>, slots: seq<Slot>, b: string, j: int) {
    0 <= j < |es| && es[j].name == b && NoneBetween(es, slots, j, j)
  }

  lemma {:induction false} FirstIsNamed(es: seq<Entry>, slots: seq<Slot>, slot: Slot)
    requires ValidSlots(slots) && slot in slots && Handled(slot)
    ensures FirstSlot(es, slots) == Ok(slot) <==> exists j :: IsFirst(es, slots, slot.bootname.value, j)
  {
    var b := slot.bootname.value;
    FindSlotUnique(slots, slot);
    if es != [] {
      var rest := es[1..];
      if es[0].name == b {
        assert IsFirst(es, slots, b, 0);
      } else {
        FirstIsNamed(rest, slots, slot);
        if j :| IsFirst(es, slots, b, j) {
          NoneBetweenTail(es, slots, j - 1, j - 1);
          assert IsFirst(rest, slots, b, j - 1);
        }
        if j :| IsFirst(rest, slots, b, j) {
          NoneBetweenTail(es, slots, j, j);
          assert FindSlot(slots, es[0].name).None? ==> IsFirst(es, slots, b, j + 1);
        }
      }
    }
  }

  lemma {:induction false} FirstAfterRemoval(es: seq<Entry>, slots: seq<Slot>, slot: Slot)
    requires ValidSlots(slots) && slot in slots && Handled(slot)
    ensures FirstSlot(RemoveNamed(es, slot.bootname.value), slots) == Ok(slot) <==>
            exists i, j :: IsSecond(es, slots, slot.bootname.value, i, j)
  {
    var b := slot.bootname.value;
    FindSlotUnique(slots, slot);
    if es != [] {
      var rest := es[1..];
      if es[0].name == b {
        FirstIsNamed(rest, slots, slot);
        if i, j :| IsSecond(es, slots, b, i, j) {
          NoneBetweenTail(es, slots, i - 1, j - 1);
          assert IsFirst(rest, slots, b, j - 1);
        }
        if j :| IsFirst(rest, slots, b, j) {
          NoneBetweenTail(es, slots, j, j);
          assert IsSecond(es, slots, b, 0, j + 1);
        }
      } else {
        FirstAfterRemoval(rest, slots, slot);
        if i, j :| IsSecond(es, slots, b, i, j) {
          NoneBetweenTail(es, slots, i - 1, j - 1);
          assert IsSecond(rest, slots, b, i - 1, j - 1);
        }
        if i, j :| IsSecond(rest, slots, b, i, j) {
          NoneBetweenTail(es, slots, i, j);
          assert FindSlot(slots, es[0].name).None? ==> IsSecond(es, slots, b, i + 1, j + 1);
        }
      }
    }
  }

  /** What get_primary returns: the slot of BootNext if it selects one, or else the first listed one. */
  lemma PrimaryIs(f: Firmware, slots: seq<Slot>)
    ensures PrimaryOf(f, slots) ==
            if !Readable(f) then Err
            else match NextSlot(f, slots) case Some(t) => Ok(t) case None => FirstSlot(Listed(f), slots)
  {
    if NextEntry(f).Some? {
      assert BootSequence(f)[1..] == Listed(f);
    } else {
      assert BootSequence(f) == Listed(f);
    }
  }

  /**
   Marking bad takes the slot out of the reported good ones exactly when its name was
   listed at most once. get_primary keeps returning it exactly when the order does not
   become empty, and BootNext selects it, or nothing, while a second entry of its name
   comes before those of the other slots.
   */
  lemma MarkBadMeaning(f: Firmware, slots: seq<Slot>, slot: Slot)
    requires ValidFirmware(f) && ValidSlots(slots) && slot in slots && Handled(slot)
    requires Readable(f)
    ensures var b := slot.bootname.value;
            var w := Modified(f, b, false).value;
            && (StateOf(w, b) != Ok(true) <==> AtMostOnce(Listed(f), b))
            && (PrimaryOf(w, slots) == Ok(slot) <==>
                  || (NextSlot(f, slots) == Some(slot)
                      && !(AtMostOnce(Listed(f), b) && forall e :: e in Listed(f) ==> e.name == b))
                  || (NextSlot(f, slots).None? && SecondIsFirst(Listed(f), slots, b)))
  {
    var b := slot.bootname.value;
    var w := Modified(f, b, false).value;
    var rest := RemoveNamed(Listed(f), b);
    ModifiedListed(f, b, false);
    RemoveNamedOnce(Listed(f), b);
    if AtMostOnce(Listed(f), b) {
      RemovedAll(Listed(f), b);
    }
    PrimaryIs(w, slots);
    FirstAfterRemoval(Listed(f), slots, slot);
    assert rest == [] ==> FirstSlot(rest, slots) == Err;
  }

  // ---- refinement of the abstract machine ----------------------------------------

  predicate IsListed(f: Firmware, b: string) {
    FirstNamed(Listed(f), b).Some?
  }

  ghost function ViewOf(f: Firmware, slots: seq<Slot>): View {
    View(
      match PrimaryOf(f, slots) case Ok(s) => s.bootname case Err => None,
      set s | s in slots && Handled(s) && StateOf(f, s.bootname.value) == Ok(true) :: s.bootname.value,
      set s | s in slots && Handled(s) && !IsListed(f, s.bootname.value) :: s.bootname.value,
      {})
  }

  lemma FirstSlotStep(es: seq<Entry>, slots: seq<Slot>, i: nat)
    requires i < |es|
    ensures FirstSlot(es[i..], slots) ==
            match FindSlot(slots, es[i].name) case Some(s) => Ok(s) case None => FirstSlot(es[i + 1..], slots)
  {
    assert es[i..][0] == es[i] && es[i..][1..] == es[i + 1..];
  }

  lemma RemoveStep(listed: seq<Entry>, b: string, i: nat)
    requires i < |listed|
    ensures listed[i].name == b ==> RemoveNamed(listed[i..], b) == listed[i + 1..]
    ensures listed[i].name != b ==>
              listed[..i] + RemoveNamed(listed[i..], b) == listed[..i + 1] + RemoveNamed(listed[i + 1..], b)
  {
    assert listed[i..][0] == listed[i] && listed[i..][1..] == listed[i + 1..];
    assert listed[..i + 1] == listed[..i] + [listed[i]];
    MoveOver(listed[..i], listed[i], RemoveNamed(listed[i + 1..], b));
  }

  lemma MoveOver(a: seq<Entry>, x: Entry, c: seq<Entry>)
    ensures a + ([x] + c) == a + [x] + c
  {
  }

  lemma {:induction false} FirstSlotRemoveNamed(es: seq<Entry>, slots: seq<Slot>, b: string)
    ensures FirstSlot(es, slots).Ok? && FirstSlot(es, slots).value.bootname != Some(b) ==>
              FirstSlot(RemoveNamed(es, b), slots) == FirstSlot(es, slots)
  {
    if es != [] && es[0].name != b {
      FirstSlotRemoveNamed(es[1..], slots, b);
    }
  }

  /** The abstract state is well formed exactly if BootNext selects no slot, or one that is listed as well. */
  lemma WfIff(f: Firmware, slots: seq<Slot>)
    ensures Wf(ViewOf(f, slots)) <==>
            !Readable(f) || NextSlot(f, slots).None? || IsListed(f, NextSlot(f, slots).value.bootname.value)
  {
    PrimaryIs(f, slots);
    if Readable(f) && NextSlot(f, slots).None? && PrimaryOf(f, slots).Ok? {
      var e :| e in Listed(f) && PrimaryOf(f, slots).value.bootname == Some(e.name);
    }
  }

  /** What a persistent operation does to the listed names. */
  lemma ListedAfter(f: Firmware, slots: seq<Slot>, b: string, prepend: bool)
    requires ValidFirmware(f) && Modified(f, b, prepend).Ok?
    ensures var w := Modified(f, b, prepend).value;
            && ValidFirmware(w) && NextSlot(w, slots) == NextSlot(f, slots)
            && (forall c :: c != b ==> IsListed(w, c) == IsListed(f, c))
            && (IsListed(w, b) <==> prepend || !AtMostOnce(Listed(f), b))
            && (prepend ==> Readable(w) && Listed(w)[0].name == b)
            && (!prepend ==> Listed(w) == RemoveNamed(Listed(f), b) && (Readable(w) <==> Listed(w) != []))
  {
    var w := Modified(f, b, prepend).value;
    var rest := RemoveNamed(Listed(f), b);
    ModifiedListed(f, b, prepend);
    RemoveNamedOnce(Listed(f), b);
    RemoveNamedMembers(Listed(f), b);
    forall c | c != b ensures IsListed(w, c) == IsListed(f, c) {
      if prepend && IsListed(w, c) {
        assert FirstNamed(Listed(w), c).value in rest;
      }
    }
  }

  lemma GoodAndDisabled(f: Firmware, slots: seq<Slot>)
    ensures forall s :: s in slots && Handled(s) ==>
              && (s.bootname.value in ViewOf(f, slots).good <==> IsListed(f, s.bootname.value))
              && (s.bootname.value in ViewOf(f, slots).disabled <==> !IsListed(f, s.bootname.value))
  {
  }

  /** In BootNext mode: what becomes primary has to be listed as well. */
  lemma TempPrimaryRefinesIff(f: Firmware, slots: seq<Slot>, slot: Slot)
    requires ValidFirmware(f) && ValidSlots(slots) && slot in slots && Handled(slot)
    requires TempPrimary(f, slot.bootname.value).Ok?
    ensures var b, w := slot.bootname.value, TempPrimary(f, slot.bootname.value).value;
            && (MadePrimary(ViewOf(f, slots), b, ViewOf(w, slots)) <==> IsListed(f, b))
            && (Wf(ViewOf(w, slots)) <==> IsListed(f, b))
  {
    var b, w := slot.bootname.value, TempPrimary(f, slot.bootname.value).value;
    SetPrimaryThenGetBootnext(f, slots, slot);
    assert Listed(w) == Listed(f) && Readable(w);
    assert ViewOf(w, slots).good == ViewOf(f, slots).good && ViewOf(w, slots).disabled == ViewOf(f, slots).disabled;
    assert b in ViewOf(f, slots).good <==> IsListed(f, b) by {
      GoodAndDisabled(f, slots);
    }
  }

  /** Putting a slot in front turns it good, and nobody else changes. */
  lemma PrependViews(f: Firmware, slots: seq<Slot>, slot: Slot)
    requires ValidFirmware(f) && slot in slots && Handled(slot)
    requires Modified(f, slot.bootname.value, true).Ok?
    ensures var b, v, w :=
              slot.bootname.value, ViewOf(f, slots), ViewOf(Modified(f, slot.bootname.value, true).value, slots);
            w.good == v.good + {b} && w.disabled == v.disabled - {b}
  {
    var b := slot.bootname.value;
    var w := Modified(f, b, true).value;
    ListedAfter(f, slots, b, true);
    GoodAndDisabled(f, slots);
    GoodAndDisabled(w, slots);
  }

  /** In BootOrder mode: BootNext must not select another slot. */
  lemma PrependRefinesIff(f: Firmware, slots: seq<Slot>, slot: Slot)
    requires ValidFirmware(f) && ValidSlots(slots) && slot in slots && Handled(slot)
    requires Modified(f, slot.bootname.value, true).Ok?
    ensures var b, v, w :=
              slot.bootname.value, ViewOf(f, slots), ViewOf(Modified(f, slot.bootname.value, true).value, slots);
            && (MadePrimary(v, b, w) <==> NextSlot(f, slots).None? || NextSlot(f, slots) == Some(slot))
            && MarkedGood(v, b, w) && b in w.good
  {
    var b := slot.bootname.value;
    var w := Modified(f, b, true).value;
    PrependViews(f, slots, slot);
    PrimaryAfterPrepend(f, slots, slot);
  }

  lemma PrimaryAfterPrepend(f: Firmware, slots: seq<Slot>, slot: Slot)
    requires ValidFirmware(f) && ValidSlots(slots) && slot in slots && Handled(slot)
    requires Modified(f, slot.bootname.value, true).Ok?
    ensures var w := Modified(f, slot.bootname.value, true).value;
            && (NextSlot(f, slots).Some? ==> PrimaryOf(w, slots) == PrimaryOf(f, slots) == Ok(NextSlot(f, slots).value))
            && (NextSlot(f, slots).None? ==> PrimaryOf(w, slots) == Ok(slot))
    ensures NextSlot(f, slots).Some? && NextSlot(f, slots).value.bootname == slot.bootname ==>
              NextSlot(f, slots) == Some(slot)
  {
    ListedAfter(f, slots, slot.bootname.value, true);
    PrimaryIs(f, slots);
    PrimaryIs(Modified(f, slot.bootname.value, true).value, slots);
    FindSlotUnique(slots, slot);
    if NextSlot(f, slots).Some? {
      FindSlotUnique(slots, NextSlot(f, slots).value);
    }
  }

  /**
   Marking bad: the name must not be listed twice, and must not be all that is listed while BootNext
   selects another slot.
   */
  lemma RemoveRefinesIff(f: Firmware, slots: seq<Slot>, slot: Slot)
    requires ValidFirmware(f) && ValidSlots(slots) && slot in slots && Handled(slot) && Readable(f)
    ensures var b := slot.bootname.value;
            MarkedBad(ViewOf(f, slots), b, ViewOf(Modified(f, b, false).value, slots)) <==>
              && AtMostOnce(Listed(f), b)
              && (NextSlot(f, slots).None? || NextSlot(f, slots) == Some(slot) || exists e :: e in Listed(f) && e.name != b)
  {
    var b := slot.bootname.value;
    var w := Modified(f, b, false).value;
    ListedAfter(f, slots, b, false);
    PrimaryIs(f, slots);
    PrimaryIs(w, slots);
    GoodAndDisabled(f, slots);
    GoodAndDisabled(w, slots);
    FindSlotUnique(slots, slot);
    FirstSlotRemoveNamed(Listed(f), slots, b);
    if AtMostOnce(Listed(f), b) {
      RemovedAll(Listed(f), b);
      assert ViewOf(w, slots).good == ViewOf(f, slots).good - {b};
      if NextSlot(f, slots).Some? {
        FindSlotUnique(slots, NextSlot(f, slots).value);
      }
    }
  }

  /** When an operation is a step of the abstract machine, as can be told before it. */
  ghost predicate StepsAbstractly(f: Firmware, slots: seq<Slot>, useBootnext: bool, op: BootOp)
    requires Handled(op.slot)
  {
    var b, next := op.slot.bootname.value, NextSlot(f, slots);
    match op
    case MakePrimary(s) => if useBootnext then IsListed(f, b) else next.None? || next == Some(s)
    case MarkState(_, true) => true
    case MarkState(s, false) =>
      AtMostOnce(Listed(f), b) && (next.None? || next == Some(s) || exists e :: e in Listed(f) && e.name != b)
  }

  /**
   In both modes and from any firmware state: exactly when a successful operation is a step of the
   abstract machine.
   */
  lemma Refines(f: Firmware, slots: seq<Slot>, useBootnext: bool, op: BootOp)
    requires ValidFirmware(f) && ValidSlots(slots)
    requires op.slot in slots && Handled(op.slot)
    requires Stored(f, useBootnext, op).Ok?
    ensures AbstractWrite(ViewOf(f, slots), op, ViewOf(Stored(f, useBootnext, op).value, slots), true) <==>
            StepsAbstractly(f, slots, useBootnext, op)
    ensures op.MarkState? && op.good ==> op.slot.bootname.value in ViewOf(Stored(f, useBootnext, op).value, slots).good
  {
    match op
    case MakePrimary(s) =>
      if useBootnext {
        TempPrimaryRefinesIff(f, slots, s);
      } else {
        PrependRefinesIff(f, slots, s);
      }
    case MarkState(s, good) =>
      if good {
        PrependRefinesIff(f, slots, s);
      } else {
        RemoveRefinesIff(f, slots, s);
      }
  }

  /** When the state after an operation is well formed, as can be told before it. */
  ghost predicate StaysWf(f: Firmware, slots: seq<Slot>, useBootnext: bool, op: BootOp)
    requires Handled(op.slot)
  {
    var b, next := op.slot.bootname.value, NextSlot(f, slots);
    if op.MakePrimary? && useBootnext then IsListed(f, b)
    else if op.MakePrimary? || op.good then
      next.None? || next == Some(op.slot) || (next.value.bootname.Some? && IsListed(f, next.value.bootname.value))
    else
      || next.None?
      || (AtMostOnce(Listed(f), b) && forall e :: e in Listed(f) ==> e.name == b)
      || (if next == Some(op.slot) then !AtMostOnce(Listed(f), b)
          else next.value.bootname.Some? && IsListed(f, next.value.bootname.value))
  }

  lemma StaysWfIff(f: Firmware, slots: seq<Slot>, useBootnext: bool, op: BootOp)
    requires ValidFirmware(f) && ValidSlots(slots)
    requires op.slot in slots && Handled(op.slot)
    requires Stored(f, useBootnext, op).Ok?
    ensures Wf(ViewOf(Stored(f, useBootnext, op).value, slots)) <==> StaysWf(f, slots, useBootnext, op)
  {
    if op.MakePrimary? && useBootnext {
      TempPrimaryRefinesIff(f, slots, op.slot);
    } else {
      WfIff(Stored(f, useBootnext, op).value, slots);
      NextIsListedAfter(f, slots, op.slot, op.MakePrimary? || op.good);
    }
  }

  /** Whether the slot of BootNext is listed after a persistent operation. */
  lemma NextIsListedAfter(f: Firmware, slots: seq<Slot>, slot: Slot, prepend: bool)
    requires ValidFirmware(f) && ValidSlots(slots) && slot in slots && Handled(slot)
    requires Modified(f, slot.bootname.value, prepend).Ok?
    ensures var b, next, w := slot.bootname.value, NextSlot(f, slots), Modified(f, slot.bootname.value, prepend).value;
            && NextSlot(w, slots) == next
            && (Readable(w) <==> prepend || !(AtMostOnce(Listed(f), b) && forall e :: e in Listed(f) ==> e.name == b))
            && (next.Some? ==> next.value.bootname.Some?)
            && (next.Some? ==>
                  (IsListed(w, next.value.bootname.value) <==>
                     if next == Some(slot) then prepend || !AtMostOnce(Listed(f), b) else IsListed(f, next.value.bootname.value)))
  {
    var b := slot.bootname.value;
    ListedAfter(f, slots, b, prepend);
    FindSlotUnique(slots, slot);
    if NextSlot(f, slots).Some? {
      FindSlotUnique(slots, NextSlot(f, slots).value);
    }
    if !prepend {
      RemoveNamedOnce(Listed(f), b);
      if AtMostOnce(Listed(f), b) {
        RemovedAll(Listed(f), b);
      }
    }
  }

  // ---- runs without BootNext -----------------------------------------------------

  predicate UniqueNames(es: seq<Entry>) {
    forall i, j :: 0 <= i < j < |es| ==> es[i].name != es[j].name
  }

  lemma UniqueTail(es: seq<Entry>)
    requires UniqueNames(es) && es != []
    ensures UniqueNames(es[1..]) && forall e :: e in es[1..] ==> e.name != es[0].name
  {
    forall e | e in es[1..] ensures e.name != es[0].name {
      var i :| 0 <= i < |es| - 1 && es[1..][i] == e;
      assert es[i + 1] == e;
    }
  }

  lemma UniqueCons(e: Entry, es: seq<Entry>)
    requires UniqueNames(es) && forall x :: x in es ==> x.name != e.name
    ensures UniqueNames([e] + es)
  {
    var all := [e] + es;
    forall i, j | 0 <= i < j < |all| ensures all[i].name != all[j].name {
      assert all[j] == es[j - 1] && es[j - 1] in es;
    }
  }

  lemma {:induction false} RemoveNamedUnique(es: seq<Entry>, b: string)
    requires UniqueNames(es)
    ensures UniqueNames(RemoveNamed(es, b)) && forall e :: e in RemoveNamed(es, b) ==> e.name != b
  {
    if es != [] {
      UniqueTail(es);
      if es[0].name != b {
        RemoveNamedUnique(es[1..], b);
        RemoveNamedMembers(es[1..], b);
        UniqueCons(es[0], RemoveNamed(es[1..], b));
      }
    }
  }

  /** BootNext selects no configured slot and no name is listed twice. */
  ghost predicate Settled(f: Firmware, slots: seq<Slot>) {
    ValidFirmware(f) && NextSlot(f, slots).None? && UniqueNames(Listed(f))
  }

  /**
   BootOrder mode, from a settled state: every operation is a step of the abstract machine and leaves
   a settled state.
   */
  lemma SettledRefines(f: Firmware, slots: seq<Slot>, op: BootOp)
    requires Settled(f, slots) && ValidSlots(slots)
    requires op.slot in slots && Handled(op.slot)
    requires Stored(f, false, op).Ok?
    ensures var w := Stored(f, false, op).value;
            && Settled(w, slots) && Wf(ViewOf(f, slots)) && Wf(ViewOf(w, slots))
            && AbstractWrite(ViewOf(f, slots), op, ViewOf(w, slots), true)
  {
    var b, prepend := op.slot.bootname.value, op.MakePrimary? || op.good;
    ListedAfter(f, slots, b, prepend);
    ModifiedListed(f, b, prepend);
    RemoveNamedUnique(Listed(f), b);
    if prepend {
      UniqueCons(FirstNamed(f.entries, b).value, RemoveNamed(Listed(f), b));
    }
    WfIff(f, slots);
    WfIff(Stored(f, false, op).value, slots);
    Refines(f, slots, false, op);
  }

  /** Successively stored firmware states in BootOrder mode. */
  ghost predicate FirmwareRun(slots: seq<Slot>, fs: seq<Firmware>, ops: seq<BootOp>) {
    && |fs| == |ops| + 1
    && (forall i :: 0 <= i < |ops| ==> Handled(ops[i].slot) && ops[i].slot in slots)
    && (forall i :: 0 <= i < |ops| ==> Stored(fs[i], false, ops[i]) == Ok(fs[i + 1]))
  }

  ghost function Views(slots: seq<Slot>, fs: seq<Firmware>): (vs: seq<View>)
    ensures |vs| == |fs| && forall i :: 0 <= i < |vs| ==> vs[i] == ViewOf(fs[i], slots)
  {
    seq(|fs|, i requires 0 <= i < |fs| => ViewOf(fs[i], slots))
  }

  lemma {:induction false} RunStaysSettled(slots: seq<Slot>, fs: seq<Firmware>, ops: seq<BootOp>, i: nat)
    requires ValidSlots(slots) && FirmwareRun(slots, fs, ops) && Settled(fs[0], slots) && i < |fs|
    ensures Settled(fs[i], slots)
  {
    if i > 0 {
      RunStaysSettled(slots, fs, ops, i - 1);
      SettledRefines(fs[i - 1], slots, ops[i - 1]);
    }
  }

  /** Any run in BootOrder mode that starts settled is a run of the abstract machine. */
  lemma RunIsAbstract(slots: seq<Slot>, fs: seq<Firmware>, ops: seq<BootOp>)
    requires ValidSlots(slots) && FirmwareRun(slots, fs, ops) && Settled(fs[0], slots)
    ensures AbstractRun(Views(slots, fs), ops)
  {
    var vs := Views(slots, fs);
    forall i | 0 <= i < |vs| ensures Wf(vs[i]) {
      RunStaysSettled(slots, fs, ops, i);
      WfIff(fs[i], slots);
    }
    forall i | 0 <= i < |ops| ensures AbstractWrite(vs[i], ops[i], vs[i + 1], true) {
      RunStaysSettled(slots, fs, ops, i);
      assert Stored(fs[i], false, ops[i]) == Ok(fs[i + 1]);
      SettledRefines(fs[i], slots, ops[i]);
    }
  }

  // ---- the backend itself --------------------------------------------------------

  datatype BootManagerOutput = BootManagerOutput(ordered: seq<Entry>, all: seq<Entry>, next: Option<Entry>)

  class Backend {
    const slots: seq<Slot>
    const useBootnext: bool
    var firmware: Firmware

    constructor (slots: seq<Slot>, useBootnext: bool, firmware: Firmware)
      ensures this.slots == slots && this.useBootnext == useBootnext && this.firmware == firmware
    {
      this.slots, this.useBootnext, this.firmware := slots, useBootnext, firmware;
    }

    method BootorderGet() returns (r: Result<BootManagerOutput>)
      ensures r == if Readable(firmware)
                   then Ok(BootManagerOutput(Listed(firmware), firmware.entries, NextEntry(firmware)))
                   else Err
    {
      if firmware.entries == [] {
        return Err;
      }
      var next: Option<Entry> := None;
      if firmware.next.Some? {
        next := ByNum(firmware.entries, firmware.next.value);
      }
      if firmware.order == "" {
        return Err;
      }
      var nums := Split(firmware.order, ',');
      var ordered: seq<Entry> := [];
      for i := 0 to |nums|
        invariant ordered + Resolve(firmware.entries, nums[i..]) == Resolve(firmware.entries, nums)
      {
        var entry := ByNum(firmware.entries, nums[i]);
        if entry.Some? {
          ordered := ordered + [entry.value];
        }
      }
      assert ordered == Listed(firmware);
      return Ok(BootManagerOutput(ordered, firmware.entries, next));
    }

    method SetTempPrimary(slot: Slot) returns (ok: bool)
      requires Handled(slot)
      modifies this`firmware
      ensures ok <==> TempPrimary(old(firmware), slot.bootname.value).Ok?
      ensures firmware == if ok then TempPrimary(old(firmware), slot.bootname.value).value else old(firmware)
    {
      var b := slot.bootname.value;
      var out := BootorderGet();
      if out.Err? {
        return false;
      }
      var all := out.value.all;
      for i := 0 to |all|
        invariant firmware == old(firmware)
        invariant FirstNamed(all, b) == FirstNamed(all[i..], b)
      {
        if all[i].name == b {
          firmware := firmware.(next := Some(all[i].num));
          return true;
        }
      }
      return false;
    }

    method ModifyPersistentBootorder(slot: Slot, prepend: bool) returns (ok: bool)
      requires Handled(slot)
      modifies this`firmware
      ensures ok <==> Modified(old(firmware), slot.bootname.value, prepend).Ok?
      ensures firmware == if ok then Modified(old(firmware), slot.bootname.value, prepend).value else old(firmware)
    {
      var b := slot.bootname.value;
      var out := BootorderGet();
      if out.Err? {
        return false;
      }
      var entries := WithoutFirst(out.value.ordered, b);
      if prepend {
        var found := FindNamed(out.value.all, b);
        if found.None? {
          return false;
        }
        entries := [found.value] + entries;
      }
      assert entries == NewListed(firmware, b, prepend);
      var bootorder := Numbers(entries);
      firmware := firmware.(order := Join(bootorder, ','));
      return true;
    }

    /** The loop over the full list that looks for the slot's entry. */
    method FindNamed(all: seq<Entry>, b: string) returns (found: Option<Entry>)
      ensures found == FirstNamed(all, b)
    {
      for i := 0 to |all|
        invariant FirstNamed(all, b) == FirstNamed(all[i..], b)
      {
        if all[i].name == b {
          return Some(all[i]);
        }
      }
      return None;
    }

    /** The loop that collects the numbers of the new boot order. */
    method Numbers(entries: seq<Entry>) returns (bootorder: seq<string>)
      ensures bootorder == Nums(entries)
    {
      bootorder := [];
      for i := 0 to |entries|
        invariant bootorder == Nums(entries)[..i]
      {
        bootorder := bootorder + [entries[i].num];
      }
    }

    /** The loop that takes the first entry of this name out of the list. */
    method WithoutFirst(listed: seq<Entry>, b: string) returns (entries: seq<Entry>)
      ensures entries == RemoveNamed(listed, b)
    {
      for i := 0 to |listed|
        invariant listed[..i] + RemoveNamed(listed[i..], b) == RemoveNamed(listed, b)
      {
        RemoveStep(listed, b, i);
        if listed[i].name == b {
          return listed[..i] + listed[i + 1..];
        }
      }
      assert listed[..|listed|] == listed;
      return listed;
    }

    method SetState(slot: Slot, good: bool) returns (ok: bool)
      requires Handled(slot)
      modifies this`firmware
      ensures ok <==> Stored(old(firmware), useBootnext, MarkState(slot, good)).Ok?
      ensures firmware == if ok then Stored(old(firmware), useBootnext, MarkState(slot, good)).value else old(firmware)
    {
      ok := ModifyPersistentBootorder(slot, good);
    }

    method GetState(slot: Slot) returns (r: Result<bool>)
      requires Handled(slot)
      ensures r == StateOf(firmware, slot.bootname.value)
    {
      var out := BootorderGet();
      if out.Err? {
        return Err;
      }
      var ordered := out.value.ordered;
      for i := 0 to |ordered|
        invariant FirstNamed(ordered, slot.bootname.value) == FirstNamed(ordered[i..], slot.bootname.value)
      {
        if ordered[i].name == slot.bootname.value {
          return Ok(true);
        }
      }
      return Ok(false);
    }

    method GetPrimary() returns (r: Result<Slot>)
      requires ValidSlots(slots)
      ensures r == PrimaryOf(firmware, slots)
    {
      var out := BootorderGet();
      if out.Err? {
        return Err;
      }
      var es := out.value.ordered;
      if out.value.next.Some? {
        es := [out.value.next.value] + es;
      }
      assert es == BootSequence(firmware);
      r := FirstConfigured(es);
    }

    /** The loop over the entries that looks for one of a configured slot. */
    method FirstConfigured(es: seq<Entry>) returns (r: Result<Slot>)
      requires ValidSlots(slots)
      ensures r == FirstSlot(es, slots)
    {
      for i := 0 to |es|
        invariant FirstSlot(es, slots) == FirstSlot(es[i..], slots)
      {
        FirstSlotStep(es, slots, i);
        var found := FindSlotNamed(es[i].name);
        if found.Some? {
          return Ok(found.value);
        }
      }
      return Err;
    }

    /** The loop over the slots for one entry. */
    method FindSlotNamed(b: string) returns (found: Option<Slot>)
      requires ValidSlots(slots)
      ensures found == FindSlot(slots, b)
    {
      for j := 0 to |slots|
        invariant forall k :: 0 <= k < j ==> slots[k].bootname != Some(b)
      {
        if slots[j].bootname == Some(b) {
          FindSlotUnique(slots, slots[j]);
          return Some(slots[j]);
        }
      }
      return None;
    }

    method SetPrimary(slot: Slot) returns (ok: bool)
      requires Handled(slot)
      modifies this`firmware
      ensures ok <==> Stored(old(firmware), useBootnext, MakePrimary(slot)).Ok?
      ensures firmware == if ok then Stored(old(firmware), useBootnext, MakePrimary(slot)).value else old(firmware)
    {
      if useBootnext {
        ok := SetTempPrimary(slot);
        return;
      }
      ok := ModifyPersistentBootorder(slot, true);
    }
  }
}
