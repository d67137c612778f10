/**
 The barebox backend: variables bootstate.<bootname>.priority and
 bootstate.<bootname>.remaining_attempts (decimal, read as 32-bit numbers). Every
 setter stores all its variables with one call of the state tool.
 */
module Barebox {
  import opened Wrappers
  import opened Text
  import opened BootModel

  type Env = map<string, string>

  const DEFAULT_PRIORITY: nat := 10
  const PRIORITY_PRIMARY: nat := 20

  function PrioKey(b: string): string { "bootstate." + b + ".priority" }

  function AttemptsKey(b: string): string { "bootstate." + b + ".remaining_attempts" }

  lemma KeysApart(b: string, c: string)
    ensures PrioKey(b) != AttemptsKey(c)
    ensures b != c ==> PrioKey(b) != PrioKey(c) && AttemptsKey(b) != AttemptsKey(c)
  {
    assert PrioKey(b)[|PrioKey(b)| - 1] == 'y' && AttemptsKey(c)[|AttemptsKey(c)| - 1] == 's';
    assert PrioKey(b)[10..|PrioKey(b)| - 9] == b && PrioKey(c)[10..|PrioKey(c)| - 9] == c;
    assert AttemptsKey(b)[10..|AttemptsKey(b)| - 19] == b && AttemptsKey(c)[10..|AttemptsKey(c)| - 19] == c;
  }

  // ---- what the getters report -------------------------------------------------

  /** One output line of the state tool, as a 32-bit number. */
  function Value(env: Env, key: string): Option<nat> {
    if key !in env then None
    else
      var n := Strtoull(env[key], 10);
      if !n.converted || n.overflow then None else Some(Low32(n.value))
  }

  /** The two variables of a slot, as read from the environment. */
  datatype Vars = Vars(prio: Option<nat>, left: Option<nat>)

  predicate Readable(v: Vars) { v.prio.Some? && v.left.Some? }

  predicate Good(v: Vars) {
    Readable(v) && v.prio.value > 0 && v.left.value > 0
  }

  function Read(env: Env, b: string): Vars {
    Vars(Value(env, PrioKey(b)), Value(env, AttemptsKey(b)))
  }

  /** How the bootnames read. */
  type Readings = map<string, Vars>

  function At(v: Readings, b: string): Vars {
    if b in v then v[b] else Vars(None, None)
  }

  function ReadAll(env: Env, slots: seq<Slot>): Readings {
    map s | s in slots && Handled(s) :: s.bootname.value := Read(env, s.bootname.value)
  }

  lemma ReadAllAt(env: Env, slots: seq<Slot>, s: Slot)
    requires s in slots && Handled(s)
    ensures At(ReadAll(env, slots), s.bootname.value) == Read(env, s.bootname.value)
  {
  }

  lemma ReadAllSame(env: Env, a: seq<Slot>, b: seq<Slot>)
    requires SameSlots(a, b)
    ensures ReadAll(env, a) == ReadAll(env, b)
  {
  }

  predicate Eligible(v: Readings, s: Slot) {
    Handled(s) && Good(At(v, s.bootname.value))
  }

  function Rank(v: Readings, s: Slot): nat
    requires Eligible(v, s)
  {
    At(v, s.bootname.value).prio.value
  }

  function StateIn(v: Readings, b: string): Result<bool> {
    if !Readable(At(v, b)) then Err else Ok(Good(At(v, b)))
  }

  /** The best of the first n slots: the first one of highest priority among those with attempts left. */
  function Best(v: Readings, slots: seq<Slot>, n: nat): (r: Option<Slot>)
    requires n <= |slots|
    ensures r.Some? ==> r.value in slots && Eligible(v, r.value)
  {
    if n == 0 then None
    else
      var r := Best(v, slots, n - 1);
      var s := slots[n - 1];
      if Eligible(v, s) && (r.None? || Rank(v, s) > Rank(v, r.value)) then Some(s) else r
  }

  lemma OneMoreBest(v: Readings, slots: seq<Slot>, i: nat)
    requires i < |slots|
    ensures var top, s := Best(v, slots, i), slots[i];
            Best(v, slots, i + 1) == if Eligible(v, s) && (top.None? || Rank(v, s) > Rank(v, top.value)) then Some(s) else top
  {
  }

  predicate AllReadable(v: Readings, slots: seq<Slot>) {
    forall s :: s in slots && Handled(s) ==> Readable(At(v, s.bootname.value))
  }

  /** The first n slots are readable. */
  predicate ReadableUpTo(v: Readings, slots: seq<Slot>, n: nat)
    requires n <= |slots|
  {
    forall j :: 0 <= j < n && Handled(slots[j]) ==> Readable(At(v, slots[j].bootname.value))
  }

  lemma ReadableThroughout(v: Readings, slots: seq<Slot>)
    ensures AllReadable(v, slots) <==> ReadableUpTo(v, slots, |slots|)
  {
  }

  function PrimaryIn(v: Readings, slots: seq<Slot>): Result<Slot> {
    if !AllReadable(v, slots) then Err
    else match Best(v, slots, |slots|) case None => Err case Some(s) => Ok(s)
  }

  /** What get_state and get_primary report about a stored environment. */
  function StateOf(env: Env, b: string): Result<bool> { if Readable(Read(env, b)) then Ok(Good(Read(env, b))) else Err }

  function PrimaryOf(env: Env, slots: seq<Slot>): Result<Slot> { PrimaryIn(ReadAll(env, slots), slots) }

  /** A variable as the state tool prints it, read as a 32-bit number; the rest of the line is ignored. */
  ghost predicate IsNumber(env: Env, key: string, n: int) {
    key in env && Strtoull(env[key], 10).converted && !Strtoull(env[key], 10).overflow
    && n == Strtoull(env[key], 10).value % 0x1_0000_0000
  }

  /** What is reported of a slot, told from the variables. */
  lemma StateMeaning(env: Env, b: string)
    ensures var prio, left := "bootstate." + b + ".priority", "bootstate." + b + ".remaining_attempts";
            && (StateOf(env, b) == Ok(true) <==>
                  exists p, n :: IsNumber(env, prio, p) && IsNumber(env, left, n) && p > 0 && n > 0)
            && (StateOf(env, b).Ok? <==> exists p, n :: IsNumber(env, prio, p) && IsNumber(env, left, n))
  {
    var prio, left := "bootstate." + b + ".priority", "bootstate." + b + ".remaining_attempts";
    if StateOf(env, b).Ok? {
      assert IsNumber(env, prio, Read(env, b).prio.value) && IsNumber(env, left, Read(env, b).left.value);
    }
  }

  /** s at position i is eligible and beats every eligible slot, ties going to the earlier one. */
  ghost predicate Wins(v: Readings, slots: seq<Slot>, n: nat, i: nat)
    requires i < n <= |slots|
  {
    && Eligible(v, slots[i])
    && (forall j :: 0 <= j < i && Eligible(v, slots[j]) ==> Rank(v, slots[j]) < Rank(v, slots[i]))
    && (forall j :: i <= j < n && Eligible(v, slots[j]) ==> Rank(v, slots[j]) <= Rank(v, slots[i]))
  }

  /** A later slot that is not better does not change the winner. */
  lemma WinnerStays(v: Readings, slots: seq<Slot>, n: nat, i: nat)
    requires 0 < n <= |slots| && i < n - 1 && Wins(v, slots, n - 1, i)
    requires !(Eligible(v, slots[n - 1]) && Rank(v, slots[n - 1]) > Rank(v, slots[i]))
    ensures Wins(v, slots, n, i)
  {
  }

  /** A later slot that beats the winner beats everyone. */
  lemma WinnerChanges(v: Readings, slots: seq<Slot>, n: nat, i: nat)
    requires 0 < n <= |slots| && i < n - 1 && Wins(v, slots, n - 1, i)
    requires Eligible(v, slots[n - 1]) && Rank(v, slots[n - 1]) > Rank(v, slots[i])
    ensures Wins(v, slots, n, n - 1)
  {
  }

  lemma {:induction false} BestMeaning(v: Readings, slots: seq<Slot>, n: nat)
    requires n <= |slots|
    ensures Best(v, slots, n).Some? ==>
              exists i :: 0 <= i < n && slots[i] == Best(v, slots, n).value && Wins(v, slots, n, i)
    ensures Best(v, slots, n).None? ==> forall i :: 0 <= i < n ==> !Eligible(v, slots[i])
  {
    if n > 0 {
      BestMeaning(v, slots, n - 1);
      var r, last := Best(v, slots, n - 1), slots[n - 1];
      if r.Some? {
        var i :| 0 <= i < n - 1 && slots[i] == r.value && Wins(v, slots, n - 1, i);
        if Eligible(v, last) && Rank(v, last) > Rank(v, r.value) {
          WinnerChanges(v, slots, n, i);
        } else {
          WinnerStays(v, slots, n, i);
        }
      } else if Eligible(v, last) {
        assert Wins(v, slots, n, n - 1);
      }
    }
  }

  /** The primary slot is the winner, and there is one exactly when all slots are readable and one is eligible. */
  lemma PrimaryMeaning(v: Readings, slots: seq<Slot>)
    ensures PrimaryIn(v, slots).Ok? <==> AllReadable(v, slots) && exists s :: s in slots && Eligible(v, s)
    ensures PrimaryIn(v, slots).Ok? ==>
              exists i :: 0 <= i < |slots| && slots[i] == PrimaryIn(v, slots).value && Wins(v, slots, |slots|, i)
  {
    BestMeaning(v, slots, |slots|);
  }

  /** There is at most one winner. */
  lemma WinnerIsPrimary(v: Readings, slots: seq<Slot>, i: nat)
    requires AllReadable(v, slots) && i < |slots| && Wins(v, slots, |slots|, i)
    ensures PrimaryIn(v, slots) == Ok(slots[i])
  {
    PrimaryMeaning(v, slots);
    assert slots[i] in slots;
    var j :| 0 <= j < |slots| && slots[j] == PrimaryIn(v, slots).value && Wins(v, slots, |slots|, j);
    assert i == j;
  }

  // ---- what the setters store --------------------------------------------------

  function AfterState(c: Config, env: Env, b: string, good: bool): Env {
    if good then env[AttemptsKey(b) := Print(OnGood(c), 10)]
    else env[PrioKey(b) := Print(0, 10)][AttemptsKey(b) := Print(0, 10)]
  }

  function NewPrio(v: Readings, s: Slot, slot: Slot): nat
    requires Handled(s)
  {
    if s == slot then PRIORITY_PRIMARY
    else if At(v, s.bootname.value).prio == Some(0) then 0
    else DEFAULT_PRIORITY
  }

  /** The priorities of the first n slots, as name and value pairs. */
  function Pairs(v: Readings, slots: seq<Slot>, slot: Slot, n: nat): Env
    requires n <= |slots|
  {
    if n == 0 then map[]
    else
      var s := slots[n - 1];
      var rest := Pairs(v, slots, slot, n - 1);
      if Handled(s) then rest[PrioKey(s.bootname.value) := Print(NewPrio(v, s, slot), 10)] else rest
  }

  function AfterPrimary(c: Config, env: Env, slots: seq<Slot>, slot: Slot): Env
    requires Handled(slot)
  {
    env + Pairs(ReadAll(env, slots), slots, slot, |slots|)[AttemptsKey(slot.bootname.value) := Print(OnPrimary(c), 10)]
  }

  /** The environments stored by an operation; making primary stores nothing unless all slots are readable. */
  function Writes(c: Config, env: Env, slots: seq<Slot>, op: BootOp): (ws: seq<Env>)
    requires Handled(op.slot)
  {
    match op
    case MarkState(s, good) => [AfterState(c, env, s.bootname.value, good)]
    case MakePrimary(s) => if AllReadable(ReadAll(env, slots), slots) then [AfterPrimary(c, env, slots, s)] else []
  }

  /** What making a slot primary stores: 20 for it, 10 for any other one that is not disabled, and its attempts. */
  lemma PrimaryStores(c: Config, env: Env, slots: seq<Slot>, slot: Slot, s: Slot)
    requires ValidSlots(slots) && slot in slots && Handled(slot) && s in slots && Handled(s)
    ensures var w := AfterPrimary(c, env, slots, slot);
            var prio, left := "bootstate." + s.bootname.value + ".priority",
                              "bootstate." + s.bootname.value + ".remaining_attempts";
            && prio in w && w[prio] == (if s == slot then "20" else if Value(env, prio) == Some(0) then "0" else "10")
            && (s == slot ==> left in w && w[left] == Print(OnPrimary(c), 10))
            && (s != slot ==> (left in w <==> left in env) && (left in w ==> w[left] == env[left]))
  {
    var v := ReadAll(env, slots);
    assert slots[..|slots|] == slots;
    PairsValues(v, slots, slot, |slots|, s);
    PairsArePrios(v, slots, slot, |slots|, s.bootname.value);
    KeysApart(slot.bootname.value, s.bootname.value);
    KeysApart(s.bootname.value, slot.bootname.value);
    FindSlotUnique(slots, s);
    FindSlotUnique(slots, slot);
    ReadAllAt(env, slots, s);
    PrintedPriorities();
  }

  lemma PrintedPriorities()
    ensures Print(0, 10) == "0" && Print(10, 10) == "10" && Print(20, 10) == "20"
  {
    assert Print(1, 10) == "1" && Print(2, 10) == "2";
  }

  // ---- how the stored values read back -------------------------------------------

  lemma ValueOfPrint(env: Env, key: string, n: nat)
    requires n < TWO_32
    requires key in env && env[key] == Print(n, 10)
    ensures Value(env, key) == Some(n)
  {
    StrtoullOfPrint(n, 10);
  }

  lemma AfterStateReads(c: Config, env: Env, b: string, good: bool, d: string)
    ensures Read(AfterState(c, env, b, good), d) ==
              if d != b then Read(env, d)
              else if good then Read(env, d).(left := Some(OnGood(c)))
              else Vars(Some(0), Some(0))
  {
    var w := AfterState(c, env, b, good);
    KeysApart(b, d);
    KeysApart(d, b);
    if d == b {
      ValueOfPrint(w, AttemptsKey(b), if good then OnGood(c) else 0);
      if !good {
        ValueOfPrint(w, PrioKey(b), 0);
      }
    }
  }

  /** Marking a slot changes what is reported of no other slot. */
  lemma OthersKeepState(c: Config, env: Env, b: string, good: bool, other: string)
    requires other != b
    ensures StateOf(AfterState(c, env, b, good), other) == StateOf(env, other)
  {
    AfterStateReads(c, env, b, good, other);
  }

  lemma {:induction false} PairsValues(v: Readings, slots: seq<Slot>, slot: Slot, n: nat, s: Slot)
    requires ValidSlots(slots) && n <= |slots|
    requires Handled(s) && s in slots[..n]
    ensures PrioKey(s.bootname.value) in Pairs(v, slots, slot, n)
    ensures Pairs(v, slots, slot, n)[PrioKey(s.bootname.value)] == Print(NewPrio(v, s, slot), 10)
  {
    var t := slots[n - 1];
    if s in slots[..n - 1] {
      PairsValues(v, slots, slot, n - 1, s);
      if Handled(t) {
        KeysApart(s.bootname.value, t.bootname.value);
      }
    }
  }

  lemma {:induction false} PairsArePrios(v: Readings, slots: seq<Slot>, slot: Slot, n: nat, d: string)
    requires n <= |slots|
    ensures AttemptsKey(d) !in Pairs(v, slots, slot, n)
  {
    if n > 0 {
      PairsArePrios(v, slots, slot, n - 1, d);
      if Handled(slots[n - 1]) {
        KeysApart(slots[n - 1].bootname.value, d);
      }
    }
  }

  lemma AfterPrimaryReads(c: Config, env: Env, slots: seq<Slot>, slot: Slot, s: Slot)
    requires ValidSlots(slots) && slot in slots && Handled(slot) && s in slots && Handled(s)
    ensures Read(AfterPrimary(c, env, slots, slot), s.bootname.value) ==
              Vars(Some(NewPrio(ReadAll(env, slots), s, slot)),
                   if s == slot then Some(OnPrimary(c)) else Read(env, s.bootname.value).left)
  {
    var b, d := slot.bootname.value, s.bootname.value;
    var w := AfterPrimary(c, env, slots, slot);
    assert slots[..|slots|] == slots;
    PairsValues(ReadAll(env, slots), slots, slot, |slots|, s);
    PairsArePrios(ReadAll(env, slots), slots, slot, |slots|, d);
    KeysApart(b, d);
    KeysApart(d, b);
    FindSlotUnique(slots, s);
    FindSlotUnique(slots, slot);
    ValueOfPrint(w, PrioKey(d), NewPrio(ReadAll(env, slots), s, slot));
    if s == slot {
      ValueOfPrint(w, AttemptsKey(d), OnPrimary(c));
    }
  }

  // ---- refinement of the abstract machine ----------------------------------------

  /** Never chosen by the bootloader, whatever its attempts. */
  predicate Retired(v: Readings, b: string) { At(v, b).prio == Some(0) }

  predicate Disabled(v: Readings, b: string) { Retired(v, b) || At(v, b).left == Some(0) }

  ghost function ViewIn(v: Readings, slots: seq<Slot>): View {
    View(
      match PrimaryIn(v, slots) case Ok(s) => s.bootname case Err => None,
      set s | s in slots && Handled(s) && StateIn(v, s.bootname.value) == Ok(true) :: s.bootname.value,
      set s | s in slots && Handled(s) && Disabled(v, s.bootname.value) :: s.bootname.value,
      set s | s in slots && Handled(s) && Retired(v, s.bootname.value) :: s.bootname.value)
  }

  ghost function ViewOf(env: Env, slots: seq<Slot>): View { ViewIn(ReadAll(env, slots), slots) }

  lemma ViewWf(v: Readings, slots: seq<Slot>)
    ensures Wf(ViewIn(v, slots))
  {
  }

  lemma RefinesMarkBad(v: Readings, w: Readings, slots: seq<Slot>, slot: Slot)
    requires slot in slots && Handled(slot)
    requires forall d :: At(w, d) == if d == slot.bootname.value then Vars(Some(0), Some(0)) else At(v, d)
    ensures MarkedBad(ViewIn(v, slots), slot.bootname.value, ViewIn(w, slots))
    ensures slot.bootname.value in ViewIn(w, slots).retired
  {
    var b := slot.bootname.value;
    if PrimaryIn(v, slots).Ok? && PrimaryIn(v, slots).value.bootname != Some(b) {
      PrimaryMeaning(v, slots);
      var i :| 0 <= i < |slots| && slots[i] == PrimaryIn(v, slots).value && Wins(v, slots, |slots|, i);
      assert Wins(w, slots, |slots|, i);
      WinnerIsPrimary(w, slots, i);
    }
    assert ViewIn(w, slots).good == ViewIn(v, slots).good - {b};
  }

  lemma RefinesMarkGood(v: Readings, w: Readings, slots: seq<Slot>, slot: Slot, n: nat)
    requires slot in slots && Handled(slot) && n > 0
    requires forall d :: At(w, d) == if d == slot.bootname.value then At(v, d).(left := Some(n)) else At(v, d)
    ensures MarkedGood(ViewIn(v, slots), slot.bootname.value, ViewIn(w, slots))
  {
    var b := slot.bootname.value;
    if PrimaryIn(v, slots).Ok? {
      PrimaryMeaning(v, slots);
      PrimaryMeaning(w, slots);
      assert Eligible(w, PrimaryIn(v, slots).value);
      var i :| 0 <= i < |slots| && slots[i] == PrimaryIn(w, slots).value && Wins(w, slots, |slots|, i);
      if slots[i].bootname != Some(b) {
        assert Wins(v, slots, |slots|, i);
        WinnerIsPrimary(v, slots, i);
      }
    }
  }

  lemma RefinesMakePrimary(v: Readings, w: Readings, slots: seq<Slot>, slot: Slot, n: nat)
    requires ValidSlots(slots) && slot in slots && Handled(slot) && n > 0
    requires AllReadable(v, slots)
    requires forall s :: s in slots && Handled(s) ==>
               At(w, s.bootname.value) ==
                   Vars(Some(NewPrio(v, s, slot)), if s == slot then Some(n) else At(v, s.bootname.value).left)
    ensures PrimaryIn(w, slots) == Ok(slot) && StateIn(w, slot.bootname.value) == Ok(true)
    ensures MadePrimary(ViewIn(v, slots), slot.bootname.value, ViewIn(w, slots))
  {
    var i :| 0 <= i < |slots| && slots[i] == slot;
    assert forall j :: 0 <= j < |slots| && j != i ==> slots[j] != slot by {
      assert forall j :: 0 <= j < |slots| && j != i ==> slots[j].name != slot.name;
    }
    assert Wins(w, slots, |slots|, i);
    WinnerIsPrimary(w, slots, i);
  }

  lemma AfterPrimaryReadings(c: Config, env: Env, setterOrder: seq<Slot>, getterOrder: seq<Slot>, slot: Slot)
    requires ValidSlots(setterOrder) && SameSlots(setterOrder, getterOrder) && slot in setterOrder && Handled(slot)
    ensures var v, w := ReadAll(env, getterOrder), ReadAll(AfterPrimary(c, env, setterOrder, slot), getterOrder);
            forall s :: s in getterOrder && Handled(s) ==>
              At(w, s.bootname.value) ==
              Vars(Some(NewPrio(v, s, slot)), if s == slot then Some(OnPrimary(c)) else At(v, s.bootname.value).left)
  {
    ReadAllSame(env, setterOrder, getterOrder);
    var v, w := ReadAll(env, getterOrder), ReadAll(AfterPrimary(c, env, setterOrder, slot), getterOrder);
    forall s | s in getterOrder && Handled(s)
      ensures At(w, s.bootname.value) ==
                Vars(Some(NewPrio(v, s, slot)), if s == slot then Some(OnPrimary(c)) else At(v, s.bootname.value).left)
    {
      AfterPrimaryReads(c, env, setterOrder, slot, s);
      ReadAllAt(env, getterOrder, s);
      ReadAllAt(AfterPrimary(c, env, setterOrder, slot), getterOrder, s);
    }
  }

  lemma ReportedState(env: Env, slots: seq<Slot>, s: Slot)
    requires s in slots && Handled(s)
    ensures StateOf(env, s.bootname.value) == StateIn(ReadAll(env, slots), s.bootname.value)
  {
    ReadAllAt(env, slots, s);
  }

  /** get_primary after a successful set_primary, for any two iteration orders of the slot table. */
  lemma SetPrimaryThenGet(c: Config, env: Env, setterOrder: seq<Slot>, getterOrder: seq<Slot>, slot: Slot)
    requires ValidSlots(setterOrder) && ValidSlots(getterOrder) && SameSlots(setterOrder, getterOrder)
    requires slot in setterOrder && Handled(slot)
    requires AllReadable(ReadAll(env, setterOrder), setterOrder)
    ensures var w := AfterPrimary(c, env, setterOrder, slot);
            && PrimaryOf(w, getterOrder) == Ok(slot) && StateOf(w, slot.bootname.value) == Ok(true)
            && MadePrimary(ViewOf(env, getterOrder), slot.bootname.value, ViewOf(w, getterOrder))
  {
    ReadAllSame(env, setterOrder, getterOrder);
    AfterPrimaryReadings(c, env, setterOrder, getterOrder, slot);
    var w := AfterPrimary(c, env, setterOrder, slot);
    RefinesMakePrimary(ReadAll(env, getterOrder), ReadAll(w, getterOrder), getterOrder, slot, OnPrimary(c));
    ReportedState(w, getterOrder, slot);
  }

  lemma RefinesMarkState(c: Config, env: Env, slots: seq<Slot>, slot: Slot, good: bool)
    requires slot in slots && Handled(slot)
    ensures var b, w := slot.bootname.value, ViewOf(AfterState(c, env, slot.bootname.value, good), slots);
            AbstractWrite(ViewOf(env, slots), MarkState(slot, good), w, true) && (!good ==> b in w.retired)
  {
    var b := slot.bootname.value;
    var v, w := ReadAll(env, slots), ReadAll(AfterState(c, env, b, good), slots);
    forall d | d in v
      ensures w[d] == if d != b then v[d] else if good then v[d].(left := Some(OnGood(c))) else Vars(Some(0), Some(0))
    {
      AfterStateReads(c, env, b, good, d);
    }
    if good {
      RefinesMarkGood(v, w, slots, slot, OnGood(c));
    } else {
      RefinesMarkBad(v, w, slots, slot);
    }
  }

  /** The bootloader counts down: a slot without attempts left is neither good nor primary. */
  lemma SpentIsDisabled(env: Env, slots: seq<Slot>, slot: Slot)
    requires slot in slots && Handled(slot)
    ensures var b := slot.bootname.value;
            var v := ViewOf(env["bootstate." + b + ".remaining_attempts" := "0"], slots);
            b in v.disabled && b !in v.good && v.primary != Some(b)
  {
    var b := slot.bootname.value;
    var w := env["bootstate." + b + ".remaining_attempts" := "0"];
    assert Print(0, 10) == "0";
    ValueOfPrint(w, AttemptsKey(b), 0);
    ReadAllAt(w, slots, slot);
    ViewWf(ReadAll(w, slots), slots);
  }

  /** A stored environment is what a step of the abstract machine leads to. */
  ghost predicate StepsTo(env: Env, slots: seq<Slot>, op: BootOp, w: Env)
    requires Handled(op.slot)
  {
    && Wf(ViewOf(env, slots)) && Wf(ViewOf(w, slots))
    && AbstractWrite(ViewOf(env, slots), op, ViewOf(w, slots), true)
    && (op == MarkState(op.slot, false) ==> op.slot.bootname.value in ViewOf(w, slots).retired)
  }

  lemma MarkStateSteps(c: Config, env: Env, slots: seq<Slot>, slot: Slot, good: bool)
    requires slot in slots && Handled(slot)
    ensures StepsTo(env, slots, MarkState(slot, good), AfterState(c, env, slot.bootname.value, good))
  {
    ViewWf(ReadAll(env, slots), slots);
    ViewWf(ReadAll(AfterState(c, env, slot.bootname.value, good), slots), slots);
    RefinesMarkState(c, env, slots, slot, good);
  }

  lemma MakePrimarySteps(c: Config, env: Env, slots: seq<Slot>, order: seq<Slot>, slot: Slot)
    requires ValidSlots(slots) && ValidSlots(order) && SameSlots(slots, order) && slot in slots && Handled(slot)
    requires AllReadable(ReadAll(env, order), order)
    ensures StepsTo(env, slots, MakePrimary(slot), AfterPrimary(c, env, order, slot))
  {
    ViewWf(ReadAll(env, slots), slots);
    ViewWf(ReadAll(AfterPrimary(c, env, order, slot), slots), slots);
    SetPrimaryThenGet(c, env, order, slots, slot);
  }

  /** Every write of every operation is a step of the abstract machine, in any iteration order. */
  lemma Refines(c: Config, env: Env, slots: seq<Slot>, order: seq<Slot>, op: BootOp, i: nat)
    requires ValidSlots(slots) && ValidSlots(order) && SameSlots(slots, order)
    requires op.slot in slots && Handled(op.slot)
    requires i < |Writes(c, env, order, op)|
    ensures |Writes(c, env, order, op)| == 1
    ensures StepsTo(env, slots, op, Writes(c, env, order, op)[i])
  {
    match op
    case MarkState(s, good) => MarkStateSteps(c, env, slots, s, good);
    case MakePrimary(s) => MakePrimarySteps(c, env, slots, order, s);
  }

  // ---- the backend itself --------------------------------------------------------

  datatype SlotState = SlotState(prio: nat, attempts: nat)

  class Backend {
    const slots: seq<Slot>
    const config: Config
    var env: Env

    constructor (slots: seq<Slot>, config: Config, env: Env)
      ensures this.slots == slots && this.config == config && this.env == env
    {
      this.slots, this.config, this.env := slots, config, env;
    }

    method StateGet(b: string) returns (r: Result<SlotState>)
      ensures r.Ok? <==> Readable(Read(env, b))
      ensures r.Ok? ==> Some(r.value.prio) == Read(env, b).prio && Some(r.value.attempts) == Read(env, b).left
    {
      var keys := [PrioKey(b), AttemptsKey(b)];
      var result: seq<nat> := [];
      for i := 0 to 2
        invariant |result| == i
        invariant forall k :: 0 <= k < i ==> Value(env, keys[k]) == Some(Low32(result[k]))
      {
        if keys[i] !in env {
          return Err;
        }
        var n := Strtoull(env[keys[i]], 10);
        if n.value == 0 && !n.converted {
          return Err;
        } else if n.overflow {
          return Err;
        }
        result := result + [n.value];
      }
      assert keys[0] == PrioKey(b) && keys[1] == AttemptsKey(b);
      return Ok(SlotState(Low32(result[0]), Low32(result[1])));
    }

    method GetState(slot: Slot) returns (r: Result<bool>)
      requires Handled(slot)
      ensures r == StateOf(env, slot.bootname.value)
    {
      var state := StateGet(slot.bootname.value);
      if state.Err? {
        return Err;
      }
      if state.value.prio > 0 {
        return Ok(state.value.attempts > 0);
      } else {
        return Ok(false);
      }
    }

    method SetState(slot: Slot, good: bool)
      requires Handled(slot)
      modifies this`env
      ensures [env] == Writes(config, old(env), slots, MarkState(slot, good))
      ensures var prio, left := "bootstate." + slot.bootname.value + ".priority",
                                "bootstate." + slot.bootname.value + ".remaining_attempts";
              env == if good then old(env)[left := Print(OnGood(config), 10)] else old(env)[prio := "0"][left := "0"]
    {
      var b := slot.bootname.value;
      var pairs: Env := map[];
      var attempts: int;
      if good {
        attempts := config.defaultAttempts;
        if attempts <= 0 {
          attempts := DEFAULT_ATTEMPTS;
        }
      } else {
        attempts := 0;
        pairs := pairs[PrioKey(b) := Print(0, 10)];
      }
      pairs := pairs[AttemptsKey(b) := Print(attempts, 10)];
      env := env + pairs;
      assert env == AfterState(config, old(env), b, good);
    }

    method GetPrimary() returns (r: Result<Slot>)
      ensures r == PrimaryOf(env, slots)
    {
      ghost var v := ReadAll(env, slots);
      var primary: Option<Slot> := None;
      var topPrio: nat := 0;
      for i := 0 to |slots|
        invariant ReadableUpTo(v, slots, i)
        invariant primary == Best(v, slots, i)
        invariant topPrio == if primary.Some? then Rank(v, primary.value) else 0
      {
        OneMoreBest(v, slots, i);
        var prio := UsablePriority(slots[i]);
        if prio.Err? {
          return Err;
        }
        if prio.value > topPrio {
          primary, topPrio := Some(slots[i]), prio.value;
        }
      }
      ReadableThroughout(v, slots);
      if primary.None? {
        return Err;
      }
      return Ok(primary.value);
    }

    /** The priority of one slot, or 0 if it is not handled or has no attempts left. */
    method UsablePriority(slot: Slot) returns (prio: Result<nat>)
      requires slot in slots
      ensures prio.Err? <==> Handled(slot) && !Readable(At(ReadAll(env, slots), slot.bootname.value))
      ensures var v := ReadAll(env, slots);
              prio.Ok? ==> prio.value == if Eligible(v, slot) then Rank(v, slot) else 0
    {
      if !Handled(slot) {
        return Ok(0);
      }
      ReadAllAt(env, slots, slot);
      var state := StateGet(slot.bootname.value);
      if state.Err? {
        return Err;
      }
      return Ok(if state.value.attempts == 0 then 0 else state.value.prio);
    }

    /** The new priority of one slot. */
    method PriorityFor(s: Slot, slot: Slot) returns (prio: Result<nat>)
      requires Handled(s) && s in slots
      ensures prio.Ok? <==> Readable(Read(env, s.bootname.value))
      ensures prio.Ok? ==> prio.value == NewPrio(ReadAll(env, slots), s, slot)
    {
      ReadAllAt(env, slots, s);
      var state := StateGet(s.bootname.value);
      if state.Err? {
        return Err;
      }
      if s == slot {
        return Ok(PRIORITY_PRIMARY);
      } else if state.value.prio == 0 {
        return Ok(0);
      } else {
        return Ok(DEFAULT_PRIORITY);
      }
    }

    method SetPrimary(slot: Slot) returns (ok: bool)
      requires Handled(slot)
      modifies this`env
      ensures ok <==> AllReadable(ReadAll(old(env), slots), slots)
      ensures ok ==> [env] == Writes(config, old(env), slots, MakePrimary(slot))
      ensures !ok ==> env == old(env)
    {
      var pairs: Env := map[];
      for i := 0 to |slots|
        invariant env == old(env)
        invariant ReadableUpTo(ReadAll(env, slots), slots, i)
        invariant pairs == Pairs(ReadAll(env, slots), slots, slot, i)
      {
        var s := slots[i];
        if !Handled(s) {
          continue;
        }
        ReadAllAt(env, slots, s);
        var prio := PriorityFor(s, slot);
        if prio.Err? {
          return false;
        }
        pairs := pairs[PrioKey(s.bootname.value) := Print(prio.value, 10)];
      }
      ReadableThroughout(ReadAll(env, slots), slots);
      var attempts: int := config.primaryAttempts;
      if attempts <= 0 {
        attempts := ATTEMPTS_PRIMARY;
      }
      pairs := pairs[AttemptsKey(slot.bootname.value) := Print(attempts, 10)];
      env := env + pairs;
      return true;
    }
  }
}
