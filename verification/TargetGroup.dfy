/**
 Which slots are booted, active or inactive, and which of them an installation writes.
 */
module TargetGroup {
  import opened Wrappers
  import opened Collections
  import opened SlotTree

  // ---- slots as values -------------------------------------------------------------------

  datatype Entry = Entry(sclass: string, parent: Option<string>, state: SlotState)

  type Slots = map<string, Entry>

  /** Every parent is a slot without parent, as after reading the configuration. */
  predicate FlatSlots(v: Slots) {
    forall n :: n in v && v[n].parent.Some? ==> v[n].parent.value in v && v[v[n].parent.value].parent.None?
  }

  predicate Lists(order: seq<string>, v: Slots) {
    && (forall i :: 0 <= i < |order| ==> order[i] in v)
    && forall n :: n in v ==> n in order
  }

  function RootName(v: Slots, n: string): (r: string)
    requires FlatSlots(v) && n in v
    ensures r in v && v[r].parent.None?
  {
    if v[n].parent.Some? then v[n].parent.value else n
  }

  // ---- states -----------------------------------------------------------------------------

  /** The states once the booted slot is known; nothing is booted when booting from outside. */
  function WithStates(v: Slots, booted: Option<string>): Slots {
    map n | n in v ::
      v[n].(state := if booted == Some(n) then Booted
                     else if booted.Some? && v[n].parent == booted then Active
                     else Inactive)
  }

  // ---- root classes ------------------------------------------------------------------------

  function IndexIn(cs: seq<string>, c: string): (i: nat)
    ensures i <= |cs| && (i == |cs| <==> c !in cs)
    ensures i < |cs| ==> cs[i] == c
  {
    if cs == [] then 0 else if cs[0] == c then 0 else 1 + IndexIn(cs[1..], c)
  }

  /** Removes the first occurrence and moves the last element into its place. */
  function RemoveFast(cs: seq<string>, c: string): seq<string> {
    var i := IndexIn(cs, c);
    if i == |cs| then cs else cs[i := cs[|cs| - 1]][..|cs| - 1]
  }

  lemma RemoveFastMeaning(cs: seq<string>, c: string)
    requires Distinct(cs)
    ensures var r := RemoveFast(cs, c); Distinct(r) && forall d :: d in r <==> d in cs && d != c
  {
    var i := IndexIn(cs, c);
    if i < |cs| {
      var r := RemoveFast(cs, c);
      forall d | d in cs && d != c ensures d in r {
        var k :| 0 <= k < |cs| && cs[k] == d;
        if k == |cs| - 1 {
          assert r[i] == d;
        } else {
          assert r[k] == d;
        }
      }
    }
  }

  /** The classes of the slots without parent among the first slots of the order. */
  function RootClasses(v: Slots, order: seq<string>): seq<string>
    requires forall i :: 0 <= i < |order| ==> order[i] in v
    decreases |order|
  {
    if order == [] then []
    else
      var before := RootClasses(v, order[..|order| - 1]);
      var last := v[order[|order| - 1]];
      if last.parent.Some? then before else RemoveFast(before, last.sclass) + [last.sclass]
  }

  lemma {:induction false} RootClassesMeaning(v: Slots, order: seq<string>)
    requires forall i :: 0 <= i < |order| ==> order[i] in v
    ensures Distinct(RootClasses(v, order))
    ensures forall c :: c in RootClasses(v, order) <==>
                        exists i :: 0 <= i < |order| && v[order[i]].parent.None? && v[order[i]].sclass == c
    decreases |order|
  {
    if order != [] {
      var front := order[..|order| - 1];
      var last := order[|order| - 1];
      RootClassesMeaning(v, front);
      RemoveFastMeaning(RootClasses(v, front), v[last].sclass);
      var cs := RootClasses(v, order);
      forall c ensures c in cs <==>
          exists i :: 0 <= i < |order| && v[order[i]].parent.None? && v[order[i]].sclass == c {
        if i :| 0 <= i < |order| && v[order[i]].parent.None? && v[order[i]].sclass == c {
          if i < |front| {
            assert front[i] == order[i];
          }
        }
        if c in RootClasses(v, front) {
          var i :| 0 <= i < |front| && v[front[i]].parent.None? && v[front[i]].sclass == c;
          assert order[i] == front[i];
        }
        if c in cs && c !in RootClasses(v, front) {
          assert v[order[|order| - 1]].parent.None?;
        }
      }
    }
  }

  // ---- selection ----------------------------------------------------------------------------

  /** The first inactive slot of a class; it need not be a root. */
  function Selected(v: Slots, order: seq<string>, c: string): (n: Option<string>)
    requires forall i :: 0 <= i < |order| ==> order[i] in v
    ensures n.Some? ==> n.value in order && v[n.value].sclass == c && v[n.value].state == Inactive
  {
    if order == [] then None
    else if v[order[0]].state == Inactive && v[order[0]].sclass == c then Some(order[0])
    else Selected(v, order[1..], c)
  }

  function SelectedOf(v: Slots, order: seq<string>, classes: seq<string>): seq<string>
    requires forall i :: 0 <= i < |order| ==> order[i] in v
    decreases |classes|
  {
    if classes == [] then []
    else
      var c := classes[|classes| - 1];
      SelectedOf(v, order, classes[..|classes| - 1]) + match Selected(v, order, c) case None => [] case Some(n) => [n]
  }

  /** The root that is selected for its own class. */
  predicate ChosenRoot(v: Slots, order: seq<string>, r: string)
    requires forall i :: 0 <= i < |order| ==> order[i] in v
  {
    r in v && v[r].parent.None? && Selected(v, order, v[r].sclass) == Some(r)
  }

  lemma {:induction false} SelectedOfMeaning(v: Slots, order: seq<string>, classes: seq<string>, n: string)
    requires forall i :: 0 <= i < |order| ==> order[i] in v
    ensures n in SelectedOf(v, order, classes) <==>
            n in v && v[n].sclass in classes && Selected(v, order, v[n].sclass) == Some(n)
    decreases |classes|
  {
    if classes != [] {
      SelectedOfMeaning(v, order, classes[..|classes| - 1], n);
      assert classes == classes[..|classes| - 1] + [classes[|classes| - 1]];
    }
  }

  // ---- the group ----------------------------------------------------------------------------

  /** Later slots of a class replace earlier ones. */
  function Group(v: Slots, order: seq<string>, roots: seq<string>): map<string, string>
    requires FlatSlots(v) && forall i :: 0 <= i < |order| ==> order[i] in v
    decreases |order|
  {
    if order == [] then map[]
    else
      var n := order[|order| - 1];
      var before := Group(v, order[..|order| - 1], roots);
      if RootName(v, n) in roots then before[v[n].sclass := n] else before
  }

  function Target(v: Slots, order: seq<string>): map<string, string>
    requires FlatSlots(v) && forall i :: 0 <= i < |order| ==> order[i] in v
  {
    Group(v, order, SelectedOf(v, order, RootClasses(v, order)))
  }

  /** The position is the last one of its class whose root is among the given ones. */
  predicate LastMember(v: Slots, order: seq<string>, roots: seq<string>, i: nat)
    requires FlatSlots(v) && forall i :: 0 <= i < |order| ==> order[i] in v
  {
    && i < |order| && RootName(v, order[i]) in roots
    && forall j :: i < j < |order| && v[order[j]].sclass == v[order[i]].sclass ==> RootName(v, order[j]) !in roots
  }

  lemma LastMemberSnoc(v: Slots, order: seq<string>, roots: seq<string>, i: nat)
    requires FlatSlots(v) && order != [] && forall i :: 0 <= i < |order| ==> order[i] in v
    requires i < |order| - 1
    ensures var last := order[|order| - 1];
            LastMember(v, order, roots, i) <==>
              LastMember(v, order[..|order| - 1], roots, i)
                  && !(RootName(v, last) in roots && v[last].sclass == v[order[i]].sclass)
  {
    var front := order[..|order| - 1];
    assert forall j :: 0 <= j < |front| ==> front[j] == order[j];
  }

  lemma {:induction false} GroupMeaning(v: Slots, order: seq<string>, roots: seq<string>, c: string, n: string)
    requires FlatSlots(v) && forall i :: 0 <= i < |order| ==> order[i] in v
    ensures (c in Group(v, order, roots) && Group(v, order, roots)[c] == n) <==>
            exists i: nat :: i < |order| && order[i] == n && v[n].sclass == c && LastMember(v, order, roots, i)
    decreases |order|
  {
    if order != [] {
      var k := |order| - 1;
      var front := order[..k];
      GroupMeaning(v, front, roots, c, n);
      var takes := RootName(v, order[k]) in roots;
      assert takes ==> LastMember(v, order, roots, k);
      if i: nat :| i < |front| && front[i] == n && v[n].sclass == c && LastMember(v, front, roots, i) {
        LastMemberSnoc(v, order, roots, i);
        assert order[i] == n;
      }
      if i: nat :| i < |order| && order[i] == n && v[n].sclass == c && LastMember(v, order, roots, i) {
        if i < k {
          LastMemberSnoc(v, order, roots, i);
          assert front[i] == n;
        }
      }
    }
  }

  /** The roots looked up for the group are exactly the chosen ones. */
  lemma RootsAreChosen(v: Slots, order: seq<string>, n: string)
    requires FlatSlots(v) && Lists(order, v) && n in v
    ensures RootName(v, n) in SelectedOf(v, order, RootClasses(v, order)) <==> ChosenRoot(v, order, RootName(v, n))
  {
    var r := RootName(v, n);
    RootClassesMeaning(v, order);
    var i :| 0 <= i < |order| && order[i] == r;
    assert v[order[i]].parent.None?;
    SelectedOfMeaning(v, order, RootClasses(v, order), r);
  }

  // ---- results ------------------------------------------------------------------------------

  /**
   What the group maps, in whatever order the slots come: a class is mapped exactly if it
   has a slot below a chosen root, and then to such a slot, whose root is inactive.
   */
  lemma TargetMeaning(v: Slots, order: seq<string>, c: string)
    requires FlatSlots(v) && Lists(order, v)
    ensures c in Target(v, order) <==> exists n :: n in v && v[n].sclass == c && ChosenRoot(v, order, RootName(v, n))
    ensures c in Target(v, order) ==>
              var n := Target(v, order)[c];
              && n in v && v[n].sclass == c && ChosenRoot(v, order, RootName(v, n))
              && v[RootName(v, n)].state == Inactive
  {
    var roots := SelectedOf(v, order, RootClasses(v, order));
    if c in Target(v, order) {
      var n := Target(v, order)[c];
      GroupMeaning(v, order, roots, c, n);
      RootsAreChosen(v, order, n);
    }
    if n :| n in v && v[n].sclass == c && ChosenRoot(v, order, RootName(v, n)) {
      RootsAreChosen(v, order, n);
      var i :| 0 <= i < |order| && order[i] == n;
      ClassIsMapped(v, order, roots, i);
    }
  }

  lemma {:induction false} ClassIsMapped(v: Slots, order: seq<string>, roots: seq<string>, i: nat)
    requires FlatSlots(v) && forall i :: 0 <= i < |order| ==> order[i] in v
    requires i < |order| && RootName(v, order[i]) in roots
    ensures v[order[i]].sclass in Group(v, order, roots)
    decreases |order|
  {
    if i < |order| - 1 {
      ClassIsMapped(v, order[..|order| - 1], roots, i);
    }
  }

  /** The group takes at most one root of each class. */
  lemma OneRootPerClass(v: Slots, order: seq<string>, c: string, d: string)
    requires FlatSlots(v) && Lists(order, v) && c in Target(v, order) && d in Target(v, order)
    ensures var t := Target(v, order);
            && t[c] in v && t[d] in v
            && (v[RootName(v, t[c])].sclass == v[RootName(v, t[d])].sclass ==> RootName(v, t[c]) == RootName(v, t[d]))
  {
    TargetMeaning(v, order, c);
    TargetMeaning(v, order, d);
  }

  /** No mapped slot is booted, or active as a child of the booted one. */
  ghost predicate SparesTheRunningSystem(v: Slots, order: seq<string>)
    requires FlatSlots(v) && Lists(order, v)
  {
    forall c :: c in Target(v, order) ==> Target(v, order)[c] in v && v[Target(v, order)[c]].state == Inactive
  }

  /** If nothing is booted, or a root slot is, the running system is spared. */
  lemma BootedRootIsSpared(v: Slots, order: seq<string>, booted: Option<string>)
    requires FlatSlots(v) && Lists(order, v)
    requires booted.Some? ==> booted.value in v && v[booted.value].parent.None?
    ensures FlatSlots(WithStates(v, booted)) && Lists(order, WithStates(v, booted))
    ensures SparesTheRunningSystem(WithStates(v, booted), order)
  {
    var w := WithStates(v, booted);
    assert FlatSlots(w) && Lists(order, w);
    forall c | c in Target(w, order) ensures Target(w, order)[c] in w && w[Target(w, order)[c]].state == Inactive {
      TargetMeaning(w, order, c);
    }
  }

  lemma SparedUnlessMapped(w: Slots, order: seq<string>, booted: string)
    requires FlatSlots(w) && Lists(order, w) && booted in w && w[booted].state == Booted
    requires forall n :: n in w && w[n].state != Inactive ==> n == booted
    ensures SparesTheRunningSystem(w, order) <==>
            !(w[booted].sclass in Target(w, order) && Target(w, order)[w[booted].sclass] == booted)
  {
    var t := Target(w, order);
    forall d | d in t ensures t[d] in w && w[t[d]].sclass == d {
      TargetMeaning(w, order, d);
    }
  }

  lemma MappedUnlessHidden(w: Slots, order: seq<string>, booted: string)
    requires FlatSlots(w) && Lists(order, w) && booted in w
    requires forall i, j :: 0 <= i < j < |order| ==> order[i] != order[j]
    ensures (w[booted].sclass in Target(w, order) && Target(w, order)[w[booted].sclass] == booted) <==>
            && ChosenRoot(w, order, RootName(w, booted))
            && !exists i, j :: 0 <= i < j < |order| && order[i] == booted
                 && w[order[j]].sclass == w[booted].sclass && ChosenRoot(w, order, RootName(w, order[j]))
  {
    var roots := SelectedOf(w, order, RootClasses(w, order));
    GroupMeaning(w, order, roots, w[booted].sclass, booted);
    forall n | n in w ensures RootName(w, n) in roots <==> ChosenRoot(w, order, RootName(w, n)) {
      RootsAreChosen(w, order, n);
    }
    var i :| 0 <= i < |order| && order[i] == booted;
    assert LastMember(w, order, roots, i) <==>
           (w[booted].sclass in Target(w, order) && Target(w, order)[w[booted].sclass] == booted);
  }

  /**
   A booted child of a root is spared only by luck: its root is inactive, so it is written
   exactly if that root is chosen and no later slot of the child's class hides it.
   */
  lemma BootedChildIsSparedIff(v: Slots, order: seq<string>, booted: string)
    requires FlatSlots(v) && Lists(order, v) && booted in v && v[booted].parent.Some?
    requires forall i, j :: 0 <= i < j < |order| ==> order[i] != order[j]
    ensures var w := WithStates(v, Some(booted));
            && FlatSlots(w) && Lists(order, w)
            && (SparesTheRunningSystem(w, order) <==>
                  || !ChosenRoot(w, order, RootName(w, booted))
                  || exists i, j :: 0 <= i < j < |order| && order[i] == booted
                       && w[order[j]].sclass == w[booted].sclass && ChosenRoot(w, order, RootName(w, order[j])))
  {
    var w := WithStates(v, Some(booted));
    StatesKeepLinks(v, order, Some(booted));
    assert forall n :: n in w && w[n].state != Inactive ==> n == booted;
    SparedUnlessMapped(w, order, booted);
    MappedUnlessHidden(w, order, booted);
  }

  /** The smallest example: a root with one child, booted from the child. */
  lemma BootedChildIsWritten()
    ensures var v := map["rootfs.0" := Entry("rootfs", None, Unknown), "appfs.0" := Entry("appfs", Some("rootfs.0"), Unknown)];
            var w := WithStates(v, Some("appfs.0"));
            var order := ["rootfs.0", "appfs.0"];
            && FlatSlots(w) && Lists(order, w) && w["appfs.0"].state == Booted
            && "appfs" in Target(w, order) && Target(w, order)["appfs"] == "appfs.0"
  {
    var v := map["rootfs.0" := Entry("rootfs", None, Unknown), "appfs.0" := Entry("appfs", Some("rootfs.0"), Unknown)];
    var w := WithStates(v, Some("appfs.0"));
    var order := ["rootfs.0", "appfs.0"];
    assert order[0] == "rootfs.0" && order[1] == "appfs.0";
    assert FlatSlots(w) && Lists(order, w);
    var roots := SelectedOf(w, order, RootClasses(w, order));
    RootsAreChosen(w, order, "appfs.0");
    assert Selected(w, order, "rootfs") == Some("rootfs.0");
    assert ChosenRoot(w, order, RootName(w, "appfs.0"));
  }

  // ---- slots in memory ------------------------------------------------------------------------

  ghost function View(slots: Table): (v: Slots)
    requires Linked(slots)
    reads slots.Values
  {
    map n | n in slots :: Entry(slots[n].sclass, LinksOf(slots)[n], slots[n].state)
  }

  predicate MatchesBoot(s: RaucSlot, boot: string, realpath: map<string, string>) {
    || s.bootname == Some(boot)
    || s.name == boot
    || (if s.device in realpath then realpath[s.device] else s.device) == boot
  }

  /** The first slot of the order that the boot slot designates. */
  function FindBooted(slots: Table, order: seq<string>, boot: string, realpath: map<string,
                      string>): (b: Option<string>)
    requires forall i :: 0 <= i < |order| ==> order[i] in slots
    ensures b.Some? ==> b.value in order && MatchesBoot(slots[b.value], boot, realpath)
    ensures b.None? ==> forall i :: 0 <= i < |order| ==> !MatchesBoot(slots[order[i]], boot, realpath)
  {
    if order == [] then None
    else if MatchesBoot(slots[order[0]], boot, realpath) then Some(order[0])
    else FindBooted(slots, order[1..], boot, realpath)
  }

  /** The booted slot, if the boot slot is known and is a slot or an outside one. */
  function BootedSlot(slots: Table, order: seq<string>, bootslot: Option<string>, realpath: map<string, string>)
    : Result<Option<string>>
    requires forall i :: 0 <= i < |order| ==> order[i] in slots
  {
    if bootslot.None? then Err
    else
      var b := FindBooted(slots, order, bootslot.value, realpath);
      if b.None? && bootslot.value != "/dev/nfs" && bootslot.value != "_external_" then Err else Ok(b)
  }

  /** A boot slot given by bootname, by name, or by device, once links in its path are resolved. */
  lemma {:induction false} DesignatedIsBooted(slots: Table, order: seq<string>, n: string, boot: string,
                                              realpath: map<string, string>)
    requires (forall o :: o in order ==> o in slots) && n in order
    requires || slots[n].bootname == Some(boot)
             || slots[n].name == boot
             || (slots[n].device in realpath && realpath[slots[n].device] == boot)
             || (slots[n].device !in realpath && slots[n].device == boot)
    requires forall o :: o in order && o != n ==>
               && slots[o].bootname != Some(boot) && slots[o].name != boot
               && (if slots[o].device in realpath then realpath[slots[o].device] != boot else slots[o].device != boot)
    ensures BootedSlot(slots, order, Some(boot), realpath) == Ok(Some(n))
    decreases |order|
  {
    if order[0] != n {
      DesignatedIsBooted(slots, order[1..], n, boot, realpath);
    }
  }

  /** If it is none of these, there is no booted slot, and that is an error unless the system runs from outside. */
  lemma {:induction false} OtherIsOutside(slots: Table, order: seq<string>, boot: string, realpath: map<string, string>)
    requires forall o :: o in order ==> o in slots
    requires forall o :: o in order ==>
               && slots[o].bootname != Some(boot) && slots[o].name != boot
               && (if slots[o].device in realpath then realpath[slots[o].device] != boot else slots[o].device != boot)
    ensures BootedSlot(slots, order, Some(boot), realpath) ==
            if boot == "/dev/nfs" || boot == "_external_" then Ok(None) else Err
    ensures BootedSlot(slots, order, None, realpath) == Err
    decreases |order|
  {
    if order != [] {
      OtherIsOutside(slots, order[1..], boot, realpath);
    }
  }

  method FindBootedSlot(slots: Table, order: seq<string>, boot: string, realpath: map<string, string>)
    returns (booted: RaucSlot?)
    requires Named(slots) && forall i :: 0 <= i < |order| ==> order[i] in slots
    ensures booted != null ==> booted in slots.Values
    ensures FindBooted(slots, order, boot, realpath) == if booted == null then None else Some(booted.name)
  {
    var i := 0;
    while i < |order|
      invariant 0 <= i <= |order|
      invariant FindBooted(slots, order[i..], boot, realpath) == FindBooted(slots, order, boot, realpath)
    {
      if MatchesBoot(slots[order[i]], boot, realpath) {
        return slots[order[i]];
      }
      i := i + 1;
    }
    booted := null;
  }

  function StateOf(s: RaucSlot, booted: RaucSlot?): SlotState
    reads s
  {
    if booted == null then Inactive
    else if s == booted then Booted
    else if s.parent != null && s.parent == booted then Active
    else Inactive
  }

  method MarkStates(slots: Table, order: seq<string>, booted: RaucSlot?)
    requires Linked(slots) && forall n :: n in slots <==> n in order
    modifies slots.Values`state
    ensures Linked(slots) && LinksOf(slots) == old(LinksOf(slots))
    ensures forall n :: n in slots ==> slots[n].state == StateOf(slots[n], booted)
  {
    var i := 0;
    while i < |order|
      invariant 0 <= i <= |order|
      invariant forall k :: 0 <= k < i ==> slots[order[k]].state == StateOf(slots[order[k]], booted)
    {
      var s := slots[order[i]];
      s.state := StateOf(s, booted);
      i := i + 1;
    }
  }

  lemma StatesMarked(slots: Table, before: Slots, booted: RaucSlot?)
    requires Linked(slots) && before.Keys == slots.Keys && (booted != null ==> booted in slots.Values)
    requires forall n :: n in slots ==>
        before[n].sclass == slots[n].sclass && before[n].parent == LinksOf(slots)[n]
            && slots[n].state == StateOf(slots[n], booted)
    ensures View(slots) == WithStates(before, if booted == null then None else Some(booted.name))
  {
    var w := WithStates(before, if booted == null then None else Some(booted.name));
    forall n | n in slots ensures View(slots)[n] == w[n] {
      assert before[n].parent == View(slots)[n].parent == LinksOf(slots)[n];
    }
  }

  method MarkAll(slots: Table, order: seq<string>, booted: RaucSlot?)
    requires Linked(slots) && Lists(order, View(slots)) && (booted != null ==> booted in slots.Values)
    modifies slots.Values`state
    ensures Linked(slots)
    ensures View(slots) == WithStates(old(View(slots)), if booted == null then None else Some(booted.name))
  {
    ghost var before := View(slots);
    MarkStates(slots, order, booted);
    StatesMarked(slots, before, booted);
  }

  method DetermineSlotStates(slots: Table, order: seq<string>, bootslot: Option<string>, realpath: map<string, string>)
    returns (ok: bool)
    requires Linked(slots) && Lists(order, View(slots))
    modifies slots.Values`state
    ensures Linked(slots)
    ensures ok == BootedSlot(slots, order, bootslot, realpath).Ok?
    ensures View(slots) == if ok then WithStates(old(View(slots)), BootedSlot(slots, order, bootslot, realpath).value)
                           else old(View(slots))
  {
    if bootslot.None? {
      return false;
    }
    var booted := FindBootedSlot(slots, order, bootslot.value, realpath);
    if booted == null && bootslot.value != "/dev/nfs" && bootslot.value != "_external_" {
      return false;
    }
    MarkAll(slots, order, booted);
    ok := true;
  }

  method GetRootClasses(slots: Table, order: seq<string>) returns (classes: seq<string>)
    requires Linked(slots) && Lists(order, View(slots))
    ensures classes == RootClasses(View(slots), order)
  {
    classes := [];
    ghost var v := View(slots);
    var i := 0;
    while i < |order|
      invariant 0 <= i <= |order|
      invariant classes == RootClasses(v, order[..i])
    {
      assert order[..i + 1][..i] == order[..i];
      var slot := slots[order[i]];
      if slot.parent == null {
        classes := RemoveFast(classes, slot.sclass) + [slot.sclass];
      }
      i := i + 1;
    }
    assert order[..i] == order;
  }

  method SelectInactiveSlotClassMember(slots: Table, order: seq<string>, rootclass: string)
    returns (selected: RaucSlot?)
    requires Linked(slots) && Lists(order, View(slots))
    ensures selected != null ==> selected in slots.Values
    ensures Selected(View(slots), order, rootclass) == if selected == null then None else Some(selected.name)
  {
    ghost var v := View(slots);
    var i := 0;
    while i < |order|
      invariant 0 <= i <= |order|
      invariant Selected(v, order[i..], rootclass) == Selected(v, order, rootclass)
    {
      var slot := slots[order[i]];
      if slot.state == Inactive && slot.sclass == rootclass {
        return slot;
      }
      i := i + 1;
    }
    selected := null;
  }

  lemma SelectedOfSnoc(v: Slots, order: seq<string>, classes: seq<string>, i: nat)
    requires i < |classes| && forall i :: 0 <= i < |order| ==> order[i] in v
    ensures SelectedOf(v, order, classes[..i + 1]) ==
            SelectedOf(v, order, classes[..i]) + match Selected(v, order, classes[i]) case None => [] case Some(n) => [n]
  {
    assert classes[..i + 1][..i] == classes[..i] && classes[..i + 1][i] == classes[i];
  }

  method SelectRoots(slots: Table, order: seq<string>, classes: seq<string>)
    returns (roots: seq<RaucSlot>, ghost names: seq<string>)
    requires Linked(slots) && Lists(order, View(slots))
    ensures |names| == |roots| && forall k :: 0 <= k < |roots| ==> roots[k] in slots.Values && roots[k].name == names[k]
    ensures names == SelectedOf(View(slots), order, classes)
  {
    ghost var v := View(slots);
    roots, names := [], [];
    var i := 0;
    while i < |classes|
      invariant 0 <= i <= |classes|
      invariant |names| == |roots| && forall k :: 0 <= k < |roots| ==>
                  roots[k] in slots.Values && roots[k].name == names[k]
      invariant names == SelectedOf(v, order, classes[..i])
    {
      SelectedOfSnoc(v, order, classes, i);
      var selected := SelectInactiveSlotClassMember(slots, order, classes[i]);
      if selected != null {
        roots := roots + [selected];
        names := names + [selected.name];
      }
      i := i + 1;
    }
    assert classes[..i] == classes;
  }

  lemma ParentRoot(slots: Table, n: string)
    requires Linked(slots) && FlatSlots(View(slots)) && n in slots
    ensures RootWithin(LinksOf(slots), n, 1) && Climb(LinksOf(slots), n, 1) == RootName(View(slots), n)
  {
    var m := LinksOf(slots);
    if m[n].Some? {
      assert Climb(m, n, 1) == Climb(m, m[n].value, 0) == m[n].value;
    }
  }

  lemma SameMembers(slots: Table, roots: seq<RaucSlot>, names: seq<string>, root: RaucSlot)
    requires Named(slots) && root in slots.Values
    requires |names| == |roots| && forall k :: 0 <= k < |roots| ==>
               roots[k] in slots.Values && roots[k].name == names[k]
    ensures root in roots <==> root.name in names
  {
    if root.name in names {
      var k :| 0 <= k < |names| && names[k] == root.name;
      assert roots[k] == root;
    }
  }

  /** The slots of the order whose root is in the list. */
  method CollectGroup(slots: Table, order: seq<string>, roots: seq<RaucSlot>, ghost names: seq<string>)
    returns (group: map<string, RaucSlot>)
    requires Linked(slots) && FlatSlots(View(slots)) && Lists(order, View(slots))
    requires |names| == |roots| && forall k :: 0 <= k < |roots| ==>
               roots[k] in slots.Values && roots[k].name == names[k]
    ensures group.Keys == Group(View(slots), order, names).Keys
    ensures forall c :: c in group ==> group[c] in slots.Values && group[c].name == Group(View(slots), order, names)[c]
  {
    ghost var v := View(slots);
    group := map[];
    var i := 0;
    while i < |order|
      invariant 0 <= i <= |order|
      invariant group.Keys == Group(v, order[..i], names).Keys
      invariant forall c :: c in group ==> group[c] in slots.Values && group[c].name == Group(v, order[..i], names)[c]
    {
      assert order[..i + 1][..i] == order[..i];
      var slot := slots[order[i]];
      ParentRoot(slots, order[i]);
      var root := GetParentRoot(slots, slot, 1);
      SameMembers(slots, roots, names, root);
      if root in roots {
        group := group[slot.sclass := slot];
      }
      i := i + 1;
    }
    assert order[..i] == order;
  }

  method DetermineTargetInstallGroup(slots: Table, order: seq<string>) returns (group: map<string, RaucSlot>)
    requires Linked(slots) && FlatSlots(View(slots)) && Lists(order, View(slots))
    ensures group.Keys == Target(View(slots), order).Keys
    ensures forall c :: c in group ==> group[c] in slots.Values && group[c].name == Target(View(slots), order)[c]
  {
    var classes := GetRootClasses(slots, order);
    var roots, names := SelectRoots(slots, order, classes);
    group := CollectGroup(slots, order, roots, names);
  }

  // ---- from the configuration to the targets -----------------------------------------------------

  lemma FlatTable(slots: Table)
    requires Linked(slots) && Flat(LinksOf(slots))
    ensures FlatSlots(View(slots))
  {
    forall n | n in slots ensures View(slots)[n].parent == LinksOf(slots)[n] {
    }
  }

  /** The links that the configuration asks for. */
  ghost function NamedLinks(slots: Table): (m: Links)
    ensures Resolvable(slots) ==> Closed(m)
  {
    map n | n in slots :: slots[n].parentName
  }

  /** The configuration can be linked: all parents exist, no child is bootable, and no chain is too long. */
  ghost predicate Linkable(slots: Table, order: seq<string>)
    requires forall n :: n in order <==> n in slots
  {
    Resolvable(slots) && Fix(NamedLinks(slots), order).Some?
  }

  /** The slots as linked, before their states are known. */
  ghost function Configured(slots: Table, order: seq<string>): Slots
    requires (forall n :: n in order <==> n in slots) && Linkable(slots, order)
    requires Fix(NamedLinks(slots), order).value.Keys == slots.Keys
  {
    map n | n in slots :: Entry(slots[n].sclass, Fix(NamedLinks(slots), order).value[n], Unknown)
  }

  lemma ResolvedLinks(slots: Table)
    requires Linked(slots) && Resolvable(slots)
    requires forall n :: n in slots ==>
               slots[n].parent == if slots[n].parentName.Some? then slots[slots[n].parentName.value] else null
    ensures LinksOf(slots) == NamedLinks(slots)
  {
  }

  lemma SameLinked(slots: Table, m: Links)
    requires Linked(slots) && m == NamedLinks(slots)
    requires forall n :: n in m ==> (LinksOf(slots)[n].None? <==> m[n].None?)
    ensures forall n :: n in slots ==> (slots[n].parent == null <==> slots[n].parentName.None?)
  {
    forall n | n in slots ensures slots[n].parent == null <==> slots[n].parentName.None? {
      assert LinksOf(slots)[n].None? <==> m[n].None?;
    }
  }

  lemma ConfiguredStates(slots: Table, order: seq<string>, booted: Option<string>)
    requires (forall n :: n in order <==> n in slots) && Linkable(slots, order) && Linked(slots)
    requires LinksOf(slots) == Fix(NamedLinks(slots), order).value
    ensures Fix(NamedLinks(slots), order).value.Keys == slots.Keys
    ensures WithStates(View(slots), booted) == WithStates(Configured(slots, order), booted)
  {
    FixKeeps(NamedLinks(slots), order);
    SameStates(View(slots), Configured(slots, order), booted);
  }

  /** The states do not depend on those before. */
  lemma SameStates(v: Slots, w: Slots, booted: Option<string>)
    requires v.Keys == w.Keys && forall n :: n in v ==> v[n].sclass == w[n].sclass && v[n].parent == w[n].parent
    ensures WithStates(v, booted) == WithStates(w, booted)
  {
    forall n | n in v ensures WithStates(v, booted)[n] == WithStates(w, booted)[n] {
    }
  }

  /** Reading the parents: on success the links are flat, and exactly the slots with a parent name have one. */
  method LinkSlots(slots: Table, order: seq<string>) returns (ok: bool)
    requires Named(slots) && forall n :: n in order <==> n in slots
    requires forall i, j :: 0 <= i < j < |order| ==> order[i] != order[j]
    requires forall n :: n in slots ==> slots[n].parent == null
    modifies slots.Values`parent
    ensures ok <==> Linkable(slots, order)
    ensures ok ==> Linked(slots) && Flat(LinksOf(slots)) && LinksOf(slots) == Fix(NamedLinks(slots), order).value
    ensures ok ==> forall n :: n in slots ==> (slots[n].parent == null <==> slots[n].parentName.None?)
  {
    ok := ResolveParents(slots, order);
    if ok {
      ghost var m := NamedLinks(slots);
      ResolvedLinks(slots);
      ok := FixGrandparentLinks(slots, order);
      if ok {
        FixFlattens(m, order);
        SameLinked(slots, m);
      }
    }
  }

  lemma StatesKeepLinks(v: Slots, order: seq<string>, booted: Option<string>)
    requires FlatSlots(v) && Lists(order, v)
    ensures FlatSlots(WithStates(v, booted)) && Lists(order, WithStates(v, booted))
  {
  }

  lemma TargetsAreInactive(slots: Table, order: seq<string>, v: Slots, booted: Option<string>, group: map<string,
                           RaucSlot>)
    requires Linked(slots) && FlatSlots(v) && Lists(order, v) && View(slots) == WithStates(v, booted)
    requires FlatSlots(View(slots)) && Lists(order, View(slots))
    requires booted.Some? ==> booted.value in v && v[booted.value].parent.None?
    requires group.Keys == Target(View(slots), order).Keys
    requires forall c :: c in group ==> group[c] in slots.Values && group[c].name == Target(View(slots), order)[c]
    ensures forall c :: c in group ==> group[c].sclass == c && group[c].state == Inactive
  {
    BootedRootIsSpared(v, order, booted);
    forall c | c in group ensures group[c].sclass == c && group[c].state == Inactive {
      TargetMeaning(View(slots), order, c);
      assert View(slots)[group[c].name] == Entry(group[c].sclass, LinksOf(slots)[group[c].name], group[c].state);
    }
  }

  /** The group is the target group of the slots as they are. */
  ghost predicate IsTarget(slots: Table, order: seq<string>, group: map<string, RaucSlot>)
    requires Linked(slots) && FlatSlots(View(slots)) && Lists(order, View(slots))
    reads slots.Values
  {
    && group.Keys == Target(View(slots), order).Keys
    && forall c :: c in group ==> group[c] in slots.Values && group[c].name == Target(View(slots), order)[c]
  }

  predicate NoChildBooted(slots: Table, booted: Option<string>) {
    booted.None? || (booted.value in slots && slots[booted.value].parentName.None?)
  }

  /** Determining the states and the target group on linked slots. */
  method StatesAndTargets(slots: Table, order: seq<string>, bootslot: Option<string>, realpath: map<string, string>)
    returns (targets: Option<map<string, RaucSlot>>)
    requires Linked(slots) && FlatSlots(View(slots)) && Lists(order, View(slots))
    modifies slots.Values`state
    ensures targets.Some? <==> BootedSlot(slots, order, bootslot, realpath).Ok?
    ensures targets.Some? ==>
              && Linked(slots) && View(slots) ==
                  WithStates(old(View(slots)), BootedSlot(slots, order, bootslot, realpath).value)
              && FlatSlots(View(slots)) && Lists(order, View(slots)) && IsTarget(slots, order, targets.value)
    ensures targets.Some? ==>
              var booted := BootedSlot(slots, order, bootslot, realpath).value;
              booted.None? || (booted.value in slots && slots[booted.value].parent == null) ==>
                forall c :: c in targets.value ==>
                  var s := targets.value[c]; s in slots.Values && s.sclass == c && s.state == Inactive
  {
    ghost var v := View(slots);
    var ok := DetermineSlotStates(slots, order, bootslot, realpath);
    if !ok {
      return None;
    }
    ghost var booted := BootedSlot(slots, order, bootslot, realpath).value;
    StatesKeepLinks(v, order, booted);
    var group := DetermineTargetInstallGroup(slots, order);
    if booted.None? || (booted.value in slots && slots[booted.value].parent == null) {
      assert booted.Some? ==> View(slots)[booted.value].parent == v[booted.value].parent;
      TargetsAreInactive(slots, order, v, booted, group);
    }
    targets := Some(group);
  }

  /**
   From a configuration as read to the slots that an installation writes: if the booted
   slot is no child, none of them is booted or active.
   */
  method ChooseTargets(slots: Table, order: seq<string>, bootslot: Option<string>, realpath: map<string, string>)
    returns (targets: Option<map<string, RaucSlot>>)
    requires Named(slots) && forall n :: n in order <==> n in slots
    requires forall i, j :: 0 <= i < j < |order| ==> order[i] != order[j]
    requires forall n :: n in slots ==> slots[n].parent == null
    modifies slots.Values
    ensures targets.Some? <==> Linkable(slots, order) && BootedSlot(slots, order, bootslot, realpath).Ok?
    ensures targets.Some? ==>
              && Fix(NamedLinks(slots), order).value.Keys == slots.Keys && Linked(slots)
              && View(slots) == WithStates(Configured(slots, order), BootedSlot(slots, order, bootslot, realpath).value)
              && FlatSlots(View(slots)) && Lists(order, View(slots)) && IsTarget(slots, order, targets.value)
    ensures targets.Some? && NoChildBooted(slots, BootedSlot(slots, order, bootslot, realpath).value) ==>
              forall c :: c in targets.value ==>
                var s := targets.value[c]; s in slots.Values && s.sclass == c && s.state == Inactive
  {
    var ok := LinkSlots(slots, order);
    if !ok {
      return None;
    }
    FlatTable(slots);
    if BootedSlot(slots, order, bootslot, realpath).Ok? {
      ConfiguredStates(slots, order, BootedSlot(slots, order, bootslot, realpath).value);
    }
    targets := StatesAndTargets(slots, order, bootslot, realpath);
  }
}
