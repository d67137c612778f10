/**
 Parent links between slots: resolving them by name, and flattening them so that every
 child refers to the root of its group.
 */
module SlotTree {
  import opened Wrappers

  datatype SlotState = Unknown | Active | Inactive | Booted

  class RaucSlot {
    const name: string
    const sclass: string
    const device: string
    const bootname: Option<string>
    const parentName: Option<string>
    var parent: RaucSlot?
    var state: SlotState

    constructor (name: string, sclass: string, device: string, bootname: Option<string>, parentName: Option<string>)
      ensures this.name == name && this.sclass == sclass && this.device == device
      ensures this.bootname == bootname && this.parentName == parentName
      ensures parent == null && state == Unknown
    {
      this.name, this.sclass, this.device := name, sclass, device;
      this.bootname, this.parentName := bootname, parentName;
      parent, state := null, Unknown;
    }
  }

  // ---- links as a map ------------------------------------------------------------------

  /** For every slot name, the name of the parent if there is one. */
  type Links = map<string, Option<string>>

  /** Parents are slots of the table themselves. */
  ghost predicate Closed(m: Links) {
    forall s :: s in m && m[s].Some? ==> m[s].value in m
  }

  /** The slot reached by following at most n parent links. */
  ghost function Climb(m: Links, s: string, n: nat): (r: string)
    requires Closed(m) && s in m
    ensures r in m
    decreases n
  {
    if n == 0 || m[s].None? then s else Climb(m, m[s].value, n - 1)
  }

  ghost predicate RootWithin(m: Links, s: string, n: nat)
    requires Closed(m) && s in m
  {
    m[Climb(m, s, n)].None?
  }

  /** Some number of links leads from the slot to a slot without parent. */
  ghost predicate Rooted(m: Links, s: string)
    requires Closed(m) && s in m
  {
    exists n: nat :: RootWithin(m, s, n)
  }

  /** Following links from the slot comes back to it. */
  ghost predicate OnCycle(m: Links, s: string)
    requires Closed(m) && s in m
  {
    m[s].Some? && exists n: nat :: n > 0 && Climb(m, s, n) == s
  }

  /** Every parent is a root. */
  ghost predicate Flat(m: Links) {
    Closed(m) && forall s :: s in m && m[s].Some? ==> m[m[s].value].None?
  }

  // ---- climbing --------------------------------------------------------------------------

  lemma {:induction false} ClimbAdd(m: Links, s: string, a: nat, b: nat)
    requires Closed(m) && s in m
    ensures Climb(m, s, a + b) == Climb(m, Climb(m, s, a), b)
    decreases a
  {
    if a > 0 && m[s].Some? {
      ClimbAdd(m, m[s].value, a - 1, b);
    }
  }

  /** The root does not depend on how far one is willing to climb. */
  lemma RootIsUnique(m: Links, s: string, a: nat, b: nat)
    requires Closed(m) && s in m && RootWithin(m, s, a) && RootWithin(m, s, b)
    ensures Climb(m, s, a) == Climb(m, s, b)
  {
    if a <= b {
      ClimbAdd(m, s, a, b - a);
    } else {
      ClimbAdd(m, s, b, a - b);
    }
  }

  lemma ClimbFurther(m: Links, s: string, a: nat, b: nat)
    requires Closed(m) && s in m && RootWithin(m, s, a) && a <= b
    ensures RootWithin(m, s, b) && Climb(m, s, b) == Climb(m, s, a)
  {
    ClimbAdd(m, s, a, b - a);
  }

  lemma {:induction false} AroundAndAround(m: Links, s: string, n: nat, k: nat)
    requires Closed(m) && s in m && Climb(m, s, n) == s
    ensures Climb(m, s, k * n) == s
    decreases k
  {
    if k > 0 {
      AroundAndAround(m, s, n, k - 1);
      assert k * n == (k - 1) * n + n;
      ClimbAdd(m, s, (k - 1) * n, n);
    }
  }

  lemma CycleHasNoRoot(m: Links, s: string)
    requires Closed(m) && s in m && OnCycle(m, s)
    ensures !Rooted(m, s)
  {
    var n: nat :| n > 0 && Climb(m, s, n) == s;
    forall k: nat ensures !RootWithin(m, s, k) {
      AroundAndAround(m, s, n, k);
      assert k <= k * n;
      if RootWithin(m, s, k) {
        ClimbFurther(m, s, k, k * n);
      }
    }
  }

  // ---- the rewrite ------------------------------------------------------------------------

  /** Rewriting one slot; more than 100 links above its parent count as a loop. */
  ghost function FixOne(m: Links, s: string): Option<Links>
    requires Closed(m) && s in m
  {
    if m[s].None? then Some(m)
    else if RootWithin(m, s, 101) then Some(m[s := Some(Climb(m, s, 101))])
    else None
  }

  ghost function Fix(m: Links, order: seq<string>): Option<Links>
    requires Closed(m) && forall i :: 0 <= i < |order| ==> order[i] in m
    decreases order
  {
    if order == [] then Some(m)
    else match FixOne(m, order[0])
      case None => None
      case Some(m') => Fix(m', order[1..])
  }

  /** The order lists every slot of the table once. */
  ghost predicate Covers(order: seq<string>, m: Links) {
    && (forall s :: s in order <==> s in m)
    && forall i, j :: 0 <= i < j < |order| ==> order[i] != order[j]
  }

  /** What one rewrite keeps: the table, the roots, every slot's root, and no slot gets deeper. */
  ghost predicate SameRoots(m: Links, m': Links) {
    && Closed(m) && Closed(m') && m'.Keys == m.Keys
    && (forall s :: s in m ==> (m'[s].None? <==> m[s].None?))
    && forall s, n: nat :: s in m && RootWithin(m, s, n) ==> RootWithin(m', s, n) && Climb(m', s, n) == Climb(m, s, n)
  }

  ghost predicate Above(m: Links, s: string) {
    s in m && (m[s].Some? ==> m[s].value in m && m[m[s].value].None?)
  }

  lemma {:induction false} ClimbAfterFix(m: Links, x: string, s: string, n: nat)
    requires Closed(m) && x in m && s in m && m[x].Some? && RootWithin(m, x, 101)
    requires RootWithin(m, s, n)
    ensures var m' := m[x := Some(Climb(m, x, 101))];
            Closed(m') && RootWithin(m', s, n) && Climb(m', s, n) == Climb(m, s, n)
    decreases n
  {
    var root := Climb(m, x, 101);
    var m' := m[x := Some(root)];
    assert m'[root].None? by {
      assert m[root].None?;
    }
    if n > 0 && m[s].Some? {
      if s == x {
        RootIsUnique(m, x, n, 101);
        assert Climb(m', s, n) == Climb(m', root, n - 1) == root;
      } else {
        ClimbAfterFix(m, x, m[s].value, n - 1);
      }
    }
  }

  lemma FixOneKeeps(m: Links, s: string)
    requires Closed(m) && s in m && FixOne(m, s).Some?
    ensures SameRoots(m, FixOne(m, s).value) && Above(FixOne(m, s).value, s)
    ensures forall t :: Above(m, t) ==> Above(FixOne(m, s).value, t)
  {
    if m[s].Some? {
      forall t, n: nat | t in m && RootWithin(m, t, n)
        ensures var m' := m[s := Some(Climb(m, s, 101))];
                Closed(m') && RootWithin(m', t, n) && Climb(m', t, n) == Climb(m, t, n)
      {
        ClimbAfterFix(m, s, t, n);
      }
    }
  }

  lemma SameRootsTrans(a: Links, b: Links, c: Links)
    requires SameRoots(a, b) && SameRoots(b, c)
    ensures SameRoots(a, c)
  {
  }

  lemma {:induction false} FixKeeps(m: Links, order: seq<string>)
    requires Closed(m) && forall i :: 0 <= i < |order| ==> order[i] in m
    requires Fix(m, order).Some?
    ensures SameRoots(m, Fix(m, order).value)
    ensures forall t :: Above(m, t) || t in order ==> Above(Fix(m, order).value, t)
    decreases order
  {
    if order != [] {
      FixOneKeeps(m, order[0]);
      var m' := FixOne(m, order[0]).value;
      FixKeeps(m', order[1..]);
      SameRootsTrans(m, m', Fix(m, order).value);
    }
  }

  /** Rewriting one slot never gives a root to a slot without one. */
  lemma {:induction false} FixOneInventsNoRoot(m: Links, x: string, s: string, n: nat)
    requires Closed(m) && x in m && s in m && FixOne(m, x).Some?
    requires Closed(FixOne(m, x).value) && RootWithin(FixOne(m, x).value, s, n)
    ensures Rooted(m, s)
    decreases n
  {
    var m' := FixOne(m, x).value;
    if m[s].None? {
      assert RootWithin(m, s, 0);
    } else if s == x {
      assert RootWithin(m, s, 101);
    } else {
      FixOneInventsNoRoot(m, x, m[s].value, n - 1);
      var k: nat :| RootWithin(m, m[s].value, k);
      assert RootWithin(m, s, k + 1);
    }
  }

  lemma RootIsRooted(m: Links, s: string)
    requires Closed(m) && s in m
    ensures m[s].None? ==> Rooted(m, s)
  {
    if m[s].None? {
      assert RootWithin(m, s, 0);
    }
  }

  /** A slot whose links lead to no root makes the rewrite fail, whatever the order. */
  lemma {:induction false} UnrootedIsRejected(m: Links, order: seq<string>, s: string)
    requires Closed(m) && forall i :: 0 <= i < |order| ==> order[i] in m
    requires s in order && !Rooted(m, s)
    ensures Fix(m, order).None?
    decreases order
  {
    if order[0] == s {
      RootIsRooted(m, s);
      assert !RootWithin(m, s, 101);
    } else if FixOne(m, order[0]).Some? {
      FixOneKeeps(m, order[0]);
      var m' := FixOne(m, order[0]).value;
      if Rooted(m', s) {
        var n: nat :| RootWithin(m', s, n);
        FixOneInventsNoRoot(m, order[0], s, n);
      }
      UnrootedIsRejected(m', order[1..], s);
    }
  }

  lemma {:induction false} ShallowSucceeds(m: Links, order: seq<string>)
    requires Closed(m) && forall i :: 0 <= i < |order| ==> order[i] in m
    requires forall s :: s in m ==> RootWithin(m, s, 101)
    ensures Fix(m, order).Some?
    decreases order
  {
    if order != [] {
      FixOneKeeps(m, order[0]);
      ShallowSucceeds(FixOne(m, order[0]).value, order[1..]);
    }
  }

  // ---- one given order --------------------------------------------------------------------

  /**
   At most 101 links from the slot to its root, where one link leads to the root from any
   slot that has been rewritten before.
   */
  ghost predicate Short(m: Links, done: seq<string>, s: string)
    requires Closed(m) && s in m
  {
    RootWithin(m, s, 101) || exists j: nat :: j <= 100 && Climb(m, s, j) in done
  }

  /** The links after these slots have been rewritten. */
  ghost predicate Rewritten(m: Links, m': Links, done: seq<string>) {
    && Closed(m) && Closed(m')
    && forall s {:trigger SlotRewritten(m, m', done, s)} :: s in m ==> SlotRewritten(m, m', done, s)
  }

  ghost predicate SlotRewritten(m: Links, m': Links, done: seq<string>, s: string)
  {
    && s in m && s in m'
    && (m'[s].None? <==> m[s].None?)
    && (if s in done then Above(m', s) else m'[s] == m[s])
  }

  lemma {:induction false} ShortcutReaches(m: Links, m': Links, done: seq<string>, s: string, j: nat)
    requires s in m && Rewritten(m, m', done) && Climb(m, s, j) in done
    ensures s in m' && RootWithin(m', s, j + 1)
    decreases j
  {
    assert SlotRewritten(m, m', done, s);
    if s in done {
      AboveIsWithinOne(m', s);
      ClimbFurther(m', s, 1, j + 1);
    } else if m[s].Some? {
      ShortcutReaches(m, m', done, m[s].value, j - 1);
    }
  }

  lemma AboveIsWithinOne(m: Links, s: string)
    requires Closed(m) && Above(m, s)
    ensures RootWithin(m, s, 1)
  {
    if m[s].Some? {
      assert Climb(m, s, 1) == Climb(m, m[s].value, 0);
    }
  }

  lemma {:induction false} ReachedByShortcut(m: Links, m': Links, done: seq<string>, s: string, n: nat)
    requires s in m && s in m' && Rewritten(m, m', done) && RootWithin(m', s, n)
    ensures RootWithin(m, s, n) || exists j: nat :: j < n && Climb(m, s, j) in done
    decreases n
  {
    assert SlotRewritten(m, m', done, s);
    if m[s].Some? {
      if s in done {
        assert n > 0 && Climb(m, s, 0) == s;
      } else {
        var p := m[s].value;
        ReachedByShortcut(m, m', done, p, n - 1);
        if j: nat :| j < n - 1 && Climb(m, p, j) in done {
          assert Climb(m, s, j + 1) in done;
        }
      }
    }
  }

  lemma FixOneIff(m: Links, m': Links, done: seq<string>, s: string)
    requires s in m && s in m' && Rewritten(m, m', done)
    requires forall n: nat :: RootWithin(m, s, n) ==> RootWithin(m', s, n)
    ensures FixOne(m', s).Some? <==> Short(m, done, s)
  {
    if FixOne(m', s).Some? {
      if m[s].None? {
        assert RootWithin(m, s, 101);
      } else {
        ReachedByShortcut(m, m', done, s, 101);
      }
    }
    if j: nat :| j <= 100 && Climb(m, s, j) in done {
      ShortcutReaches(m, m', done, s, j);
      ClimbFurther(m', s, j + 1, 101);
    }
  }

  lemma OneMoreRewritten(m: Links, m': Links, done: seq<string>, s: string)
    requires Rewritten(m, m', done) && s in m && s in m' && FixOne(m', s).Some?
    ensures Rewritten(m, FixOne(m', s).value, done + [s])
  {
    FixOneKeeps(m', s);
    var next := FixOne(m', s).value;
    forall t | t in m ensures SlotRewritten(m, next, done + [s], t) {
      assert SlotRewritten(m, m', done, t);
    }
  }

  lemma {:induction false} RestSucceedsIff(m: Links, m': Links, order: seq<string>, i: nat)
    requires (forall k :: 0 <= k < |order| ==> order[k] in m) && i <= |order|
    requires SameRoots(m, m') && Rewritten(m, m', order[..i])
    ensures Fix(m', order[i..]).Some? <==> forall k :: i <= k < |order| ==> Short(m, order[..k], order[k])
    decreases |order| - i
  {
    if i < |order| {
      FixOneIff(m, m', order[..i], order[i]);
      FixStep(m', order, i);
      if FixOne(m', order[i]).Some? {
        var next := FixOne(m', order[i]).value;
        OneMoreRewritten(m, m', order[..i], order[i]);
        assert order[..i] + [order[i]] == order[..i + 1];
        FixOneKeeps(m', order[i]);
        SameRootsTrans(m, m', next);
        RestSucceedsIff(m, next, order, i + 1);
      }
    }
  }

  lemma FixStep(m: Links, order: seq<string>, i: nat)
    requires Closed(m) && (forall k :: 0 <= k < |order| ==> order[k] in m) && i < |order|
    ensures Fix(m, order[i..]) == match FixOne(m, order[i]) case None => None case Some(m') => Fix(m', order[i + 1..])
  {
    assert order[i..][1..] == order[i + 1..];
  }

  // ---- results ----------------------------------------------------------------------------

  /**
   For any given order, the pass succeeds exactly if each slot has at most 101 links up to its root,
   where an ancestor that comes earlier in the order counts as one link below it.
   */
  lemma OrderSucceedsIff(m: Links, order: seq<string>)
    requires Closed(m) && forall k :: 0 <= k < |order| ==> order[k] in m
    ensures Fix(m, order).Some? <==> forall k :: 0 <= k < |order| ==> Short(m, order[..k], order[k])
  {
    assert order[0..] == order;
    forall s | s in m ensures SlotRewritten(m, m, order[..0], s) {
    }
    RestSucceedsIff(m, m, order, 0);
  }

  /**
   When the rewrite succeeds, in whatever order the slots come, every parent is a root,
   the roots are the same slots as before, and every slot belongs to the same root.
   */
  lemma FixFlattens(m: Links, order: seq<string>)
    requires Closed(m) && Covers(order, m) && Fix(m, order).Some?
    ensures var m' := Fix(m, order).value;
            && m'.Keys == m.Keys && Flat(m')
            && (forall s :: s in m ==> (m'[s].None? <==> m[s].None?))
            && (forall s :: s in m ==> Rooted(m, s))
            && forall s, n: nat :: s in m && RootWithin(m, s, n) ==> Climb(m', s, 1) == Climb(m, s, n)
  {
    FixKeeps(m, order);
    var m' := Fix(m, order).value;
    assert forall s :: s in m ==> Above(m', s);
    forall s | s in m ensures Rooted(m, s) {
      if !Rooted(m, s) {
        UnrootedIsRejected(m, order, s);
      }
    }
    forall s, n: nat | s in m && RootWithin(m, s, n) ensures Climb(m', s, 1) == Climb(m, s, n) {
      assert RootWithin(m', s, 1) by {
        if m'[s].Some? {
          assert Climb(m', s, 1) == Climb(m', m'[s].value, 0) == m'[s].value;
        }
      }
      RootIsUnique(m', s, 1, n);
    }
  }

  /** Any cycle of parents is rejected, in whatever order the slots come. */
  lemma CycleIsRejected(m: Links, order: seq<string>, s: string)
    requires Closed(m) && Covers(order, m) && s in m && OnCycle(m, s)
    ensures Fix(m, order).None?
  {
    CycleHasNoRoot(m, s);
    UnrootedIsRejected(m, order, s);
  }

  ghost predicate SucceedsInEveryOrder(m: Links)
    requires Closed(m)
  {
    forall order: seq<string> :: Covers(order, m) ==> Fix(m, order).Some?
  }

  lemma {:induction false} Enumerate(names: set<string>) returns (order: seq<string>)
    ensures forall s :: s in order <==> s in names
    ensures forall i, j :: 0 <= i < j < |order| ==> order[i] != order[j]
    decreases names
  {
    if names == {} {
      order := [];
    } else {
      var s :| s in names;
      var rest := Enumerate(names - {s});
      order := [s] + rest;
    }
  }

  /** An order that starts with a slot more than 101 links below its root fails. */
  lemma DeepSlotFirst(m: Links, s: string) returns (order: seq<string>)
    requires Closed(m) && s in m && !RootWithin(m, s, 101)
    ensures Covers(order, m) && Fix(m, order).None?
  {
    var rest := Enumerate(m.Keys - {s});
    order := [s] + rest;
    assert forall i :: 0 <= i < |rest| ==> order[i + 1] == rest[i] && rest[i] in m.Keys - {s};
    assert FixOne(m, order[0]).None?;
  }

  /** The limit of 100 steps: the pass succeeds in every order exactly up to 101 links. */
  lemma DepthLimit(m: Links)
    requires Closed(m)
    ensures SucceedsInEveryOrder(m) <==> forall s :: s in m ==> RootWithin(m, s, 101)
  {
    if s :| s in m && !RootWithin(m, s, 101) {
      var order := DeepSlotFirst(m, s);
    } else {
      forall order: seq<string> | Covers(order, m) ensures Fix(m, order).Some? {
        ShallowSucceeds(m, order);
      }
    }
  }

  // ---- slots in memory -----------------------------------------------------------------------

  type Table = map<string, RaucSlot>

  /** Slots are filed under their own names. */
  ghost predicate Named(slots: Table) {
    forall n :: n in slots ==> slots[n].name == n
  }

  /** Parents are slots of the table. */
  ghost predicate Linked(slots: Table)
    reads slots.Values`parent
  {
    && Named(slots)
    && forall n :: n in slots && slots[n].parent != null
                   ==> slots[n].parent.name in slots && slots[slots[n].parent.name] == slots[n].parent
  }

  ghost function LinksOf(slots: Table): (m: Links)
    requires Linked(slots)
    reads slots.Values`parent
    ensures Closed(m)
  {
    map n | n in slots :: if slots[n].parent == null then None else Some(slots[n].parent.name)
  }

  /** Every named parent exists, and no child is bootable by itself. */
  ghost predicate Resolvable(slots: Table) {
    forall n :: n in slots && slots[n].parentName.Some? ==>
        slots[n].parentName.value in slots && slots[n].bootname.None?
  }

  method ResolveParents(slots: Table, keys: seq<string>) returns (ok: bool)
    requires Named(slots) && forall n :: n in keys <==> n in slots
    requires forall n :: n in slots ==> slots[n].parent == null
    modifies slots.Values`parent
    ensures ok <==> Resolvable(slots)
    ensures ok ==> Linked(slots)
    ensures ok ==> forall n :: n in slots ==>
                       slots[n].parent == if slots[n].parentName.Some? then slots[slots[n].parentName.value] else null
  {
    var i := 0;
    while i < |keys|
      invariant 0 <= i <= |keys|
      invariant forall k :: 0 <= k < i && slots[keys[k]].parentName.Some? ==>
                    slots[keys[k]].parentName.value in slots && slots[keys[k]].bootname.None?
      invariant forall n :: n in slots ==>
                    slots[n].parent == if n in keys[..i] && slots[n].parentName.Some?
                        && slots[n].parentName.value in slots
                                       then slots[slots[n].parentName.value] else null
    {
      var child := slots[keys[i]];
      if child.parentName.Some? {
        if child.parentName.value !in slots {
          return false;
        }
        child.parent := slots[child.parentName.value];
        if child.bootname.Some? {
          return false;
        }
      }
      i := i + 1;
    }
    assert keys[..i] == keys;
    ok := true;
  }

  /** The loop over the ancestors of one slot; gives up after more than 100 steps. */
  method RealParent(slots: Table, slot: RaucSlot) returns (realparent: RaucSlot?)
    requires Linked(slots) && slot in slots.Values && slot.parent != null
    ensures realparent != null <==> RootWithin(LinksOf(slots), slot.name, 101)
    ensures realparent != null ==>
              realparent in slots.Values && realparent.name == Climb(LinksOf(slots), slot.name, 101)
  {
    ghost var m := LinksOf(slots);
    var above := slot.parent;
    var steps := 0;
    while above.parent != null
      invariant steps <= 100 && above in slots.Values
      invariant Climb(m, slot.name, 101) == Climb(m, above.name, 100 - steps)
      decreases 100 - steps
    {
      above := above.parent;
      steps := steps + 1;
      if steps > 100 {
        return null;
      }
    }
    realparent := above;
  }

  method FixSlot(slots: Table, slot: RaucSlot) returns (ok: bool)
    requires Linked(slots) && slot in slots.Values
    modifies slot`parent
    ensures Linked(slots)
    ensures ok == FixOne(old(LinksOf(slots)), slot.name).Some?
    ensures ok ==> LinksOf(slots) == FixOne(old(LinksOf(slots)), slot.name).value
    ensures !ok ==> slot.parent == old(slot.parent)
  {
    if slot.parent == null {
      return true;
    }
    var realparent := RealParent(slots, slot);
    if realparent == null {
      return false;
    }
    if realparent != slot.parent {
      slot.parent := realparent;
    }
    ok := true;
  }

  method FixGrandparentLinks(slots: Table, order: seq<string>) returns (ok: bool)
    requires Linked(slots) && Covers(order, LinksOf(slots))
    modifies slots.Values`parent
    ensures Linked(slots)
    ensures ok == Fix(old(LinksOf(slots)), order).Some?
    ensures ok ==> LinksOf(slots) == Fix(old(LinksOf(slots)), order).value
  {
    var i := 0;
    ghost var m := LinksOf(slots);
    while i < |order|
      invariant 0 <= i <= |order|
      invariant Linked(slots) && LinksOf(slots).Keys == m.Keys
      invariant Fix(LinksOf(slots), order[i..]) == Fix(m, order)
    {
      assert order[i] in m;
      FixStep(LinksOf(slots), order, i);
      ok := FixSlot(slots, slots[order[i]]);
      if !ok {
        return;
      }
      i := i + 1;
    }
    ok := true;
  }

  /** Follows parent links to the end; `links` bounds how many there are. */
  method GetParentRoot(slots: Table, slot: RaucSlot, ghost links: nat) returns (base: RaucSlot)
    requires Linked(slots) && slot in slots.Values && RootWithin(LinksOf(slots), slot.name, links)
    ensures base in slots.Values && base.name == Climb(LinksOf(slots), slot.name, links)
    ensures base.parent == null
  {
    base := slot;
    ghost var left := links;
    while base.parent != null
      invariant base in slots.Values && RootWithin(LinksOf(slots), base.name, left)
      invariant Climb(LinksOf(slots), slot.name, links) == Climb(LinksOf(slots), base.name, left)
      decreases left
    {
      base := base.parent;
      left := left - 1;
    }
  }
}
