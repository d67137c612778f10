/**
 The references between artifacts and the parents for which they are active.
 */
module ArtifactRefs {

  /** Name and digest. */
  type Key = (string, string)

  /** For every known artifact the parents that refer to it, "" for a repository without parents. */
  type Table = map<Key, seq<string>>

  /** Removes the first occurrence only. */
  function RemoveFirst(refs: seq<string>, p: string): seq<string> {
    if refs == [] then [] else if refs[0] == p then refs[1..] else [refs[0]] + RemoveFirst(refs[1..], p)
  }

  function Count(refs: seq<string>, p: string): nat {
    if refs == [] then 0 else (if refs[0] == p then 1 else 0) + Count(refs[1..], p)
  }

  lemma {:induction false} RemoveFirstCounts(refs: seq<string>, p: string, q: string)
    ensures Count(RemoveFirst(refs, p), q) == if p == q && Count(refs, p) > 0 then Count(refs, p) - 1 else Count(refs, q)
  {
    if refs != [] {
      RemoveFirstCounts(refs[1..], p, q);
      if refs[0] != p {
        assert RemoveFirst(refs, p)[1..] == RemoveFirst(refs[1..], p);
      }
    }
  }

  lemma {:induction false} CountIsPositive(refs: seq<string>, p: string)
    ensures Count(refs, p) > 0 <==> p in refs
  {
    if refs != [] {
      CountIsPositive(refs[1..], p);
      assert refs == [refs[0]] + refs[1..];
    }
  }

  lemma {:induction false} CountAppend(a: seq<string>, b: seq<string>, p: string)
    ensures Count(a + b, p) == Count(a, p) + Count(b, p)
  {
    if a == [] {
      assert a + b == b;
    } else {
      assert (a + b)[1..] == a[1..] + b;
      CountAppend(a[1..], b, p);
    }
  }

  /** Activation takes one reference of the parent from every other artifact of the name. */
  function Activated(t: Table, k: Key, p: string): Table
    requires k in t
  {
    map x | x in t ::
      if x == k then (if p in t[x] then t[x] else t[x] + [p])
      else if x.0 == k.0 then RemoveFirst(t[x], p)
      else t[x]
  }

  function Deactivated(t: Table, k: Key, p: string): Table
    requires k in t
  {
    t[k := RemoveFirst(t[k], p)]
  }

  /** No parent is listed twice. */
  ghost predicate NoDuplicates(t: Table) {
    forall k, p :: k in t ==> Count(t[k], p) <= 1
  }

  /** No parent refers to two artifacts of the same name. */
  predicate OnePerName(t: Table) {
    forall x, y :: x in t && y in t && x.0 == y.0 && x != y ==> forall p :: p in t[x] ==> p !in t[y]
  }

  /** After activation the artifact is active, and another one of its name exactly if it was listed twice. */
  lemma ActivatedMeaning(t: Table, k: Key, p: string, y: Key)
    requires k in t && y in t && y.0 == k.0 && y != k
    ensures p in Activated(t, k, p)[k]
    ensures p in Activated(t, k, p)[y] <==> Count(t[y], p) >= 2
  {
    RemoveFirstCounts(t[y], p, p);
    CountIsPositive(Activated(t, k, p)[y], p);
  }

  lemma ActivatedCount(t: Table, k: Key, p: string, x: Key, q: string)
    requires k in t && x in t
    ensures Count(Activated(t, k, p)[x], q) ==
            if x == k then (if q == p && p !in t[x] then 1 else Count(t[x], q))
            else if x.0 == k.0 && q == p && Count(t[x], q) > 0 then Count(t[x], q) - 1
            else Count(t[x], q)
  {
    if x == k {
      CountAppend(t[x], [p], q);
      CountIsPositive(t[x], p);
      assert [p][1..] == [];
      assert Count([p], q) == if p == q then 1 else 0;
    } else if x.0 == k.0 {
      RemoveFirstCounts(t[x], p, q);
    }
  }

  lemma ActivatedKeeps(t: Table, k: Key, p: string)
    requires k in t && NoDuplicates(t) && OnePerName(t)
    ensures NoDuplicates(Activated(t, k, p)) && OnePerName(Activated(t, k, p))
  {
    var t' := Activated(t, k, p);
    forall x, q | x in t' ensures Count(t'[x], q) <= 1 {
      ActivatedCount(t, k, p, x, q);
    }
    forall x, y | x in t' && y in t' && x.0 == y.0 && x != y ensures forall q :: q in t'[x] ==> q !in t'[y] {
      forall q | q in t'[x] ensures q !in t'[y] {
        NowActive(t, k, p, x, q);
        NowActive(t, k, p, y, q);
      }
    }
  }

  /** Without duplicates: who is active afterwards. */
  lemma NowActive(t: Table, k: Key, p: string, x: Key, q: string)
    requires k in t && x in t && NoDuplicates(t)
    ensures q in Activated(t, k, p)[x] <==>
            if q == p && x.0 == k.0 then x == k else q in t[x]
  {
    ActivatedCount(t, k, p, x, q);
    CountIsPositive(t[x], q);
    CountIsPositive(Activated(t, k, p)[x], q);
  }

  lemma DeactivatedKeeps(t: Table, k: Key, p: string)
    requires k in t && NoDuplicates(t) && OnePerName(t)
    ensures NoDuplicates(Deactivated(t, k, p)) && OnePerName(Deactivated(t, k, p))
  {
    var t' := Deactivated(t, k, p);
    forall x, q | x in t' ensures Count(t'[x], q) <= 1 && (q in t'[x] ==> q in t[x]) {
      RemoveFirstCounts(t[k], p, q);
      CountIsPositive(t[x], q);
      CountIsPositive(t'[x], q);
    }
  }

  // ---- any sequence of operations ----------------------------------------------------------------

  datatype RefOp = Activate(key: Key, parent: string) | Deactivate(key: Key, parent: string)

  function Apply(t: Table, op: RefOp): Table
    requires op.key in t
  {
    if op.Activate? then Activated(t, op.key, op.parent) else Deactivated(t, op.key, op.parent)
  }

  function ApplyAll(t: Table, ops: seq<RefOp>): (r: Table)
    requires forall i :: 0 <= i < |ops| ==> ops[i].key in t
    ensures r.Keys == t.Keys
    decreases ops
  {
    if ops == [] then t
    else
      assert Apply(t, ops[0]).Keys == t.Keys;
      ApplyAll(Apply(t, ops[0]), ops[1..])
  }

  /** Any sequence of activations and deactivations leaves at most one digest of a name active for a parent. */
  lemma {:induction false} OpsKeepOnePerName(t: Table, ops: seq<RefOp>)
    requires forall i :: 0 <= i < |ops| ==> ops[i].key in t
    requires NoDuplicates(t) && OnePerName(t)
    ensures NoDuplicates(ApplyAll(t, ops)) && OnePerName(ApplyAll(t, ops))
    decreases ops
  {
    if ops != [] {
      var op := ops[0];
      if op.Activate? {
        ActivatedKeeps(t, op.key, op.parent);
      } else {
        DeactivatedKeeps(t, op.key, op.parent);
      }
      OpsKeepOnePerName(Apply(t, op), ops[1..]);
    }
  }
}
