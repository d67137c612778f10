/**
 How the table of an artifact repository in memory and its directory belong together.
 */
module ArtifactState {
  import opened Wrappers
  import opened Collections
  import opened ArtifactNames
  import opened ArtifactRefs
  import opened ArtifactDisk

  // ---- references on disk -------------------------------------------------------------------

  /** The links of a parent's directory that lead to an artifact, whatever they are called. */
  function LinksTo(d: Disk, p: string, k: Key): set<Path> {
    set q | q in d && q.0 == p && !Hidden(q.1) && d[q] == TargetOf(p, k)
  }

  /** The artifact that an entry of a directory leads to, if it is a public link with a proper target. */
  function Resolved(d: Disk, q: Path): Option<Key>
    requires q in d
  {
    if Hidden(q.1) || !d[q].Link? then None else ParseTarget(q.0, d[q].target)
  }

  lemma ResolvedIff(d: Disk, p: string, q: Path, k: Key)
    requires q in d && q.0 == p && IsDigest(k.1)
    ensures Resolved(d, q) == Some(k) <==> q in LinksTo(d, p, k)
  {
    if d[q].Link? {
      ParseTargetIff(p, d[q].target, k.0, k.1);
    }
  }

  function Copies(p: string, n: nat): seq<string> {
    if n == 0 then [] else [p] + Copies(p, n - 1)
  }

  /** The references that reading the links yields: each parent as often as it has links. */
  function RefsOf(d: Disk, parents: seq<string>, k: Key): seq<string> {
    if parents == [] then []
    else
      var p := parents[|parents| - 1];
      RefsOf(d, parents[..|parents| - 1], k) + Copies(p, |LinksTo(d, p, k)|)
  }

  lemma {:induction false} CountOfCopies(p: string, n: nat, q: string)
    ensures Count(Copies(p, n), q) == if p == q then n else 0
  {
    if n > 0 {
      CountOfCopies(p, n - 1, q);
      assert Copies(p, n)[1..] == Copies(p, n - 1);
    }
  }

  lemma {:induction false} CountOfRefs(d: Disk, parents: seq<string>, k: Key, q: string)
    requires Distinct(parents)
    ensures Count(RefsOf(d, parents, k), q) == if q in parents then |LinksTo(d, q, k)| else 0
    decreases |parents|
  {
    if parents != [] {
      var p, front := parents[|parents| - 1], parents[..|parents| - 1];
      CountOfRefs(d, front, k, q);
      CountOfCopies(p, |LinksTo(d, p, k)|, q);
      CountAppend(RefsOf(d, front, k), Copies(p, |LinksTo(d, p, k)|), q);
      assert parents == front + [p];
    }
  }

  predicate LeftOver(d: Disk, p: string, k: Key) {
    TmpLink(p, k.0) in d && d[TmpLink(p, k.0)] == TargetOf(p, k)
  }

  predicate LinkedBy(d: Disk, p: string, k: Key) {
    LinkPath(p, k.0) in d && d[LinkPath(p, k.0)] == TargetOf(p, k)
  }

  lemma LinkTo(d: Disk, parents: seq<string>, kind: Kind, p: string, k: Key, q: Path)
    requires Good(d, parents, kind) && p in parents && IsDigest(k.1) && q in LinksTo(d, p, k)
    ensures q == LinkPath(p, k.0) || q == TmpLink(p, k.0)
  {
    ParseTargetIff(p, Target(p, k.0, k.1), k.0, k.1);
    assert EntryOk(d, parents, kind, q);
  }

  lemma CountTwo<T>(s: set<T>, a: T, b: T)
    requires a != b && s <= {a, b}
    ensures |s| == (if a in s then 1 else 0) + (if b in s then 1 else 0)
  {
    assert s == (if a in s then {a} else {}) + (if b in s then {b} else {});
  }

  /** There are at most two links to an artifact: the public one and one left over. */
  lemma LinksToAre(d: Disk, parents: seq<string>, kind: Kind, p: string, k: Key)
    requires Good(d, parents, kind) && p in parents && Plain(k.0) && IsDigest(k.1)
    ensures |LinksTo(d, p, k)| == (if LinkedBy(d, p, k) then 1 else 0) + (if LeftOver(d, p, k) then 1 else 0)
  {
    var a, b := LinkPath(p, k.0), TmpLink(p, k.0);
    TmpLinkIsPublic(k.0);
    forall q | q in LinksTo(d, p, k) ensures q in {a, b} {
      LinkTo(d, parents, kind, p, k, q);
    }
    CountTwo(LinksTo(d, p, k), a, b);
  }

  // ---- table and directory --------------------------------------------------------------------

  /** Exactly the artifact files are known. */
  ghost predicate Consistent(d: Disk, t: Table) {
    forall k: Key :: k in t <==> Listed(d, k)
  }

  /** A temporary link that was left behind keeps the link of its name from ever being replaced. */
  predicate Blocked(d: Disk, p: string, n: string) {
    TmpLink(p, n) in d && d[TmpLink(p, n)].Link?
  }

  /** Whoever is referred to can be linked to, or its name is blocked. */
  ghost predicate Backed(d: Disk, t: Table, parents: seq<string>, kind: Kind) {
    forall k: Key, p :: k in t && p in t[k] ==> p in parents && (Usable(d, kind, k) || Blocked(d, p, k.0))
  }

  /** Linked artifacts are referred to. */
  ghost predicate Covered(d: Disk, t: Table, parents: seq<string>) {
    forall k: Key :: k in t && !Unlinked(d, parents, k) ==> t[k] != []
  }

  predicate ActiveFor(t: Table, p: string, k: Key) {
    k in t && p in t[k]
  }

  /** The link of a name leads to an artifact that is active, and is there if there is one. */
  ghost predicate SyncedAt(d: Disk, t: Table, p: string, n: string) {
    if LinkPath(p, n) in d
    then exists k: Key :: k.0 == n && ActiveFor(t, p, k) && d[LinkPath(p, n)] == TargetOf(p, k)
    else forall k: Key :: k.0 == n ==> !ActiveFor(t, p, k)
  }

  predicate Known(t: Table, n: string) { exists k :: k in t && k.0 == n }

  ghost predicate Synced(d: Disk, t: Table, parents: seq<string>) {
    forall p, n :: p in parents && Known(t, n) ==> SyncedAt(d, t, p, n)
  }

  lemma KnownArePlain(d: Disk, t: Table, parents: seq<string>, kind: Kind, k: Key)
    requires Good(d, parents, kind) && Consistent(d, t) && k in t
    ensures Plain(k.0) && IsDigest(k.1) && FilePath(k) in d && (kind.trees || Complete(d, k))
  {
    assert Listed(d, k);
    assert EntryOk(d, parents, kind, FilePath(k));
    FileIsHidden(k);
  }

  lemma SyncedIsCovered(d: Disk, t: Table, parents: seq<string>)
    requires Consistent(d, t) && Synced(d, t, parents)
    ensures Covered(d, t, parents)
  {
    forall k: Key | k in t && !Unlinked(d, parents, k) ensures t[k] != [] {
      var p :| p in parents && LinkPath(p, k.0) in d && d[LinkPath(p, k.0)] == TargetOf(p, k);
      assert Known(t, k.0);
      assert SyncedAt(d, t, p, k.0);
      var x: Key :| x.0 == k.0 && ActiveFor(t, p, x) && d[LinkPath(p, k.0)] == TargetOf(p, x);
      SameTarget(p, k, x);
    }
  }

  lemma SameTarget(p: string, k: Key, x: Key)
    requires TargetOf(p, k) == TargetOf(p, x) && (IsDigest(k.1) || IsDigest(x.1)) && k.0 == x.0
    ensures k == x
  {
    var a, b := Up(p) + PREFIX + k.0 + "-", Up(p) + PREFIX + x.0 + "-";
    assert Target(p, k.0, k.1) == a + k.1 && Target(p, x.0, x.1) == b + x.1;
    assert (a + k.1)[|a|..] == k.1 && (a + x.1)[|a|..] == x.1;
  }

  // ---- reading the directory --------------------------------------------------------------------

  /** The table that is read from a directory. */
  ghost predicate ReadFrom(d: Disk, t: Table, parents: seq<string>) {
    Consistent(d, t) && forall k: Key :: k in t ==> t[k] == RefsOf(d, parents, k)
  }

  lemma ReadIsBacked(d: Disk, t: Table, parents: seq<string>, kind: Kind)
    requires Good(d, parents, kind) && Distinct(parents) && ReadFrom(d, t, parents)
    ensures Backed(d, t, parents, kind) && Covered(d, t, parents)
  {
    forall k: Key, p | k in t && p in t[k] ensures p in parents && (Usable(d, kind, k) || Blocked(d, p, k.0)) {
      KnownArePlain(d, t, parents, kind, k);
      CountOfRefs(d, parents, k, p);
      CountIsPositive(t[k], p);
      LinksToAre(d, parents, kind, p, k);
      if LinkedBy(d, p, k) {
        assert EntryOk(d, parents, kind, LinkPath(p, k.0));
        TmpLinkIsPublic(k.0);
        ParseTargetIff(p, Target(p, k.0, k.1), k.0, k.1);
      }
    }
    forall k: Key | k in t && !Unlinked(d, parents, k) ensures t[k] != [] {
      KnownArePlain(d, t, parents, kind, k);
      var p :| p in parents && LinkPath(p, k.0) in d && d[LinkPath(p, k.0)] == TargetOf(p, k);
      CountOfRefs(d, parents, k, p);
      LinksToAre(d, parents, kind, p, k);
    }
  }

  /**
   Committing a table and reading it back restores every reference, and adds one for each
   temporary link that was left over and leads to the artifact.
   */
  lemma CommitThenRead(d: Disk, t: Table, t': Table, parents: seq<string>, kind: Kind, k: Key, p: string)
    requires Good(d, parents, kind) && Distinct(parents)
    requires Consistent(d, t) && Synced(d, t, parents) && NoDuplicates(t) && OnePerName(t)
    requires forall x: Key, q :: ActiveFor(t, q, x) ==> q in parents
    requires ReadFrom(d, t', parents) && k in t
    ensures t'.Keys == t.Keys
    ensures Count(t'[k], p) == Count(t[k], p) + if p in parents && LeftOver(d, p, k) then 1 else 0
  {
    assert forall x: Key :: x in t <==> x in t';
    CountOfRefs(d, parents, k, p);
    CountIsPositive(t[k], p);
    if p in parents {
      KnownArePlain(d, t, parents, kind, k);
      LinksToAre(d, parents, kind, p, k);
      LinkedIffActive(d, t, parents, kind, p, k);
    } else {
      assert !ActiveFor(t, p, k);
    }
  }

  lemma LinkedIffActive(d: Disk, t: Table, parents: seq<string>, kind: Kind, p: string, k: Key)
    requires Good(d, parents, kind) && Consistent(d, t) && Synced(d, t, parents) && OnePerName(t)
    requires p in parents && k in t
    ensures LinkedBy(d, p, k) <==> ActiveFor(t, p, k)
  {
    assert Known(t, k.0) && SyncedAt(d, t, p, k.0);
    if LinkPath(p, k.0) in d {
      var x: Key :| x.0 == k.0 && ActiveFor(t, p, x) && d[LinkPath(p, k.0)] == TargetOf(p, x);
      KnownArePlain(d, t, parents, kind, k);
      if LinkedBy(d, p, k) {
        SameTarget(p, k, x);
      }
      assert ActiveFor(t, p, k) ==> x == k;
    }
  }

  // ---- pruning ---------------------------------------------------------------------------------------

  predicate HasParentClass(parents: seq<string>) { "" !in parents }

  /** Pruning keeps artifacts that are referred to or open, and links where links belong. */
  predicate Kept(d: Disk, t: Table, hasParentClass: bool, open: set<Key>, q: Path)
    requires q in d
  {
    if q.0 != "" then d[q].Link?
    else match ParseFile(q.1)
      case Some(k) => k in t && (t[k] != [] || k in open)
      case None => !hasParentClass && d[q].Link?
  }

  function Dropped(d: Disk, t: Table, hasParentClass: bool, open: set<Key>): set<Path> {
    set q | q in d && !Kept(d, t, hasParentClass, open, q)
  }

  function PrunedTable(t: Table, open: set<Key>): Table {
    map k | k in t && (t[k] != [] || k in open) :: t[k]
  }

  /** The artifacts that pruning removes are exactly those nobody refers to and nobody has open. */
  lemma PruneIsExact(d: Disk, t: Table, hasParentClass: bool, open: set<Key>, k: Key)
    requires Consistent(d, t) && k in t
    ensures FilePath(k) in d - Dropped(d, t, hasParentClass, open) <==> t[k] != [] || k in open
  {
    assert Listed(d, k);
    FileIsHidden(k);
  }

  lemma PruneKeepsState(d: Disk, t: Table, parents: seq<string>, kind: Kind, open: set<Key>)
    requires Good(d, parents, kind) && Consistent(d, t) && Backed(d, t, parents, kind) && Covered(d, t, parents)
    ensures var hasParentClass := HasParentClass(parents);
            var d' := d - Dropped(d, t, hasParentClass, open);
            var t' := PrunedTable(t, open);
            Consistent(d', t') && Backed(d', t', parents, kind) && Covered(d', t', parents)
  {
    var hasParentClass := HasParentClass(parents);
    var d' := d - Dropped(d, t, hasParentClass, open);
    var t' := PrunedTable(t, open);
    forall k: Key ensures k in t' <==> Listed(d', k) {
      if k in t {
        PruneIsExact(d, t, hasParentClass, open, k);
      }
    }
    forall k: Key, p | k in t' && p in t'[k] ensures p in parents && (Usable(d', kind, k) || Blocked(d', p, k.0)) {
      PruneIsExact(d, t, hasParentClass, open, k);
      KnownArePlain(d, t, parents, kind, k);
      TmpLinkIsPublic(k.0);
    }
    forall k: Key | k in t' && !Unlinked(d', parents, k) ensures t'[k] != [] {
      assert !Unlinked(d, parents, k);
    }
  }

  /** A link left over stays, and its artifact does exactly if somebody refers to it or has it open. */
  lemma LeftOverAfterPrune(d: Disk, t: Table, parents: seq<string>, kind: Kind, open: set<Key>, p: string, k: Key)
    requires Good(d, parents, kind) && Consistent(d, t) && p in parents
    requires Plain(k.0) && IsDigest(k.1) && LeftOver(d, p, k)
    ensures var d' := d - Dropped(d, t, HasParentClass(parents), open);
            && LeftOver(d', p, k)
            && (Listed(d', k) <==> k in t && (t[k] != [] || k in open))
  {
    TmpLinkIsPublic(k.0);
    assert k in t <==> Listed(d, k);
    if k in t {
      PruneIsExact(d, t, HasParentClass(parents), open, k);
    }
  }

  /**
   An incomplete artifact survives exactly if somebody has it open; nobody can refer to it, unless
   its name is blocked.
   */
  lemma IncompleteAfterPrune(d: Disk, t: Table, parents: seq<string>, kind: Kind, open: set<Key>, k: Key)
    requires Good(d, parents, kind) && Consistent(d, t) && Backed(d, t, parents, kind)
    requires k in t && k !in kind.spoiled && forall p :: p in parents ==> !Blocked(d, p, k.0)
    ensures var d' := d - Dropped(d, t, HasParentClass(parents), open);
            Listed(d', k) && !Complete(d', k) <==> !Complete(d, k) && k in open
  {
    PruneIsExact(d, t, HasParentClass(parents), open, k);
    assert Listed(d, k);
    if t[k] != [] {
      var p := t[k][0];
      assert p in t[k];
      assert p in parents && Usable(d, kind, k);
    }
  }

  /** Afterwards nothing is left of downloads that did not finish. */
  lemma PruneRemovesTmp(d: Disk, t: Table, parents: seq<string>, kind: Kind, open: set<Key>, k: Key)
    requires Good(d, parents, kind)
    ensures TmpPath(k) !in d - Dropped(d, t, HasParentClass(parents), open)
  {
    TmpIsHidden(k);
    if TmpPath(k) in d {
      assert EntryOk(d, parents, kind, TmpPath(k));
    }
  }
}
