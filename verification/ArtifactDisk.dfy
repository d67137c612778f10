/**
 The directory of an artifact repository: artifact files with hidden names, and links to
 them, either beside the files or in one directory for each parent slot.
 */
module ArtifactDisk {
  import opened Wrappers
  import opened ArtifactNames
  import opened ArtifactRefs

  /** Data is a file or a tree; it is complete, or something of it is missing. */
  datatype Node = Link(target: string) | Data(complete: bool)

  /** The directory, "" for the repository itself, and the name in it. */
  type Path = (string, string)

  type Disk = map<Path, Node>

  /**
   The type of a repository: trees instead of files. `spoiled` are the artifacts that are
   taken for usable although something of them may be missing; there should be none.
   */
  datatype Kind = Kind(trees: bool, spoiled: set<Key>)

  predicate Hidden(x: string) { x != "" && x[0] == '.' }

  /** Names of artifacts that a manifest can have; they never look like a temporary link. */
  predicate Plain(n: string) {
    n != "" && n[0] != '.' && '/' !in n && !EndsWith(n, ".tmp-link")
  }

  function FilePath(k: Key): Path { ("", FileName(k.0, k.1)) }
  function TmpPath(k: Key): Path { ("", FileName(k.0, k.1) + ".tmp") }
  function LinkPath(p: string, n: string): Path { (p, n) }
  function TmpLink(p: string, n: string): Path { (p, n + ".tmp-link") }
  function TargetOf(p: string, k: Key): Node { Link(Target(p, k.0, k.1)) }

  predicate Complete(d: Disk, k: Key) { FilePath(k) in d && d[FilePath(k)] == Data(true) }

  predicate Listed(d: Disk, k: Key) { IsDigest(k.1) && FilePath(k) in d }

  predicate Usable(d: Disk, kind: Kind, k: Key) { Complete(d, k) || (k in kind.spoiled && Listed(d, k)) }

  /** The entry that a link of this directory leads to. */
  function Reached(dir: string, text: string): Option<Path> {
    match Follow(dir, text)
    case None => None
    case Some(parts) =>
      if |parts| == 1 then Some(("", parts[0])) else if |parts| == 2 then Some((parts[0], parts[1])) else None
  }

  lemma TargetReachesFile(p: string, k: Key)
    requires Plain(k.0) && IsDigest(k.1)
    ensures Reached(p, Target(p, k.0, k.1)) == Some(FilePath(k))
  {
    TargetLeadsToFile(p, k.0, k.1);
  }

  /**
   A public link names the artifact it leads to, and the artifact is usable; a temporary
   link left behind by a crash leads to some artifact of its name, present or not.
   */
  predicate LinkOk(d: Disk, kind: Kind, p: string, x: string, target: string) {
    match ParseTarget(p, target)
    case None => false
    case Some(k) =>
      && Plain(k.0) && Reached(p, target) == Some(FilePath(k))
      && ((x == k.0 && Usable(d, kind, k)) || x == k.0 + ".tmp-link")
  }

  /** Artifact files have plain names; only trees can be incomplete under their final name. */
  predicate FileOk(x: string, node: Node, kind: Kind) {
    match ParseFile(x)
    case None => true
    case Some(k) => Plain(k.0) && (kind.trees || node == Data(true))
  }

  predicate EntryOk(d: Disk, parents: seq<string>, kind: Kind, q: Path)
    requires q in d
  {
    && (q.0 == "" || q.0 in parents)
    && (if Hidden(q.1) then d[q].Data? && (q.0 == "" ==> FileOk(q.1, d[q], kind))
        else d[q].Link? && q.0 in parents ==> LinkOk(d, kind, q.0, q.1, d[q].target))
  }

  /** Temporary ones aside, no public link dangles or leads to incomplete data. */
  predicate Good(d: Disk, parents: seq<string>, kind: Kind) {
    forall q {:trigger EntryOk(d, parents, kind, q)} :: q in d ==> EntryOk(d, parents, kind, q)
  }

  /** Whatever is usable for one kind is for another that spoils more. */
  lemma GoodForMore(d: Disk, parents: seq<string>, kind: Kind, more: Kind)
    requires Good(d, parents, kind) && kind.trees == more.trees && kind.spoiled <= more.spoiled
    ensures Good(d, parents, more)
  {
    forall q | q in d ensures EntryOk(d, parents, more, q) {
      assert EntryOk(d, parents, kind, q);
    }
  }

  // ---- temporary links included ------------------------------------------------------------------

  predicate NoLeftOvers(d: Disk) {
    forall q :: q in d ==> !EndsWith(q.1, ".tmp-link")
  }

  /** Every public link leads to a usable artifact, temporary ones included. */
  predicate Serves(d: Disk, parents: seq<string>, kind: Kind) {
    forall q :: q in d && q.0 in parents && !Hidden(q.1) && d[q].Link? ==> LeadsToUsable(d, kind, q)
  }

  predicate LeadsToUsable(d: Disk, kind: Kind, q: Path)
    requires q in d && d[q].Link?
  {
    match Reached(q.0, d[q].target)
    case None => false
    case Some(f) => f in d && (d[f] == Data(true) || IsSpoiled(kind, f))
  }

  predicate IsSpoiled(kind: Kind, f: Path) {
    exists k :: k in kind.spoiled && IsDigest(k.1) && FilePath(k) == f
  }

  lemma TmpLinkSuffix(n: string)
    ensures EndsWith(n + ".tmp-link", ".tmp-link")
  {
    var x := n + ".tmp-link";
    assert x[|x| - 9..] == ".tmp-link";
  }

  /** Without temporary links, that no other link dangles is enough. */
  lemma TidyServes(d: Disk, parents: seq<string>, kind: Kind)
    requires Good(d, parents, kind) && NoLeftOvers(d)
    ensures Serves(d, parents, kind)
  {
    forall q | q in d && q.0 in parents && !Hidden(q.1) && d[q].Link? ensures LeadsToUsable(d, kind, q) {
      assert EntryOk(d, parents, kind, q);
      var k := ParseTarget(q.0, d[q].target).value;
      TmpLinkSuffix(k.0);
      assert Usable(d, kind, k);
    }
  }

  /** What Good says of the links that are not temporary. */
  lemma GoodMeaning(d: Disk, parents: seq<string>, kind: Kind, p: string, x: string)
    requires Good(d, parents, kind) && p in parents && (p, x) in d && d[(p, x)].Link?
    requires x != "" && !EndsWith(x, ".tmp-link")
    ensures exists digest ::
              && IsDigest(digest) && d[(p, x)] == TargetOf(p, (x, digest)) && Usable(d, kind, (x, digest))
              && Reached(p, d[(p, x)].target) == Some(FilePath((x, digest)))
  {
    assert EntryOk(d, parents, kind, (p, x));
    var target := d[(p, x)].target;
    var k := ParseTarget(p, target).value;
    ParseTargetIff(p, target, k.0, k.1);
    assert (k.0 + ".tmp-link")[|k.0|..] == ".tmp-link";
    assert x == k.0;
  }

  // ---- the kinds of names do not overlap ---------------------------------------------------------

  lemma ParsedIsHidden(x: string)
    ensures ParseFile(x).Some? ==> Hidden(x)
  {
    if ParseFile(x).Some? {
      var k := ParseFile(x).value;
      ParseFileIff(x, k.0, k.1);
    }
  }

  lemma TmpLinkIsPublic(n: string)
    requires Plain(n)
    ensures !Hidden(n) && !Hidden(n + ".tmp-link") && ParseFile(n) == None && ParseFile(n + ".tmp-link") == None
    ensures n + ".tmp-link" != n
  {
    ParsedIsHidden(n);
    ParsedIsHidden(n + ".tmp-link");
  }

  lemma TmpIsHidden(k: Key)
    ensures Hidden(TmpPath(k).1) && ParseFile(TmpPath(k).1) == None && TmpPath(k) != FilePath(k)
  {
    TmpNeverParses(FileName(k.0, k.1));
  }

  lemma FileIsHidden(k: Key)
    requires IsDigest(k.1)
    ensures Hidden(FilePath(k).1) && ParseFile(FilePath(k).1) == Some(k)
  {
    ParseFileIff(FileName(k.0, k.1), k.0, k.1);
  }

  lemma LinkedIsComplete(d: Disk, parents: seq<string>, kind: Kind, p: string, k: Key)
    requires p in parents && Plain(k.0) && IsDigest(k.1)
    requires LinkPath(p, k.0) in d && d[LinkPath(p, k.0)] == TargetOf(p, k)
    ensures Good(d, parents, kind) ==> Usable(d, kind, k)
  {
    TmpLinkIsPublic(k.0);
    ParseTargetIff(p, Target(p, k.0, k.1), k.0, k.1);
    TargetReachesFile(p, k);
    if Good(d, parents, kind) {
      assert EntryOk(d, parents, kind, LinkPath(p, k.0));
    }
  }

  // ---- every single change of the directory -----------------------------------------------------------

  /** No public link leads to the artifact, temporary ones aside. */
  predicate Unlinked(d: Disk, parents: seq<string>, k: Key) {
    forall p :: p in parents && LinkPath(p, k.0) in d ==> d[LinkPath(p, k.0)] != TargetOf(p, k)
  }

  lemma LinkOkDependsOn(d: Disk, d': Disk, kind: Kind, p: string, x: string, target: string)
    requires LinkOk(d, kind, p, x, target)
    requires forall k: Key :: IsDigest(k.1) && Usable(d, kind, k) && x == k.0 && target == Target(p, k.0, k.1) ==>
               Usable(d', kind, k)
    ensures LinkOk(d', kind, p, x, target)
  {
    var k := ParseTarget(p, target).value;
    ParseTargetIff(p, target, k.0, k.1);
  }

  /** A change is harmless if what is new is right and no linked artifact is touched. */
  lemma ChangeKeepsGood(d: Disk, d': Disk, parents: seq<string>, kind: Kind)
    requires Good(d, parents, kind)
    requires forall q :: q in d' && !(q in d && d[q] == d'[q]) ==> EntryOk(d', parents, kind, q)
    requires forall k: Key :: IsDigest(k.1) && Usable(d, kind, k) && !Unlinked(d, parents, k) ==> Usable(d', kind, k)
    ensures Good(d', parents, kind)
  {
    forall q | q in d' ensures EntryOk(d', parents, kind, q) {
      if q in d && d[q] == d'[q] {
        assert EntryOk(d, parents, kind, q);
        if !Hidden(q.1) && d[q].Link? && q.0 in parents {
          forall k: Key | IsDigest(k.1) && Usable(d, kind, k) && q.1 == k.0 && d[q].target == Target(q.0, k.0, k.1)
            ensures Usable(d', kind, k)
          {
            assert LinkPath(q.0, k.0) == q && d[LinkPath(q.0, k.0)] == TargetOf(q.0, k);
          }
          LinkOkDependsOn(d, d', kind, q.0, q.1, d[q].target);
        }
      }
    }
  }

  /** Nothing is wrong with what is spoiled as long as it is not linked. */
  lemma UnlinkedSpoilsNothing(d: Disk, parents: seq<string>, kind: Kind)
    requires Good(d, parents, kind) && forall k :: k in kind.spoiled ==> Unlinked(d, parents, k)
    ensures Good(d, parents, Kind(kind.trees, {}))
  {
    var sound := Kind(kind.trees, {});
    forall q | q in d ensures EntryOk(d, parents, sound, q) {
      assert EntryOk(d, parents, kind, q);
      if !Hidden(q.1) && d[q].Link? && q.0 in parents {
        var k := ParseTarget(q.0, d[q].target).value;
        ParseTargetIff(q.0, d[q].target, k.0, k.1);
        if q.1 == k.0 {
          assert LinkPath(q.0, k.0) == q;
          assert k !in kind.spoiled;
        }
      }
    }
  }

  lemma LinkSpoilsNothing(d: Disk, kind: Kind, q: Path, node: Node, k: Key)
    requires !Hidden(q.1)
    ensures Usable(d[q := node], kind, k) == Usable(d, kind, k)
  {
    FileNamesAreHidden(k.0, k.1);
  }

  lemma TmpLinkKeepsGood(d: Disk, parents: seq<string>, kind: Kind, p: string, k: Key)
    requires Good(d, parents, kind) && p in parents && Plain(k.0) && IsDigest(k.1) && TmpLink(p, k.0) !in d
    ensures Good(d[TmpLink(p, k.0) := TargetOf(p, k)], parents, kind)
  {
    var d' := d[TmpLink(p, k.0) := TargetOf(p, k)];
    TmpLinkIsPublic(k.0);
    ParseTargetIff(p, Target(p, k.0, k.1), k.0, k.1);
    TargetReachesFile(p, k);
    forall x: Key | IsDigest(x.1) && Usable(d, kind, x) ensures Usable(d', kind, x) {
      LinkSpoilsNothing(d, kind, TmpLink(p, k.0), TargetOf(p, k), x);
    }
    LinkSpoilsNothing(d, kind, TmpLink(p, k.0), TargetOf(p, k), k);
    assert EntryOk(d', parents, kind, TmpLink(p, k.0));
    ChangeKeepsGood(d, d', parents, kind);
  }

  /** While it is made, a temporary link leads to the artifact that is to be linked. */
  lemma TmpLinkServes(d: Disk, parents: seq<string>, kind: Kind, p: string, k: Key)
    requires Good(d, parents, kind) && NoLeftOvers(d) && p in parents && Plain(k.0) && IsDigest(k.1)
               && Usable(d, kind, k)
    ensures Serves(d[TmpLink(p, k.0) := TargetOf(p, k)], parents, kind)
  {
    var t := TmpLink(p, k.0);
    var d' := d[t := TargetOf(p, k)];
    TidyServes(d, parents, kind);
    TmpLinkIsPublic(k.0);
    TmpLinkSuffix(k.0);
    LinkSpoilsNothing(d, kind, t, TargetOf(p, k), k);
    forall q | q in d' && q.0 in parents && !Hidden(q.1) && d'[q].Link? ensures LeadsToUsable(d', kind, q) {
      if q == t {
        LinkLeads(d', kind, p, k, q);
      } else {
        StillLeads(d, d', kind, q);
      }
    }
  }

  /** A link to an artifact leads to something usable exactly if the artifact is. */
  lemma LinkLeads(d: Disk, kind: Kind, p: string, k: Key, q: Path)
    requires Plain(k.0) && IsDigest(k.1) && q in d && q.0 == p && d[q] == TargetOf(p, k)
    ensures LeadsToUsable(d, kind, q) <==> Usable(d, kind, k)
  {
    TargetReachesFile(p, k);
    forall x: Key | IsDigest(x.1) && FilePath(x) == FilePath(k) ensures x == k {
      FileNameIsInjective(x.0, x.1, k.0, k.1);
    }
  }

  lemma StillLeads(d: Disk, d': Disk, kind: Kind, q: Path)
    requires q in d && d[q].Link? && LeadsToUsable(d, kind, q) && q in d' && d'[q] == d[q]
    requires forall f :: f in d ==> f in d' && d'[f] == d[f]
    ensures LeadsToUsable(d', kind, q)
  {
  }

  /** Removing anything but a linked artifact. */
  lemma RemovalKeepsGood(d: Disk, parents: seq<string>, kind: Kind, q: Path)
    requires Good(d, parents, kind)
    requires forall k: Key :: IsDigest(k.1) && FilePath(k) == q ==> Unlinked(d, parents, k)
    ensures Good(d - {q}, parents, kind)
  {
    ChangeKeepsGood(d, d - {q}, parents, kind);
  }

  lemma LinkKeepsGood(d: Disk, parents: seq<string>, kind: Kind, p: string, k: Key)
    requires Good(d, parents, kind) && p in parents && Plain(k.0) && IsDigest(k.1) && Usable(d, kind, k)
    ensures Good(d[LinkPath(p, k.0) := TargetOf(p, k)], parents, kind)
  {
    var d' := d[LinkPath(p, k.0) := TargetOf(p, k)];
    TmpLinkIsPublic(k.0);
    ParseTargetIff(p, Target(p, k.0, k.1), k.0, k.1);
    TargetReachesFile(p, k);
    forall x: Key | IsDigest(x.1) && Usable(d, kind, x) ensures Usable(d', kind, x) {
      LinkSpoilsNothing(d, kind, LinkPath(p, k.0), TargetOf(p, k), x);
    }
    LinkSpoilsNothing(d, kind, LinkPath(p, k.0), TargetOf(p, k), k);
    assert EntryOk(d', parents, kind, LinkPath(p, k.0));
    ChangeKeepsGood(d, d', parents, kind);
  }

  /** Linking an artifact keeps the directory good exactly if the artifact is usable. */
  lemma LinkKeepsGoodIff(d: Disk, parents: seq<string>, kind: Kind, p: string, k: Key)
    requires Good(d, parents, kind) && p in parents && Plain(k.0) && IsDigest(k.1)
    ensures Good(d[LinkPath(p, k.0) := TargetOf(p, k)], parents, kind) <==> Usable(d, kind, k)
  {
    var d' := d[LinkPath(p, k.0) := TargetOf(p, k)];
    LinkedIsComplete(d', parents, kind, p, k);
    TmpLinkIsPublic(k.0);
    FileIsHidden(k);
    assert Usable(d', kind, k) == Usable(d, kind, k);
    if Usable(d, kind, k) {
      LinkKeepsGood(d, parents, kind, p, k);
    }
  }

  lemma RenameLinkKeepsGood(d: Disk, parents: seq<string>, kind: Kind, p: string, k: Key)
    requires Good(d, parents, kind) && p in parents && Plain(k.0) && IsDigest(k.1) && Usable(d, kind, k)
    ensures Good((d - {TmpLink(p, k.0)})[LinkPath(p, k.0) := TargetOf(p, k)], parents, kind)
  {
    var q := TmpLink(p, k.0);
    TmpLinkIsPublic(k.0);
    forall x: Key | IsDigest(x.1) ensures FilePath(x) != q {
      FileIsHidden(x);
    }
    RemovalKeepsGood(d, parents, kind, q);
    LinkKeepsGood(d - {q}, parents, kind, p, k);
  }

  /** Half of a removal: data loses its completeness first, unless it goes at once. */
  lemma SpoilingKeepsGood(d: Disk, parents: seq<string>, kind: Kind, q: Path)
    requires Good(d, parents, kind) && q in d && d[q].Data? && (kind.trees || q.0 != "" || ParseFile(q.1) == None)
    requires forall k: Key :: IsDigest(k.1) && FilePath(k) == q ==> Unlinked(d, parents, k)
    ensures Good(d[q := Data(false)], parents, kind)
  {
    assert EntryOk(d, parents, kind, q);
    ChangeKeepsGood(d, d[q := Data(false)], parents, kind);
  }

  lemma TmpDataKeepsGood(d: Disk, parents: seq<string>, kind: Kind, k: Key, complete: bool)
    requires Good(d, parents, kind)
    ensures Good(d[TmpPath(k) := Data(complete)], parents, kind)
  {
    var d' := d[TmpPath(k) := Data(complete)];
    TmpIsHidden(k);
    forall x: Key | IsDigest(x.1) && Usable(d, kind, x) ensures Usable(d', kind, x) {
      FileIsHidden(x);
    }
    ChangeKeepsGood(d, d', parents, kind);
  }

  lemma RenameDataKeepsGood(d: Disk, parents: seq<string>, kind: Kind, k: Key)
    requires Good(d, parents, kind) && Plain(k.0) && IsDigest(k.1)
    ensures Good((d - {TmpPath(k)})[FilePath(k) := Data(true)], parents, kind)
  {
    var d' := (d - {TmpPath(k)})[FilePath(k) := Data(true)];
    TmpIsHidden(k);
    FileIsHidden(k);
    forall x: Key | IsDigest(x.1) && Usable(d, kind, x) ensures Usable(d', kind, x) {
      FileIsHidden(x);
    }
    ChangeKeepsGood(d, d', parents, kind);
  }
}
