/**
 An artifact repository: its table in memory, its directory, and the steps of an
 installation. Every change of the directory is a single step that a crash can follow;
 the history of the directory records them all.
 */
module Artifacts {
  import opened Wrappers
  import opened Collections
  import opened ArtifactNames
  import opened ArtifactRefs
  import opened ArtifactDisk
  import opened ArtifactState

  // ---- what a commit leaves alone ---------------------------------------------------------------

  /** Hidden entries are the same, and temporary links are still there. */
  ghost predicate LinkFrame(d: Disk, d': Disk) {
    && (forall q: Path :: Hidden(q.1) ==> (q in d <==> q in d'))
    && (forall q: Path :: q in d && (Hidden(q.1) || EndsWith(q.1, ".tmp-link")) ==> q in d' && d'[q] == d[q])
    && (forall q: Path :: q in d' && !Hidden(q.1) && d'[q].Data? ==> q in d && d[q].Data?)
  }

  ghost predicate SameBut(d: Disk, d': Disk, changed: Path) {
    forall q: Path :: q != changed ==> (q in d <==> q in d') && (q in d ==> d'[q] == d[q])
  }

  /** Every wanted artifact that is known is usable, or the link of its name cannot change. */
  ghost predicate Solid(d: Disk, t: Table, kind: Kind, wanted: set<Key>) {
    forall k: Key :: k in t && k in wanted ==> Usable(d, kind, k) || Blocked(d, "", k.0)
  }

  ghost predicate NoTmp(d: Disk) {
    forall k: Key :: TmpPath(k) !in d
  }

  lemma FrameKeepsFile(d: Disk, d': Disk, k: Key)
    requires LinkFrame(d, d')
    ensures FilePath(k) in d <==> FilePath(k) in d'
    ensures FilePath(k) in d ==> d'[FilePath(k)] == d[FilePath(k)]
    ensures TmpPath(k) in d <==> TmpPath(k) in d'
  {
    FileNamesAreHidden(k.0, k.1);
    TmpIsHidden(k);
  }

  lemma FrameKeepsBlocked(d: Disk, d': Disk, p: string, n: string)
    requires LinkFrame(d, d') && Blocked(d, p, n)
    ensures Blocked(d', p, n)
  {
    var x := n + ".tmp-link";
    assert x[|x| - 9..] == ".tmp-link";
  }

  lemma FrameKeepsState(d: Disk, d': Disk, t: Table, parents: seq<string>, kind: Kind, wanted: set<Key>)
    requires LinkFrame(d, d') && Consistent(d, t) && Backed(d, t, parents, kind)
    ensures Consistent(d', t) && Backed(d', t, parents, kind)
    ensures Solid(d, t, kind, wanted) ==> Solid(d', t, kind, wanted)
    ensures NoTmp(d) ==> NoTmp(d')
  {
    forall k: Key ensures (Listed(d, k) <==> Listed(d', k)) && (Usable(d, kind, k) ==> Usable(d', kind, k))
      && (TmpPath(k) in d <==> TmpPath(k) in d')
    {
      FrameKeepsFile(d, d', k);
    }
    forall p, n | Blocked(d, p, n) ensures Blocked(d', p, n) {
      FrameKeepsBlocked(d, d', p, n);
    }
  }

  lemma TmpLinkFrame(d: Disk, p: string, k: Key)
    requires Plain(k.0) && TmpLink(p, k.0) !in d
    ensures LinkFrame(d, d[TmpLink(p, k.0) := TargetOf(p, k)])
    ensures var d' := (d[TmpLink(p, k.0) := TargetOf(p, k)] - {TmpLink(p, k.0)})[LinkPath(p, k.0) := TargetOf(p, k)];
            LinkFrame(d, d') && SameBut(d, d', LinkPath(p, k.0)) && LinkedBy(d', p, k)
  {
    TmpLinkIsPublic(k.0);
    NotTmpLink(k.0);
  }

  /** What a commit needs, and what it keeps. */
  ghost predicate Committable(d: Disk, t: Table, parents: seq<string>, kind: Kind) {
    Consistent(d, t) && Backed(d, t, parents, kind)
  }

  ghost predicate SyncedFor(d: Disk, t: Table, p: string, names: seq<string>) {
    forall n :: n in names ==> SyncedAt(d, t, p, n)
  }

  lemma NameSynced(before: Disk, now: Disk, next: Disk, t: Table, p: string, names: seq<string>, i: nat)
    requires i < |names| && forall a, b :: 0 <= a < b < |names| ==> names[a] != names[b]
    requires SyncedFor(now, t, p, names[..i]) && OnlyLinksOf(before, now, p, names)
    requires SameBut(now, next, LinkPath(p, names[i])) && SyncedAt(next, t, p, names[i])
    ensures SyncedFor(next, t, p, names[..i + 1]) && OnlyLinksOf(before, next, p, names)
  {
    assert names[..i + 1] == names[..i] + [names[i]];
    forall n | n in names[..i + 1] ensures SyncedAt(next, t, p, n) {
      if n != names[i] {
        assert n in names[..i];
        SyncedDependsOn(now, next, t, p, n);
      }
    }
    assert names[i] in names;
  }

  lemma OthersStaySynced(d: Disk, d': Disk, t: Table, p: string, other: string, names: seq<string>)
    requires SyncedFor(d, t, other, names) && OnlyLinksOf(d, d', p, names) && other != p
    ensures SyncedFor(d', t, other, names)
  {
    forall n | n in names ensures SyncedAt(d', t, other, n) {
      SyncedDependsOn(d, d', t, other, n);
    }
  }

  lemma FrameTrans(a: Disk, b: Disk, c: Disk)
    requires LinkFrame(a, b) && LinkFrame(b, c)
    ensures LinkFrame(a, c)
  {
  }

  lemma SyncedDependsOn(d: Disk, d': Disk, t: Table, p: string, n: string)
    requires SyncedAt(d, t, p, n)
    requires LinkPath(p, n) in d <==> LinkPath(p, n) in d'
    requires LinkPath(p, n) in d ==> d'[LinkPath(p, n)] == d[LinkPath(p, n)]
    ensures SyncedAt(d', t, p, n)
  {
  }

  /** Something that is no link is where links belong. */
  ghost predicate Obstructed(d: Disk, parents: seq<string>) {
    exists q :: q in d && q.0 in parents && !Hidden(q.1) && d[q].Data?
  }

  // ---- what is to stay -------------------------------------------------------------------------------

  ghost predicate Keeps(d: Disk, d': Disk, paths: set<Path>) {
    forall q :: q in paths ==> q in d && q in d' && d'[q] == d[q]
  }

  /** Temporary links and artifact files, and nothing that is removed whatever the table says. */
  ghost predicate Pinnable(d: Disk, hasParentClass: bool, paths: set<Path>) {
    forall q :: q in paths ==>
        q in d && !IsJunk(d, hasParentClass, q) && (EndsWith(q.1, ".tmp-link") || IsArtifactFile(q))
  }

  lemma LinksAreNotPinned(d: Disk, hasParentClass: bool, paths: set<Path>, p: string, n: string)
    requires Pinnable(d, hasParentClass, paths) && Plain(n)
    ensures LinkPath(p, n) !in paths
  {
    NotTmpLink(n);
    if IsArtifactFile(LinkPath(p, n)) {
      var k := ParseFile(n).value;
      ParseFileIff(n, k.0, k.1);
      FileNamesAreHidden(k.0, k.1);
    }
  }

  /** Every state so far is good and keeps what is to stay; it serves all links if there were no temporary ones at first. */
  ghost predicate Trail(h: seq<Disk>, parents: seq<string>, kind: Kind, clean: bool, first: Disk, pinned: set<Path>)
    decreases |h|
  {
    h != [] ==>
      && Trail(h[..|h| - 1], parents, kind, clean, first, pinned)
      && Good(h[|h| - 1], parents, kind) && (clean ==> Serves(h[|h| - 1], parents, kind)) && Keeps(first, h[|h| - 1], pinned)
  }

  lemma {:induction false} TrailAt(h: seq<Disk>, parents: seq<string>, kind: Kind, clean: bool, first: Disk,
                                   pinned: set<Path>, i: nat)
    requires Trail(h, parents, kind, clean, first, pinned) && i < |h|
    ensures Good(h[i], parents, kind) && (clean ==> Serves(h[i], parents, kind)) && Keeps(first, h[i], pinned)
    decreases |h|
  {
    if i < |h| - 1 {
      TrailAt(h[..|h| - 1], parents, kind, clean, first, pinned, i);
    }
  }

  // ---- the repository -----------------------------------------------------------------------------

  class ArtifactRepo {
    /** The possible references: the slots of the parent class, or only "" without one. */
    const parents: seq<string>
    const kind: Kind
    /** Whether the directory had no temporary links at first. */
    ghost const clean: bool
    /** What the directory was at first, and what of it is to stay: temporary links, and artifact files still in use. */
    ghost const first: Disk
    ghost const pinned: set<Path>
    var disk: Disk
    var table: Table
    /** Every state the directory was in, the current one last. */
    var history: seq<Disk>
    /** Whether any change of the directory has failed. */
    ghost var troubled: bool

    /**
     No state of the directory, whatever the crash, has a public link to nothing or to data
     that is not usable; temporary links are excepted only if there were some at first.
     */
    ghost predicate Valid()
      reads this`disk, this`history
    {
      && Distinct(parents) && ("" in parents ==> parents == [""])
      && history != [] && history[0] == first && history[|history| - 1] == disk
      && Pinnable(first, HasParentClass(parents), pinned)
      && Trail(history, parents, kind, clean, first, pinned)
    }

    /** Unless a step has failed, a directory without temporary links stays without them. */
    ghost predicate Tidy()
      reads this`disk
    {
      clean ==> NoLeftOvers(disk)
    }

    constructor (parents: seq<string>, kind: Kind, disk: Disk, ghost pinned: set<Path>)
      requires Distinct(parents) && ("" in parents ==> parents == [""])
      requires Good(disk, parents, kind) && Pinnable(disk, HasParentClass(parents), pinned)
      ensures Valid() && Tidy() && this.parents == parents && this.kind == kind && this.disk == disk
                && history == [disk]
      ensures clean == NoLeftOvers(disk) && first == disk && this.pinned == pinned && !troubled
    {
      this.parents, this.kind, this.disk, table := parents, kind, disk, map[];
      clean, first, this.pinned, troubled := NoLeftOvers(disk), disk, pinned, false;
      history := [disk];
      new;
      if clean {
        TidyServes(disk, parents, kind);
      }
    }

    /** A step that may fail. */
    method Attempt() returns (ok: bool)
      modifies this`troubled
      ensures troubled == (old(troubled) || !ok)
    {
      ok := *;
      troubled := troubled || !ok;
    }

    /** A single change of the directory. */
    method Change(d: Disk)
      requires Valid() && Good(d, parents, kind) && (clean ==> Serves(d, parents, kind)) && Keeps(first, d, pinned)
      modifies this`disk, this`history
      ensures Valid() && disk == d && history == old(history) + [d]
    {
      assert (history + [d])[..|history|] == history;
      disk := d;
      history := history + [d];
    }

    method SetTable(t: Table)
      requires Valid()
      modifies this`table
      ensures Valid() && table == t
    {
      table := t;
    }

    // ---- reading ----------------------------------------------------------------------------------

    /** Builds the table from the artifact files. */
    method ReadFiles()
      modifies this`table
      ensures Consistent(disk, table) && forall k: Key :: k in table ==> table[k] == []
    {
      table := map[];
      var names := List(set q | q in disk && q.0 == "" :: q.1);
      var i := 0;
      while i < |names|
        invariant 0 <= i <= |names|
        invariant forall k: Key :: k in table <==> IsDigest(k.1) && FileName(k.0, k.1) in names[..i]
        invariant forall k: Key :: k in table ==> table[k] == []
      {
        var name := names[i];
        var parsed := ParseFile(name);
        forall k: Key ensures parsed == Some(k) <==> IsDigest(k.1) && name == FileName(k.0, k.1) {
          ParseFileIff(name, k.0, k.1);
        }
        assert names[..i + 1] == names[..i] + [name];
        if parsed.Some? {
          table := table[parsed.value := []];
        }
        i := i + 1;
      }
      assert names[..i] == names;
      assert forall k: Key :: FileName(k.0, k.1) in names <==> FilePath(k) in disk;
    }

    /** One entry of a parent's directory: a reference to the known artifact it leads to, if it does. */
    method ReadLink(p: string, q: Path)
      requires Consistent(disk, table) && q in disk && q.0 == p
      modifies this`table
      ensures table.Keys == old(table).Keys
      ensures forall k: Key :: k in table ==> table[k] == old(table)[k] + if q in LinksTo(disk, p, k) then [p] else []
    {
      forall k: Key | k in table ensures Resolved(disk, q) == Some(k) <==> q in LinksTo(disk, p, k) {
        assert Listed(disk, k);
        ResolvedIff(disk, p, q, k);
      }
      var target := Resolved(disk, q);
      if target.Some? && target.value in table {
        table := table[target.value := table[target.value] + [p]];
      }
      assert forall k: Key :: k in table ==> old(table)[k] + [] == old(table)[k];
    }

    method ReadEntries(p: string, entries: seq<Path>)
      requires Consistent(disk, table) && forall q :: q in entries ==> q in disk && q.0 == p
      modifies this`table
      ensures table.Keys == old(table).Keys
      ensures forall k: Key :: k in table ==> table[k] == old(table)[k] + Found(p, LinksTo(disk, p, k), entries)
    {
      ghost var before, d := table, disk;
      var i := 0;
      while i < |entries|
        invariant 0 <= i <= |entries| && disk == d && table.Keys == before.Keys
        invariant forall k: Key :: k in before ==> table[k] == before[k] + Found(p, LinksTo(d, p, k), entries[..i])
      {
        assert entries[i] in entries;
        ghost var now := table;
        ReadLink(p, entries[i]);
        forall k: Key | k in before ensures table[k] == before[k] + Found(p, LinksTo(d, p, k), entries[..i + 1]) {
          FoundOne(before[k], now[k], table[k], p, LinksTo(d, p, k), entries, i);
        }
        i := i + 1;
      }
      assert entries[..i] == entries;
    }

    /** Adds a reference of the parent for every link in its directory that leads to a known artifact. */
    method ReadLinks(p: string)
      requires Consistent(disk, table)
      modifies this`table
      ensures table.Keys == old(table).Keys
      ensures forall k: Key :: k in table ==> table[k] == old(table)[k] + Copies(p, |LinksTo(disk, p, k)|)
    {
      var entries := List(set q | q in disk && q.0 == p);
      ReadEntries(p, entries);
      forall k: Key | k in table ensures Found(p, LinksTo(disk, p, k), entries) == Copies(p, |LinksTo(disk, p, k)|) {
        FoundAll(p, LinksTo(disk, p, k), entries);
      }
    }

    /** Reads files and links; what the table was before does not matter. */
    method Prepare()
      requires Valid()
      modifies this`table
      ensures ReadFrom(disk, table, parents)
      ensures Backed(disk, table, parents, kind) && Covered(disk, table, parents)
    {
      ReadFiles();
      var i := 0;
      while i < |parents|
        invariant 0 <= i <= |parents|
        invariant Consistent(disk, table)
        invariant forall k: Key :: k in table ==> table[k] == RefsOf(disk, parents[..i], k)
      {
        assert parents[..i + 1][..i] == parents[..i];
        ReadLinks(parents[i]);
        i := i + 1;
      }
      assert parents[..i] == parents;
      ReadIsBacked(disk, table, parents, kind);
    }

    // ---- committing ---------------------------------------------------------------------------------

    /**
     Points the link of a name to an artifact: a temporary link is made and renamed over
     it. A temporary link that was left behind by a crash makes this fail forever, unless
     the link is right already.
     */
    method UpdateSymlink(p: string, k: Key) returns (ok: bool)
      requires Valid() && p in parents && Plain(k.0) && IsDigest(k.1)
      requires Usable(disk, kind, k) || TmpLink(p, k.0) in disk
      requires Tidy()
      modifies this`disk, this`history, this`troubled
      ensures old(troubled) ==> troubled
      ensures ok || troubled || !clean || Obstructed(disk, parents)
      ensures Valid() && LinkFrame(old(disk), disk) && (ok ==> Tidy())
      ensures ok && !LinkedBy(old(disk), p, k) ==>
                history == old(history) + [old(disk)[TmpLink(p, k.0) := TargetOf(p, k)], disk]
      ensures ok ==> SameBut(old(disk), disk, LinkPath(p, k.0)) && LinkedBy(disk, p, k)
      ensures TmpLink(p, k.0) in old(disk) ==> disk == old(disk) && (ok <==> LinkedBy(disk, p, k))
    {
      var name, temporary := LinkPath(p, k.0), TmpLink(p, k.0);
      if name in disk {
        if disk[name].Data? {
          TmpLinkIsPublic(k.0);
          return false;
        }
        if disk[name] == TargetOf(p, k) {
          return true;
        }
      }
      if temporary in disk {
        TmpLinkSuffix(k.0);
        return false;
      }
      ok := ReplaceLink(p, k);
    }

    /** Making the temporary link and renaming it. */
    method ReplaceLink(p: string, k: Key) returns (ok: bool)
      requires Valid() && p in parents && Plain(k.0) && IsDigest(k.1) && Usable(disk, kind, k)
                 && TmpLink(p, k.0) !in disk
      requires Tidy()
      modifies this`disk, this`history, this`troubled
      ensures old(troubled) || !ok ==> troubled
      ensures Valid() && LinkFrame(old(disk), disk) && (ok ==> Tidy())
      ensures ok ==> history == old(history) + [old(disk)[TmpLink(p, k.0) := TargetOf(p, k)], disk]
      ensures ok ==> SameBut(old(disk), disk, LinkPath(p, k.0)) && LinkedBy(disk, p, k)
    {
      ghost var before := disk;
      ok := Attempt();
      if !ok {
        return;
      }
      TmpLinkKeepsGood(disk, parents, kind, p, k);
      TmpLinkFrame(before, p, k);
      if clean {
        TmpLinkServes(disk, parents, kind, p, k);
      }
      Change(disk[TmpLink(p, k.0) := TargetOf(p, k)]);
      FrameKeepsFile(before, disk, k);
      ok := RenameLink(p, k, before);
    }

    /** The rename; if it fails, the temporary link may be removed or stay. */
    method RenameLink(p: string, k: Key, ghost before: Disk) returns (ok: bool)
      requires Valid() && p in parents && Plain(k.0) && IsDigest(k.1) && Usable(disk, kind, k)
      requires (clean ==> NoLeftOvers(before)) && Keeps(first, before, pinned)
      requires TmpLink(p, k.0) !in before && disk == before[TmpLink(p, k.0) := TargetOf(p, k)]
      requires Good(before, parents, kind)
      modifies this`disk, this`history, this`troubled
      ensures old(troubled) || !ok ==> troubled
      ensures Valid()
      ensures ok ==> disk == (old(disk) - {TmpLink(p, k.0)})[LinkPath(p, k.0) := TargetOf(p, k)]
      ensures ok ==> Tidy() && history == old(history) + [disk]
      ensures !ok ==> disk == before || disk == old(disk)
    {
      ok := Attempt();
      if !ok {
        var stays: bool := *;
        if !stays {
          assert disk - {TmpLink(p, k.0)} == before;
          if clean {
            TidyServes(before, parents, kind);
          }
          Change(disk - {TmpLink(p, k.0)});
        }
        return;
      }
      RenameLinkKeepsGood(disk, parents, kind, p, k);
      LinksAreNotPinned(first, HasParentClass(parents), pinned, p, k.0);
      if clean {
        NotTmpLink(k.0);
        TidyServes((disk - {TmpLink(p, k.0)})[LinkPath(p, k.0) := TargetOf(p, k)], parents, kind);
      }
      Change((disk - {TmpLink(p, k.0)})[LinkPath(p, k.0) := TargetOf(p, k)]);
    }

    method Unlink(p: string, n: string) returns (ok: bool)
      requires Valid() && Tidy() && Plain(n)
      modifies this`disk, this`history, this`troubled
      ensures old(troubled) || !ok ==> troubled
      ensures Valid() && Tidy() && LinkFrame(old(disk), disk)
      ensures ok ==> SameBut(old(disk), disk, LinkPath(p, n)) && LinkPath(p, n) !in disk
    {
      if LinkPath(p, n) !in disk {
        return true;
      }
      ok := Attempt();
      if !ok {
        return;
      }
      TmpLinkIsPublic(n);
      NotTmpLink(n);
      forall k: Key | IsDigest(k.1) ensures FilePath(k) != LinkPath(p, n) {
        FileIsHidden(k);
      }
      RemovalKeepsGood(disk, parents, kind, LinkPath(p, n));
      LinksAreNotPinned(first, HasParentClass(parents), pinned, p, n);
      if clean {
        TidyServes(disk - {LinkPath(p, n)}, parents, kind);
      }
      Change(disk - {LinkPath(p, n)});
    }

    /** Some artifact of the name that is active for the parent. */
    method FindEnabled(p: string, n: string) returns (enabled: Option<Key>)
      ensures enabled.Some? ==> enabled.value.0 == n && ActiveFor(table, p, enabled.value)
      ensures enabled.None? ==> forall k: Key :: k.0 == n ==> !ActiveFor(table, p, k)
    {
      var keys := List(set k | k in table && k.0 == n);
      var i := 0;
      while i < |keys|
        invariant 0 <= i <= |keys|
        invariant forall j :: 0 <= j < i ==> keys[j] in table && p !in table[keys[j]]
      {
        assert keys[i] in keys;
        if p in table[keys[i]] {
          return Some(keys[i]);
        }
        i := i + 1;
      }
      forall k: Key | k.0 == n ensures !ActiveFor(table, p, k) {
        if k in table {
          assert k in keys;
        }
      }
      enabled := None;
    }

    method CommitName(p: string, n: string) returns (ok: bool)
      requires Valid() && Tidy() && p in parents && Known(table, n) && Committable(disk, table, parents, kind)
      modifies this`disk, this`history, this`troubled
      ensures old(troubled) ==> troubled
      ensures ok || troubled || !clean || Obstructed(disk, parents)
      ensures Valid() && (ok ==> Tidy()) && LinkFrame(old(disk), disk) && Committable(disk, table, parents, kind)
      ensures ok ==> SameBut(old(disk), disk, LinkPath(p, n)) && SyncedAt(disk, table, p, n)
    {
      ghost var before := disk;
      var enabled := FindEnabled(p, n);
      ghost var known: Key :| known in table && known.0 == n;
      KnownArePlain(disk, table, parents, kind, known);
      if enabled.Some? {
        KnownArePlain(disk, table, parents, kind, enabled.value);
        ok := UpdateSymlink(p, enabled.value);
      } else {
        ok := Unlink(p, n);
      }
      FrameKeepsState(before, disk, table, parents, kind, {});
    }

    method CommitParent(p: string, names: seq<string>) returns (ok: bool)
      requires Valid() && Tidy() && p in parents && Committable(disk, table, parents, kind)
      requires forall n :: n in names ==> Known(table, n)
      requires forall i, j :: 0 <= i < j < |names| ==> names[i] != names[j]
      modifies this`disk, this`history, this`troubled
      ensures old(troubled) ==> troubled
      ensures ok || troubled || !clean || Obstructed(disk, parents)
      ensures Valid() && (ok ==> Tidy()) && LinkFrame(old(disk), disk) && Committable(disk, table, parents, kind)
      ensures ok ==> SyncedFor(disk, table, p, names) && OnlyLinksOf(old(disk), disk, p, names)
    {
      ghost var before := disk;
      var i := 0;
      assert SyncedFor(disk, table, p, names[..0]);
      while i < |names|
        invariant 0 <= i <= |names|
        invariant (old(troubled) ==> troubled)
        invariant Valid() && Tidy() && LinkFrame(before, disk) && Committable(disk, table, parents, kind)
        invariant SyncedFor(disk, table, p, names[..i]) && OnlyLinksOf(before, disk, p, names)
      {
        ghost var now := disk;
        ok := CommitName(p, names[i]);
        FrameTrans(before, now, disk);
        if !ok {
          return;
        }
        NameSynced(before, now, disk, table, p, names, i);
        i := i + 1;
      }
      assert names[..i] == names;
      ok := true;
    }

    /** The links of one more parent. */
    method CommitNext(names: seq<string>, i: nat) returns (ok: bool)
      requires Valid() && Tidy() && Committable(disk, table, parents, kind) && i < |parents|
      requires forall n :: n in names ==> Known(table, n)
      requires forall i, j :: 0 <= i < j < |names| ==> names[i] != names[j]
      requires forall j :: 0 <= j < i ==> SyncedFor(disk, table, parents[j], names)
      modifies this`disk, this`history, this`troubled
      ensures old(troubled) ==> troubled
      ensures ok || troubled || !clean || Obstructed(disk, parents)
      ensures Valid() && (ok ==> Tidy()) && LinkFrame(old(disk), disk) && Committable(disk, table, parents, kind)
      ensures ok ==> forall j :: 0 <= j < i + 1 ==> SyncedFor(disk, table, parents[j], names)
    {
      ghost var before := disk;
      ok := CommitParent(parents[i], names);
      if ok {
        forall j | 0 <= j < i ensures SyncedFor(disk, table, parents[j], names) {
          OthersStaySynced(before, disk, table, parents[i], parents[j], names);
        }
      }
    }

    method CommitParents(names: seq<string>) returns (ok: bool)
      requires Valid() && Tidy() && Committable(disk, table, parents, kind)
      requires forall n :: n in names ==> Known(table, n)
      requires forall i, j :: 0 <= i < j < |names| ==> names[i] != names[j]
      modifies this`disk, this`history, this`troubled
      ensures old(troubled) ==> troubled
      ensures ok || troubled || !clean || Obstructed(disk, parents)
      ensures Valid() && (ok ==> Tidy()) && LinkFrame(old(disk), disk) && Committable(disk, table, parents, kind)
      ensures ok ==> forall p :: p in parents ==> SyncedFor(disk, table, p, names)
    {
      ghost var before := disk;
      for i := 0 to |parents|
        invariant (old(troubled) ==> troubled)
        invariant Valid() && Tidy() && LinkFrame(before, disk) && Committable(disk, table, parents, kind)
        invariant forall j :: 0 <= j < i ==> SyncedFor(disk, table, parents[j], names)
      {
        ghost var now := disk;
        ok := CommitNext(names, i);
        FrameTrans(before, now, disk);
        if !ok {
          return;
        }
      }
      ok := true;
    }

    /** Makes the links of all parents and names agree with the table; flushing them to the disk may fail. */
    method Commit() returns (ok: bool)
      requires Valid() && Tidy() && Committable(disk, table, parents, kind)
      modifies this`disk, this`history, this`troubled
      ensures old(troubled) ==> troubled
      ensures ok || troubled || !clean || Obstructed(disk, parents)
      ensures Valid() && (ok ==> Tidy()) && LinkFrame(old(disk), disk) && Committable(disk, table, parents, kind)
      ensures ok ==> Synced(disk, table, parents) && Covered(disk, table, parents)
    {
      var names := List(set k | k in table :: k.0);
      assert forall n :: n in names <==> Known(table, n);
      ok := CommitParents(names);
      if ok {
        forall p, n | p in parents && Known(table, n) ensures SyncedAt(disk, table, p, n) {
          assert n in names && SyncedFor(disk, table, p, names);
        }
        SyncedIsCovered(disk, table, parents);
        ok := Attempt();
      }
    }

    // ---- pruning ------------------------------------------------------------------------------------

    /** Removes an entry; a tree, and anything that is no artifact file, can be removed in part. */
    method RemoveTree(q: Path) returns (ok: bool)
      requires Valid() && Tidy() && q in disk && q !in pinned
      requires forall k: Key :: IsDigest(k.1) && FilePath(k) == q ==> Unlinked(disk, parents, k)
      modifies this`disk, this`history, this`troubled
      ensures old(troubled) || !ok ==> troubled
      ensures Valid() && Tidy() && (ok ==> disk == old(disk) - {q})
    {
      ghost var before := disk;
      if disk[q].Data? && (kind.trees || q.0 != "" || ParseFile(q.1) == None) {
        SpoilingKeepsGood(disk, parents, kind, q);
        if clean {
          TidyServes(disk[q := Data(false)], parents, kind);
        }
        Change(disk[q := Data(false)]);
      }
      ok := Attempt();
      if !ok {
        return;
      }
      assert disk - {q} == before - {q};
      RemovalKeepsGood(before, parents, kind, q);
      if clean {
        TidyServes(before - {q}, parents, kind);
      }
      Change(disk - {q});
    }

    method RemoveAll(paths: seq<Path>) returns (ok: bool)
      requires Valid() && Tidy() && forall q :: q in paths ==> q in disk && q !in pinned && !IsArtifactFile(q)
      requires forall i, j :: 0 <= i < j < |paths| ==> paths[i] != paths[j]
      modifies this`disk, this`history, this`troubled
      ensures old(troubled) || !ok ==> troubled
      ensures Valid() && Tidy() && (ok ==> disk == old(disk) - SetOf(paths))
    {
      ghost var before := disk;
      var i := 0;
      while i < |paths|
        invariant 0 <= i <= |paths| && Valid() && Tidy() && (old(troubled) ==> troubled)
        invariant disk == before - SetOf(paths[..i])
      {
        assert paths[i] in paths && paths[i] !in paths[..i];
        assert paths[..i + 1] == paths[..i] + [paths[i]];
        forall k: Key | IsDigest(k.1) ensures FilePath(k) != paths[i] {
          FileIsHidden(k);
        }
        ok := RemoveTree(paths[i]);
        if !ok {
          return;
        }
        assert SetOf(paths[..i + 1]) == SetOf(paths[..i]) + {paths[i]};
        i := i + 1;
      }
      assert paths[..i] == paths;
      ok := true;
    }

    /** Removes what does not belong in one directory. */
    method RemoveJunk(dir: string) returns (ok: bool)
      requires Valid() && Tidy()
      modifies this`disk, this`history, this`troubled
      ensures old(troubled) || !ok ==> troubled
      ensures Valid() && Tidy()
      ensures ok ==> disk == old(disk) - JunkIn(old(disk), HasParentClass(parents), [dir])
    {
      var junk := List(JunkIn(disk, HasParentClass(parents), [dir]));
      ghost var before := disk;
      ok := RemoveAll(junk);
      assert SetOf(junk) == JunkIn(before, HasParentClass(parents), [dir]);
    }

    /** Removes one artifact, unless somebody refers to it or has it open. */
    method PruneArtifact(k: Key, open: set<Key>) returns (ok: bool)
      requires Valid() && Tidy() && k in table && IsDigest(k.1) && FilePath(k) in disk
      requires Doomed(table, open, k) ==> FilePath(k) !in pinned
      requires table[k] == [] ==> Unlinked(disk, parents, k)
      modifies this
      ensures old(troubled) || !ok ==> troubled
      ensures Valid() && Tidy()
      ensures ok ==> disk == old(disk) - FilesIf(k, Doomed(old(table), open, k))
      ensures ok ==> table == old(table) - if Doomed(old(table), open, k) then {k} else {}
    {
      if table[k] != [] || k in open {
        return true;
      }
      OnlyFileOf(k);
      ok := RemoveTree(FilePath(k));
      if ok {
        table := table - {k};
      }
    }

    /** One artifact of the loop. */
    method PruneNext(open: set<Key>, keys: seq<Key>, i: nat, ghost d: Disk, ghost t: Table) returns (ok: bool)
      requires Valid() && Tidy() && Consistent(d, t) && Covered(d, t, parents)
      requires i < |keys| && (forall k :: k in keys <==> k in t)
      requires forall a, b :: 0 <= a < b < |keys| ==> keys[a] != keys[b]
      requires Doomed(t, open, keys[i]) ==> FilePath(keys[i]) !in pinned
      requires disk == d - DoomedFiles(t, open, keys[..i]) && table == t - DoomedKeys(t, open, keys[..i])
      modifies this
      ensures old(troubled) || !ok ==> troubled
      ensures Valid() && Tidy()
      ensures ok ==> disk == d - DoomedFiles(t, open, keys[..i + 1]) && table == t - DoomedKeys(t, open, keys[..i + 1])
    {
      StillDoomed(d, t, parents, open, keys, i);
      ok := PruneArtifact(keys[i], open);
      PruneStep(d, t, open, keys, i);
    }

    /** Removes the artifacts nobody refers to, except those that are open. */
    method PruneArtifacts(open: set<Key>) returns (ok: bool)
      requires Valid() && Tidy() && Consistent(disk, table) && Covered(disk, table, parents)
      requires forall k: Key :: k in table && Doomed(table, open, k) ==> FilePath(k) !in pinned
      modifies this
      ensures old(troubled) || !ok ==> troubled
      ensures Valid() && Tidy()
      ensures ok ==> disk == old(disk) - Unused(old(table), open) && table == PrunedTable(old(table), open)
    {
      ghost var d, t := disk, table;
      var keys := List(table.Keys);
      assert keys[..0] == [];
      for i := 0 to |keys|
        invariant Valid() && Tidy() && (old(troubled) ==> troubled)
        invariant disk == d - DoomedFiles(t, open, keys[..i]) && table == t - DoomedKeys(t, open, keys[..i])
      {
        ok := PruneNext(open, keys, i, d, t);
        if !ok {
          return;
        }
      }
      assert keys[..|keys|] == keys;
      DoomedAll(t, open, keys);
      ok := true;
    }

    method PruneSubdirs() returns (ok: bool)
      requires Valid() && Tidy()
      modifies this`disk, this`history, this`troubled
      ensures old(troubled) || !ok ==> troubled
      ensures Valid() && Tidy()
      ensures ok ==> disk == old(disk) - JunkIn(old(disk), HasParentClass(parents), parents)
    {
      ghost var d, hasParentClass := disk, HasParentClass(parents);
      var i := 0;
      while i < |parents|
        invariant 0 <= i <= |parents| && Valid() && Tidy() && (old(troubled) ==> troubled)
        invariant disk == d - JunkIn(d, hasParentClass, parents[..i])
      {
        ok := RemoveJunk(parents[i]);
        if !ok {
          return;
        }
        JunkMore(d, hasParentClass, parents[..i], parents[i]);
        assert parents[..i + 1] == parents[..i] + [parents[i]];
        i := i + 1;
      }
      assert parents[..i] == parents;
      ok := true;
    }

    /** Removes everything that does not belong in the repository, then the unused artifacts. */
    method Prune(open: set<Key>) returns (ok: bool)
      requires Valid() && Tidy() && Consistent(disk, table) && Covered(disk, table, parents)
      requires forall k: Key :: k in table && Doomed(table, open, k) ==> FilePath(k) !in pinned
      modifies this
      ensures old(troubled) || !ok ==> troubled
      ensures Valid() && Tidy()
      ensures ok ==> disk == old(disk) - Dropped(old(disk), old(table), HasParentClass(parents), open)
      ensures ok ==> table == PrunedTable(old(table), open)
    {
      ghost var d, t := disk, table;
      if "" !in parents {
        ok := PruneSubdirs();
        if !ok {
          return;
        }
      }
      assert disk == d - JunkIn(d, HasParentClass(parents), Subdirs(parents));
      ok := RemoveJunk("");
      if !ok {
        return;
      }
      JunkMore(d, HasParentClass(parents), Subdirs(parents), "");
      WithoutJunk(d, t, parents, kind, open);
      ok := PruneArtifacts(open);
    }

    // ---- installing ---------------------------------------------------------------------------------

    lemma DataServes(d: Disk, d': Disk)
      requires clean ==> NoLeftOvers(d)
      requires Good(d', parents, kind) && (clean ==> forall q :: q in d' && q !in d ==> !EndsWith(q.1, ".tmp-link"))
      ensures clean ==> NoLeftOvers(d') && Serves(d', parents, kind)
    {
      if clean {
        TidyServes(d', parents, kind);
      }
    }

    /** Writes an artifact under a temporary name, and renames it once it is complete; each step may fail. */
    method InstallArtifact(k: Key) returns (ok: bool)
      requires Valid() && Tidy() && Plain(k.0) && IsDigest(k.1) && FilePath(k) !in disk && TmpPath(k) !in disk
      modifies this`disk, this`history, this`troubled
      ensures old(troubled) || !ok ==> troubled
      ensures Valid() && Tidy() && (ok ==> disk == old(disk)[FilePath(k) := Data(true)])
    {
      ghost var before := disk;
      FilesAreNoTmpLinks(k);
      TmpDataKeepsGood(disk, parents, kind, k, false);
      DataServes(disk, disk[TmpPath(k) := Data(false)]);
      Change(disk[TmpPath(k) := Data(false)]);
      ok := Attempt();
      if !ok {
        return;
      }
      TmpDataKeepsGood(disk, parents, kind, k, true);
      DataServes(disk, disk[TmpPath(k) := Data(true)]);
      Change(disk[TmpPath(k) := Data(true)]);
      ok := Attempt();
      if !ok {
        return;
      }
      RenameDataKeepsGood(disk, parents, kind, k);
      DataServes(disk, (disk - {TmpPath(k)})[FilePath(k) := Data(true)]);
      assert (disk - {TmpPath(k)})[FilePath(k) := Data(true)] == before[FilePath(k) := Data(true)];
      Change((disk - {TmpPath(k)})[FilePath(k) := Data(true)]);
      ok := Attempt();
    }
  }

  /** The directories of the parents, if there are any. */
  function Subdirs(parents: seq<string>): seq<string> {
    if HasParentClass(parents) then parents else []
  }

  /** What does not belong in some of the directories. */
  function JunkIn(d: Disk, hasParentClass: bool, dirs: seq<string>): set<Path> {
    set q | q in d && q.0 in dirs && IsJunk(d, hasParentClass, q)
  }

  /** Removing the junk of one more directory. */
  lemma JunkMore(d: Disk, hasParentClass: bool, dirs: seq<string>, dir: string)
    ensures var d' := d - JunkIn(d, hasParentClass, dirs);
            d' - JunkIn(d', hasParentClass, [dir]) == d - JunkIn(d, hasParentClass, dirs + [dir])
  {
  }

  lemma NoJunkIsKept(d: Disk, t: Table, parents: seq<string>, kind: Kind, open: set<Key>, q: Path)
    requires Good(d, parents, kind) && Consistent(d, t) && q in d && (HasParentClass(parents) || parents == [""])
    ensures q in JunkIn(d, HasParentClass(parents), Subdirs(parents) + [""]) || q in Unused(t, open) <==>
            q in Dropped(d, t, HasParentClass(parents), open)
    ensures IsArtifactFile(q) ==> q !in JunkIn(d, HasParentClass(parents), Subdirs(parents) + [""])
  {
    assert EntryOk(d, parents, kind, q);
    if IsArtifactFile(q) {
      var k := ParseFile(q.1).value;
      ParseFileIff(q.1, k.0, k.1);
      assert FilePath(k) == q && Listed(d, k);
      OnlyFileOf(k);
      assert q in Unused(t, open) <==> Doomed(t, open, k) by {
        if q in Unused(t, open) {
          var x :| x in t && Doomed(t, open, x) && q == FilePath(x);
          assert Listed(d, x);
        }
      }
    } else if q in Unused(t, open) {
      var x :| x in t && Doomed(t, open, x) && q == FilePath(x);
      assert Listed(d, x);
      FileIsHidden(x);
      assert false;
    }
  }

  lemma WithoutJunk(d: Disk, t: Table, parents: seq<string>, kind: Kind, open: set<Key>)
    requires Good(d, parents, kind) && Consistent(d, t) && Covered(d, t, parents)
    requires "" in parents ==> parents == [""]
    ensures var d' := d - JunkIn(d, HasParentClass(parents), Subdirs(parents) + [""]);
            && Consistent(d', t) && Covered(d', t, parents)
            && d' - Unused(t, open) == d - Dropped(d, t, HasParentClass(parents), open)
  {
    var junk := JunkIn(d, HasParentClass(parents), Subdirs(parents) + [""]);
    forall q | q in d
      ensures (q in junk || q in Unused(t, open) <==> q in Dropped(d, t, HasParentClass(parents), open))
        && (IsArtifactFile(q) ==> q !in junk)
    {
      NoJunkIsKept(d, t, parents, kind, open, q);
    }
    forall k: Key ensures k in t <==> Listed(d - junk, k) {
      if Listed(d, k) {
        FileIsHidden(k);
      }
    }
    forall k: Key | k in t && !Unlinked(d - junk, parents, k) ensures t[k] != [] {
      assert !Unlinked(d, parents, k);
    }
  }

  function FilesIf(k: Key, doomed: bool): set<Path> { if doomed then {FilePath(k)} else {} }

  /** The state in front of the next artifact. */
  lemma StillDoomed(d: Disk, t: Table, parents: seq<string>, open: set<Key>, keys: seq<Key>, i: nat)
    requires Consistent(d, t) && Covered(d, t, parents)
    requires i < |keys| && forall k :: k in keys <==> k in t
    requires forall a, b :: 0 <= a < b < |keys| ==> keys[a] != keys[b]
    ensures var k := keys[i];
            var d' := d - DoomedFiles(t, open, keys[..i]);
            var t' := t - DoomedKeys(t, open, keys[..i]);
            && k in t' && t'[k] == t[k] && IsDigest(k.1) && FilePath(k) in d'
            && (t'[k] == [] ==> Unlinked(d', parents, k))
            && (Doomed(t', open, k) <==> Doomed(t, open, k))
  {
    Undoomed(t, open, keys, i);
    FileStillThere(d, t, keys[..i], open, keys[i]);
    if t[keys[i]] == [] {
      UnlinkedStays(d, d - DoomedFiles(t, open, keys[..i]), parents, keys[i]);
    }
  }

  lemma PruneStep(d: Disk, t: Table, open: set<Key>, keys: seq<Key>, i: nat)
    requires i < |keys|
    ensures var doomed := Doomed(t, open, keys[i]);
            && (d - DoomedFiles(t, open, keys[..i])) - FilesIf(keys[i], doomed) ==
                d - DoomedFiles(t, open, keys[..i + 1])
            && (t - DoomedKeys(t, open, keys[..i])) - (if doomed then {keys[i]} else {}) ==
                t - DoomedKeys(t, open, keys[..i + 1])
  {
    assert keys[..i + 1] == keys[..i] + [keys[i]];
    DoomedSnoc(t, open, keys[..i], keys[i]);
  }

  /** What is not visited yet is still known. */
  lemma Undoomed(t: Table, open: set<Key>, keys: seq<Key>, i: nat)
    requires i < |keys| && forall k :: k in keys <==> k in t
    requires forall a, b :: 0 <= a < b < |keys| ==> keys[a] != keys[b]
    ensures keys[i] in t && keys[i] !in keys[..i] && keys[i] in t - DoomedKeys(t, open, keys[..i])
    ensures forall x :: x in keys[..i] ==> x in t
  {
    assert keys[i] in keys;
    forall x | x in keys[..i] ensures x in t {
      assert x in keys;
    }
  }

  /** Nobody refers to the artifact and nobody has it open. */
  predicate Doomed(t: Table, open: set<Key>, k: Key) { k in t && t[k] == [] && !(k in open) }

  function Unused(t: Table, open: set<Key>): set<Path> {
    set k | k in t && Doomed(t, open, k) :: FilePath(k)
  }

  function DoomedKeys(t: Table, open: set<Key>, keys: seq<Key>): set<Key> {
    set k | k in keys && Doomed(t, open, k)
  }

  function DoomedFiles(t: Table, open: set<Key>, keys: seq<Key>): set<Path> {
    set k | k in keys && Doomed(t, open, k) :: FilePath(k)
  }

  lemma DoomedSnoc(t: Table, open: set<Key>, keys: seq<Key>, k: Key)
    ensures DoomedKeys(t, open, keys + [k]) == DoomedKeys(t, open, keys) + if Doomed(t, open, k) then {k} else {}
    ensures DoomedFiles(t, open, keys + [k]) == DoomedFiles(t, open, keys) + if Doomed(t, open, k) then {FilePath(k)} else {}
  {
    var files := DoomedFiles(t, open, keys + [k]);
    forall q | q in files ensures q in DoomedFiles(t, open, keys) + if Doomed(t, open, k) then {FilePath(k)} else {} {
      var x :| x in keys + [k] && Doomed(t, open, x) && q == FilePath(x);
      assert x in keys || x == k;
    }
    forall q | q in DoomedFiles(t, open, keys) ensures q in files {
      var x :| x in keys && Doomed(t, open, x) && q == FilePath(x);
      assert x in keys + [k];
    }
    if Doomed(t, open, k) {
      assert k in keys + [k];
    }
  }

  lemma DoomedAll(t: Table, open: set<Key>, keys: seq<Key>)
    requires forall k :: k in keys <==> k in t
    ensures DoomedFiles(t, open, keys) == Unused(t, open)
    ensures t - DoomedKeys(t, open, keys) == PrunedTable(t, open)
  {
  }

  function SetOf(paths: seq<Path>): set<Path> { set q | q in paths }

  predicate IsArtifactFile(q: Path) { q.0 == "" && ParseFile(q.1).Some? }

  /** What does not belong in a directory: anything but links in it, artifact files aside. */
  predicate IsJunk(d: Disk, hasParentClass: bool, q: Path)
    requires q in d
  {
    if q.0 != "" then !d[q].Link? else ParseFile(q.1).None? && (hasParentClass || !d[q].Link?)
  }

  lemma OnlyFileOf(k: Key)
    requires IsDigest(k.1)
    ensures forall x: Key :: IsDigest(x.1) && FilePath(x) == FilePath(k) ==> x == k
  {
    forall x: Key | IsDigest(x.1) && FilePath(x) == FilePath(k) ensures x == k {
      FileNameIsInjective(x.0, x.1, k.0, k.1);
    }
  }

  lemma FileStillThere(d: Disk, t: Table, gone: seq<Key>, open: set<Key>, k: Key)
    requires Consistent(d, t) && k in t && k !in gone && forall x :: x in gone ==> x in t
    ensures FilePath(k) in d - DoomedFiles(t, open, gone)
    ensures IsDigest(k.1)
  {
    assert Listed(d, k);
    forall x | x in gone ensures FilePath(x) != FilePath(k) {
      assert Listed(d, x);
      OnlyFileOf(k);
    }
  }

  lemma UnlinkedStays(d: Disk, d': Disk, parents: seq<string>, k: Key)
    requires Unlinked(d, parents, k) && forall q :: q in d' ==> q in d && d'[q] == d[q]
    ensures Unlinked(d', parents, k)
  {
  }

  ghost predicate OnlyLinksOf(d: Disk, d': Disk, p: string, names: seq<string>) {
    forall q: Path :: !(q.0 == p && q.1 in names) ==> (q in d <==> q in d') && (q in d ==> d'[q] == d[q])
  }

  lemma FilesAreNoTmpLinks(k: Key)
    requires IsDigest(k.1)
    ensures !EndsWith(FilePath(k).1, ".tmp-link") && !EndsWith(TmpPath(k).1, ".tmp-link")
  {
    var x, y := FilePath(k).1, TmpPath(k).1;
    assert x[|x| - 1] == k.1[|k.1| - 1] && y[|y| - 1] == 'p';
  }

  lemma NotTmpLink(n: string)
    requires Plain(n)
    ensures !EndsWith(n, ".tmp-link") && EndsWith(n + ".tmp-link", ".tmp-link")
  {
    var x := n + ".tmp-link";
    assert x[|x| - 9..] == ".tmp-link";
  }

  lemma {:induction false} CopiesSnoc(p: string, n: nat)
    ensures Copies(p, n + 1) == Copies(p, n) + [p]
  {
    if n > 0 {
      CopiesSnoc(p, n - 1);
    }
  }

  /** A reference for each entry that is one of the links. */
  function Found(p: string, links: set<Path>, entries: seq<Path>): seq<string> {
    if entries == [] then []
    else
      Found(p, links, entries[..|entries| - 1]) + if entries[|entries| - 1] in links then [p] else []
  }

  lemma FoundOne(before: seq<string>, now: seq<string>, next: seq<string>, p: string, links: set<Path>,
                 entries: seq<Path>, i: nat)
    requires i < |entries| && now == before + Found(p, links, entries[..i])
    requires next == now + if entries[i] in links then [p] else []
    ensures next == before + Found(p, links, entries[..i + 1])
  {
    assert entries[..i + 1][..i] == entries[..i];
  }

  /** Each link is found once. */
  lemma {:induction false} FoundAll(p: string, links: set<Path>, entries: seq<Path>)
    requires forall i, j :: 0 <= i < j < |entries| ==> entries[i] != entries[j]
    requires forall q :: q in links ==> q in entries
    ensures Found(p, links, entries) == Copies(p, |links|)
    decreases |entries|
  {
    if entries == [] {
      assert links == {};
    } else {
      var front, last := entries[..|entries| - 1], entries[|entries| - 1];
      AllButLast(links, entries);
      FoundAll(p, links - {last}, front);
      FoundWithout(p, links, last, front);
      if last in links {
        CopiesSnoc(p, |links| - 1);
      } else {
        assert links - {last} == links;
      }
    }
  }

  lemma AllButLast<T>(links: set<T>, entries: seq<T>)
    requires entries != [] && forall q :: q in links ==> q in entries
    requires forall i, j :: 0 <= i < j < |entries| ==> entries[i] != entries[j]
    ensures var front, last := entries[..|entries| - 1], entries[|entries| - 1];
            last !in front && forall q :: q in links - {last} ==> q in front
  {
    assert entries == entries[..|entries| - 1] + [entries[|entries| - 1]];
  }

  lemma {:induction false} FoundWithout(p: string, links: set<Path>, q: Path, entries: seq<Path>)
    requires q !in entries
    ensures Found(p, links - {q}, entries) == Found(p, links, entries)
    decreases |entries|
  {
    if entries != [] {
      FoundWithout(p, links, q, entries[..|entries| - 1]);
      assert entries[|entries| - 1] in entries;
    }
  }
}
