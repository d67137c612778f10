/**
 The artifact part of an installation: reading the repository, pruning it, one plan for
 each artifact of the manifest, and pruning it again.
 */
module ArtifactInstall {
  import opened ArtifactNames
  import opened ArtifactRefs
  import opened ArtifactDisk
  import opened ArtifactState
  import opened Artifacts

  /** Between plans: table and directory belong together, and nothing is half done of what is wanted. */
  ghost predicate Ready(d: Disk, t: Table, kind: Kind, wanted: set<Key>) {
    Committable(d, t, [""], kind) && NoTmp(d) && Solid(d, t, kind, wanted) && !Obstructed(d, [""])
  }

  /** Artifacts that the manifest does not have lose their references. */
  function WithoutOld(t: Table, names: set<string>): Table {
    map k | k in t :: if k.0 in names then t[k] else []
  }

  /** Dropping references, or adding the one that a wanted artifact can have, keeps what is between plans. */
  lemma OtherRefsAreReady(d: Disk, t: Table, t': Table, kind: Kind, wanted: set<Key>)
    requires Ready(d, t, kind, wanted) && t'.Keys == t.Keys
    requires forall k, p :: k in t' && p in t'[k] ==> p in t[k] || (p == "" && k in wanted)
    ensures Ready(d, t', kind, wanted)
  {
    forall k: Key, p | k in t' && p in t'[k] ensures p in [""] && (Usable(d, kind, k) || Blocked(d, p, k.0)) {
      assert p in t[k] ==> p in [""];
    }
    forall k: Key ensures k in t' <==> Listed(d, k) {
      assert k in t <==> Listed(d, k);
    }
  }

  lemma WithoutOldIsReady(d: Disk, t: Table, kind: Kind, wanted: set<Key>, names: set<string>)
    requires Ready(d, t, kind, wanted)
    ensures Ready(d, WithoutOld(t, names), kind, wanted)
  {
    OtherRefsAreReady(d, t, WithoutOld(t, names), kind, wanted);
  }

  lemma FrameKeepsReady(d: Disk, d': Disk, t: Table, kind: Kind, wanted: set<Key>)
    requires Ready(d, t, kind, wanted) && LinkFrame(d, d')
    ensures Ready(d', t, kind, wanted)
  {
    FrameKeepsState(d, d', t, [""], kind, wanted);
  }

  /** A new artifact, once it is written. */
  lemma InstalledKeeps(d: Disk, t: Table, kind: Kind, wanted: set<Key>, k: Key)
    requires Ready(d, t, kind, wanted) && IsDigest(k.1) && k !in t
    ensures FilePath(k) !in d && TmpPath(k) !in d
    ensures Ready(d[FilePath(k) := Data(true)], t[k := []], kind, wanted)
  {
    var d' := d[FilePath(k) := Data(true)];
    var t' := t[k := []];
    assert !Listed(d, k);
    FileIsHidden(k);
    forall x: Key ensures x in t' <==> Listed(d', x) {
      if IsDigest(x.1) && FilePath(x) == FilePath(k) {
        OnlyFileOf(k);
      }
    }
    forall x: Key ensures Usable(d, kind, x) ==> Usable(d', kind, x) {
    }
    forall p, n | Blocked(d, p, n) ensures Blocked(d', p, n) {
      assert TmpLink(p, n) != FilePath(k);
    }
    forall x: Key ensures TmpPath(x) !in d' {
      TmpIsHidden(x);
    }
  }

  lemma ActivatedIsReady(d: Disk, t: Table, kind: Kind, wanted: set<Key>, k: Key)
    requires Ready(d, t, kind, wanted) && k in t && k in wanted
    ensures Ready(d, Activated(t, k, ""), kind, wanted)
  {
    var t' := Activated(t, k, "");
    forall x: Key, p | x in t' && p in t'[x] ensures p in t[x] || (p == "" && x in wanted) {
      ActivatedCount(t, k, "", x, p);
      CountIsPositive(t'[x], p);
      CountIsPositive(t[x], p);
    }
    OtherRefsAreReady(d, t, t', kind, wanted);
  }

  /** Neither temporary links nor artifact files are lost or changed, and new artifact files are complete. */
  ghost predicate PlanFrame(d: Disk, d': Disk) {
    && (forall q: Path :: q in d && EndsWith(q.1, ".tmp-link") ==> q in d' && d'[q] == d[q])
    && (forall k: Key :: FilePath(k) in d ==> FilePath(k) in d' && d'[FilePath(k)] == d[FilePath(k)])
    && (forall k: Key :: FilePath(k) in d' && FilePath(k) !in d ==> d'[FilePath(k)] == Data(true))
  }

  lemma LinkFrameIsPlanFrame(d: Disk, d': Disk)
    requires LinkFrame(d, d')
    ensures PlanFrame(d, d')
  {
    forall k: Key
      ensures FilePath(k) in d <==> FilePath(k) in d'
      ensures FilePath(k) in d ==> d'[FilePath(k)] == d[FilePath(k)]
    {
      FrameKeepsFile(d, d', k);
    }
  }

  lemma PlanFrameTrans(a: Disk, b: Disk, c: Disk)
    requires PlanFrame(a, b) && PlanFrame(b, c)
    ensures PlanFrame(a, c)
  {
  }

  method CommitTable(repo: ArtifactRepo, ghost wanted: set<Key>) returns (ok: bool)
    requires repo.Valid() && repo.Tidy() && repo.parents == [""] && Ready(repo.disk, repo.table, repo.kind, wanted)
    modifies repo`disk, repo`history, repo`troubled
    ensures old(repo.troubled) ==> repo.troubled
    ensures ok || repo.troubled || !repo.clean
    ensures repo.Valid() && (ok ==> repo.Tidy()) && Ready(repo.disk, repo.table, repo.kind, wanted)
    ensures PlanFrame(old(repo.disk), repo.disk)
    ensures ok ==> Synced(repo.disk, repo.table, [""]) && Covered(repo.disk, repo.table, [""])
  {
    ghost var d := repo.disk;
    ok := repo.Commit();
    FrameKeepsReady(d, repo.disk, repo.table, repo.kind, wanted);
    LinkFrameIsPlanFrame(d, repo.disk);
  }

  /** Step one of a plan: dropping what the manifest does not have. */
  method RemoveOldArtifacts(repo: ArtifactRepo, names: set<string>, ghost wanted: set<Key>) returns (ok: bool)
    requires repo.Valid() && repo.Tidy() && repo.parents == [""] && Ready(repo.disk, repo.table, repo.kind, wanted)
    modifies repo
    ensures old(repo.troubled) ==> repo.troubled
    ensures ok || repo.troubled || !repo.clean
    ensures repo.Valid() && (ok ==> repo.Tidy()) && Ready(repo.disk, repo.table, repo.kind, wanted)
    ensures repo.table == WithoutOld(old(repo.table), names) && PlanFrame(old(repo.disk), repo.disk)
    ensures ok ==> Synced(repo.disk, repo.table, [""])
  {
    WithoutOldIsReady(repo.disk, repo.table, repo.kind, wanted, names);
    repo.SetTable(WithoutOld(repo.table, names));
    ok := CommitTable(repo, wanted);
  }

  /** Step two: finding the artifact, or adding and writing it. */
  method FindOrInstall(repo: ArtifactRepo, k: Key, ghost wanted: set<Key>) returns (ok: bool)
    requires repo.Valid() && repo.Tidy() && repo.parents == [""] && Ready(repo.disk, repo.table, repo.kind, wanted)
    requires Plain(k.0) && IsDigest(k.1)
    modifies repo
    ensures old(repo.troubled) ==> repo.troubled
    ensures ok || repo.troubled || !repo.clean
    ensures repo.Valid() && repo.Tidy()
    ensures ok ==> Ready(repo.disk, repo.table, repo.kind, wanted) && PlanFrame(old(repo.disk), repo.disk)
    ensures ok ==> repo.table == WithArtifact(old(repo.table), k)
  {
    if k in repo.table {
      return true;
    }
    InstalledKeeps(repo.disk, repo.table, repo.kind, wanted, k);
    repo.SetTable(repo.table[k := []]);
    ok := repo.InstallArtifact(k);
  }

  /** Step three: activating it. */
  method ActivateAndCommit(repo: ArtifactRepo, k: Key, ghost wanted: set<Key>) returns (ok: bool)
    requires repo.Valid() && repo.Tidy() && repo.parents == [""] && Ready(repo.disk, repo.table, repo.kind, wanted)
    requires k in repo.table && k in wanted
    modifies repo
    ensures old(repo.troubled) ==> repo.troubled
    ensures ok || repo.troubled || !repo.clean
    ensures repo.Valid() && (ok ==> repo.Tidy()) && Ready(repo.disk, repo.table, repo.kind, wanted)
    ensures repo.table == Activated(old(repo.table), k, "") && PlanFrame(old(repo.disk), repo.disk)
    ensures ok ==> Synced(repo.disk, repo.table, [""]) && Covered(repo.disk, repo.table, [""])
  {
    ActivatedIsReady(repo.disk, repo.table, repo.kind, wanted, k);
    repo.SetTable(Activated(repo.table, k, ""));
    ok := CommitTable(repo, wanted);
  }

  function WithArtifact(t: Table, k: Key): Table { if k in t then t else t[k := []] }

  /** What a plan makes of the table. */
  function Planned(t: Table, names: set<string>, k: Key): Table {
    Activated(WithArtifact(WithoutOld(t, names), k), k, "")
  }

  /** The plan for one artifact of the manifest. */
  method HandlePlan(repo: ArtifactRepo, names: set<string>, k: Key, ghost wanted: set<Key>) returns (ok: bool)
    requires repo.Valid() && repo.Tidy() && repo.parents == [""] && Ready(repo.disk, repo.table, repo.kind, wanted)
    requires Plain(k.0) && IsDigest(k.1) && k.0 in names && k in wanted
    modifies repo
    ensures old(repo.troubled) ==> repo.troubled
    ensures ok || repo.troubled || !repo.clean
    ensures repo.Valid() && (ok ==> repo.Tidy() && PlanFrame(old(repo.disk), repo.disk))
    ensures ok ==> Ready(repo.disk, repo.table, repo.kind, wanted)
    ensures ok ==> Synced(repo.disk, repo.table, [""]) && Covered(repo.disk, repo.table, [""])
    ensures ok ==> repo.table == Planned(old(repo.table), names, k)
  {
    ok := RemoveOldArtifacts(repo, names, wanted);
    if !ok {
      return;
    }
    ghost var d1 := repo.disk;
    ok := FindOrInstall(repo, k, wanted);
    if !ok {
      return;
    }
    ghost var d2 := repo.disk;
    ok := ActivateAndCommit(repo, k, wanted);
    PlanFrameTrans(old(repo.disk), d1, d2);
    PlanFrameTrans(old(repo.disk), d2, repo.disk);
  }

  // ---- a whole run --------------------------------------------------------------------------------

  /** The planned artifacts that have lost part of their data, and stay because somebody has them open. */
  function SpoiledBy(d: Disk, plans: seq<Key>, open: set<Key>): set<Key> {
    set k | k in plans && k in open && Listed(d, k) && !Complete(d, k)
  }

  function SetOfKeys(plans: seq<Key>): set<Key> { set k | k in plans }

  lemma PruningClears(d: Disk, t: Table, open: set<Key>)
    ensures !Obstructed(d - Dropped(d, t, HasParentClass([""]), open), [""])
  {
    forall q | q in d && q.0 == "" && !Hidden(q.1) && d[q].Data? ensures !Kept(d, t, false, open, q) {
      if ParseFile(q.1).Some? {
        var k := ParseFile(q.1).value;
        ParseFileIff(q.1, k.0, k.1);
        FileNamesAreHidden(k.0, k.1);
      }
    }
  }

  /** After reading and pruning, what is planned and known is usable or blocked, and no download is left. */
  lemma PrunedIsReady(d: Disk, t: Table, kind: Kind, plans: seq<Key>, open: set<Key>)
    requires Good(d, [""], kind) && Consistent(d, t) && Backed(d, t, [""], kind) && Covered(d, t, [""])
    requires SpoiledBy(d, plans, open) <= kind.spoiled
    ensures var d' := d - Dropped(d, t, HasParentClass([""]), open);
            Ready(d', PrunedTable(t, open), kind, SetOfKeys(plans)) && Covered(d', PrunedTable(t, open), [""])
  {
    var d' := d - Dropped(d, t, HasParentClass([""]), open);
    var t' := PrunedTable(t, open);
    PruningClears(d, t, open);
    PruneKeepsState(d, t, [""], kind, open);
    forall k: Key ensures TmpPath(k) !in d' {
      PruneRemovesTmp(d, t, [""], kind, open, k);
    }
    forall k: Key | k in t' && k in SetOfKeys(plans) ensures Usable(d', kind, k) || Blocked(d', "", k.0) {
      assert Listed(d', k);
      if t'[k] == [] {
        assert k in open;
        assert Complete(d, k) || k in SpoiledBy(d, plans, open);
      } else {
        var p := t'[k][0];
        assert p in t'[k];
        assert p in [""];
      }
    }
  }

  lemma ReadIsUnique(d: Disk, t: Table, kind: Kind)
    requires Good(d, [""], kind) && ReadFrom(d, t, [""]) && NoLeftOvers(d)
    ensures NoDuplicates(t) && OnePerName(t)
  {
    forall k: Key, p | k in t
      ensures Count(t[k], p) <= 1 && (p in t[k] ==> p == "" && LinkedBy(d, "", k))
    {
      KnownArePlain(d, t, [""], kind, k);
      CountOfRefs(d, [""], k, p);
      CountIsPositive(t[k], p);
      LinksToAre(d, [""], kind, "", k);
      NotTmpLink(k.0);
    }
    forall x: Key, y: Key | x in t && y in t && x.0 == y.0 && x != y ensures forall p :: p in t[x] ==> p !in t[y] {
      KnownArePlain(d, t, [""], kind, x);
      if LinkedBy(d, "", x) && LinkedBy(d, "", y) {
        SameTarget("", x, y);
      }
    }
  }

  lemma WithoutOldIsUnique(t: Table, names: set<string>, k: Key)
    requires NoDuplicates(t) && OnePerName(t)
    ensures NoDuplicates(WithArtifact(WithoutOld(t, names), k)) && OnePerName(WithArtifact(WithoutOld(t, names), k))
  {
    var t' := WithArtifact(WithoutOld(t, names), k);
    forall x: Key, p | x in t' ensures Count(t'[x], p) <= 1 {
    }
  }

  /** A plan activates its artifact, and takes nothing from other names of the manifest. */
  lemma PlannedMeaning(t: Table, names: set<string>, k: Key)
    requires NoDuplicates(t) && OnePerName(t)
    ensures NoDuplicates(Planned(t, names, k)) && OnePerName(Planned(t, names, k))
    ensures ActiveFor(Planned(t, names, k), "", k)
    ensures forall x: Key :: x.0 in names && x.0 != k.0 && ActiveFor(t, "", x) ==>
              ActiveFor(Planned(t, names, k), "", x)
    ensures forall x: Key :: x.0 !in names && x.0 != k.0 ==> !ActiveFor(Planned(t, names, k), "", x)
  {
    WithoutOldIsUnique(t, names, k);
    var t' := WithArtifact(WithoutOld(t, names), k);
    ActivatedKeeps(t', k, "");
  }

  /** The last planned artifact of its name; a manifest can have several variants of one. */
  predicate Prevails(plans: seq<Key>, k: Key) {
    exists i :: 0 <= i < |plans| && plans[i] == k && forall j :: i < j < |plans| ==> plans[j].0 != k.0
  }

  lemma PrevailsSnoc(front: seq<Key>, last: Key, k: Key)
    ensures Prevails(front + [last], k) <==> k == last || (k.0 != last.0 && Prevails(front, k))
  {
    var all := front + [last];
    assert all[|front|] == last;
    if k != last && k.0 != last.0 && Prevails(front, k) {
      var i :| 0 <= i < |front| && front[i] == k && forall j :: i < j < |front| ==> front[j].0 != k.0;
      assert all[i] == k;
    }
    if k != last && Prevails(all, k) {
      var i :| 0 <= i < |all| && all[i] == k && forall j :: i < j < |all| ==> all[j].0 != k.0;
      assert front[i] == k;
      assert all[|front|].0 != k.0;
      forall j | i < j < |front| ensures front[j].0 != k.0 {
        assert all[j] == front[j];
      }
    }
  }

  /** Every planned name has one that prevails. */
  lemma {:induction false} OnePrevails(plans: seq<Key>, k: Key) returns (x: Key)
    requires k in plans
    ensures x.0 == k.0 && Prevails(plans, x) && x in plans
    decreases |plans|
  {
    var front, last := plans[..|plans| - 1], plans[|plans| - 1];
    assert plans == front + [last];
    if last.0 == k.0 {
      x := last;
    } else {
      x := OnePrevails(front, k);
    }
    PrevailsSnoc(front, last, x);
  }

  /** The planned artifacts that prevail are active. */
  ghost predicate AllActive(t: Table, plans: seq<Key>) {
    forall k :: Prevails(plans, k) ==> ActiveFor(t, "", k)
  }

  ghost predicate Unique(t: Table) { NoDuplicates(t) && OnePerName(t) }

  lemma MoreActive(t: Table, names: set<string>, front: seq<Key>, last: Key)
    requires Unique(t) && AllActive(t, front) && forall x :: x in front ==> x.0 in names
    ensures Unique(Planned(t, names, last)) && AllActive(Planned(t, names, last), front + [last])
  {
    PlannedMeaning(t, names, last);
    forall k | Prevails(front + [last], k) ensures ActiveFor(Planned(t, names, last), "", k) {
      PrevailsSnoc(front, last, k);
      if k != last {
        assert k in front;
      }
    }
  }

  /** What is active is linked and complete, and stays so when pruning. */
  lemma ActiveIsServed(d: Disk, t: Table, kind: Kind, open: set<Key>, k: Key)
    requires Good(d, [""], kind) && Consistent(d, t) && Synced(d, t, [""]) && OnePerName(t) && ActiveFor(t, "", k)
    ensures var d' := d - Dropped(d, t, HasParentClass([""]), open);
            && LinkedBy(d', "", k) && Usable(d', kind, k)
            && FilePath(k) in d && d'[FilePath(k)] == d[FilePath(k)]
  {
    var d' := d - Dropped(d, t, HasParentClass([""]), open);
    KnownArePlain(d, t, [""], kind, k);
    LinkedIffActive(d, t, [""], kind, "", k);
    PruneIsExact(d, t, HasParentClass([""]), open, k);
    LinkedIsComplete(d, [""], kind, "", k);
    TmpLinkIsPublic(k.0);
  }

  function NamesOf(plans: seq<Key>): set<string> {
    set k | k in plans :: k.0
  }

  /** What all plans make of the table. */
  function PlannedAll(t: Table, names: set<string>, plans: seq<Key>): Table {
    if plans == [] then t
    else Planned(PlannedAll(t, names, plans[..|plans| - 1]), names, plans[|plans| - 1])
  }

  lemma PlannedMore(t: Table, names: set<string>, plans: seq<Key>, i: nat)
    requires i < |plans|
    ensures PlannedAll(t, names, plans[..i + 1]) == Planned(PlannedAll(t, names, plans[..i]), names, plans[i])
  {
    assert plans[..i + 1][..i] == plans[..i];
  }

  /** The plans for other artifacts of the same name. */
  function Others(plans: seq<Key>, k: Key): nat {
    if plans == [] then 0
    else
      var last := plans[|plans| - 1];
      Others(plans[..|plans| - 1], k) + if last.0 == k.0 && last != k then 1 else 0
  }

  function Most(a: int, b: nat): nat { if a > b then a else b }

  /** How often an artifact is referred to after the plans. */
  function RefsAfter(c: nat, plans: seq<Key>, names: set<string>, k: Key): nat {
    if plans == [] then c
    else if k.0 !in names then 0
    else Most(c - Others(plans, k), if Prevails(plans, k) then 1 else 0)
  }

  /** What one plan does to the references of an artifact. */
  lemma CountAfterPlan(t: Table, names: set<string>, last: Key, k: Key)
    requires k in t && last.0 in names
    ensures k in Planned(t, names, last)
    ensures var c := Count(t[k], "");
            Count(Planned(t, names, last)[k], "") ==
              if k.0 !in names then 0
              else if k == last then (if c == 0 then 1 else c)
              else if k.0 == last.0 then (if c == 0 then 0 else c - 1)
              else c
  {
    var t' := WithArtifact(WithoutOld(t, names), last);
    ActivatedCount(t', last, "", k, "");
    CountIsPositive(t'[k], "");
  }

  lemma RefsAfterSnoc(c: nat, front: seq<Key>, last: Key, names: set<string>, k: Key)
    ensures RefsAfter(c, front + [last], names, k) ==
              var r := RefsAfter(c, front, names, k);
              if k.0 !in names then 0
              else if k == last then (if r == 0 then 1 else r)
              else if k.0 == last.0 then (if r == 0 then 0 else r - 1)
              else r
  {
    var all := front + [last];
    assert all[..|all| - 1] == front && all[|all| - 1] == last;
    PrevailsSnoc(front, last, k);
    if front == [] {
      assert Others(front, k) == 0 && !Prevails(front, k);
    }
  }

  /**
   An artifact whose name the manifest lacks loses all references. Any other loses one for
   each plan of another artifact of its name, and has at least one if it prevails.
   */
  lemma {:induction false} CountAfterPlans(t: Table, names: set<string>, plans: seq<Key>, k: Key)
    requires k in t && forall x :: x in plans ==> x.0 in names
    ensures k in PlannedAll(t, names, plans)
    ensures Count(PlannedAll(t, names, plans)[k], "") == RefsAfter(Count(t[k], ""), plans, names, k)
    decreases |plans|
  {
    if plans != [] {
      var front, last := plans[..|plans| - 1], plans[|plans| - 1];
      assert plans == front + [last];
      CountAfterPlans(t, names, front, k);
      CountAfterPlan(PlannedAll(t, names, front), names, last, k);
      RefsAfterSnoc(Count(t[k], ""), front, last, names, k);
    }
  }

  /** After all plans exactly those planned artifacts are active that prevail. */
  lemma {:induction false} UniqueAfterPlans(t: Table, names: set<string>, plans: seq<Key>)
    requires Unique(t) && forall x :: x in plans ==> x.0 in names
    ensures Unique(PlannedAll(t, names, plans)) && AllActive(PlannedAll(t, names, plans), plans)
    ensures forall k :: k in plans ==> (ActiveFor(PlannedAll(t, names, plans), "", k) <==> Prevails(plans, k))
    decreases |plans|
  {
    if plans != [] {
      var front, last := plans[..|plans| - 1], plans[|plans| - 1];
      assert plans == front + [last];
      UniqueAfterPlans(t, names, front);
      MoreActive(PlannedAll(t, names, front), names, front, last);
      OnlyPrevailing(PlannedAll(t, names, plans), plans);
    }
  }

  lemma OnlyPrevailing(t: Table, plans: seq<Key>)
    requires OnePerName(t) && AllActive(t, plans)
    ensures forall k :: k in plans ==> (ActiveFor(t, "", k) <==> Prevails(plans, k))
  {
    forall k | k in plans && ActiveFor(t, "", k) ensures Prevails(plans, k) {
      var x := OnePrevails(plans, k);
      assert ActiveFor(t, "", x);
    }
  }

  /** The state of the repository in front of the plan with number i. */
  ghost predicate InFrontOf(d0: Disk, t0: Table, plans: seq<Key>, i: nat, d: Disk, t: Table, kind: Kind)
    requires i <= |plans|
  {
    && Ready(d, t, kind, SetOfKeys(plans)) && Covered(d, t, [""]) && (i > 0 ==> Synced(d, t, [""]))
    && PlanFrame(d0, d) && t == PlannedAll(t0, NamesOf(plans), plans[..i])
  }

  /** One plan of the loop. */
  method HandleNext(repo: ArtifactRepo, plans: seq<Key>, i: nat, ghost d0: Disk, ghost t0: Table)
    returns (ok: bool)
    requires repo.Valid() && repo.Tidy() && repo.parents == [""]
    requires i < |plans| && forall k :: k in plans ==> Plain(k.0) && IsDigest(k.1)
    requires InFrontOf(d0, t0, plans, i, repo.disk, repo.table, repo.kind)
    modifies repo
    ensures old(repo.troubled) ==> repo.troubled
    ensures ok || repo.troubled || !repo.clean
    ensures repo.Valid() && (ok ==> repo.Tidy())
    ensures ok ==> InFrontOf(d0, t0, plans, i + 1, repo.disk, repo.table, repo.kind)
  {
    PlannedMore(t0, NamesOf(plans), plans, i);
    assert plans[i] in plans;
    ok := HandlePlan(repo, NamesOf(plans), plans[i], SetOfKeys(plans));
    if ok {
      PlanFrameTrans(d0, old(repo.disk), repo.disk);
    }
  }

  lemma InFrontOfFirst(plans: seq<Key>, d: Disk, t: Table, kind: Kind)
    requires Ready(d, t, kind, SetOfKeys(plans)) && Covered(d, t, [""])
    ensures InFrontOf(d, t, plans, 0, d, t, kind)
  {
    assert PlannedAll(t, NamesOf(plans), plans[..0]) == t;
  }

  lemma BehindLast(d0: Disk, t0: Table, plans: seq<Key>, d: Disk, t: Table, kind: Kind)
    requires InFrontOf(d0, t0, plans, |plans|, d, t, kind)
    ensures t == PlannedAll(t0, NamesOf(plans), plans)
  {
    assert plans[..|plans|] == plans;
  }

  method HandlePlans(repo: ArtifactRepo, plans: seq<Key>) returns (ok: bool)
    requires repo.Valid() && repo.Tidy() && repo.parents == [""]
    requires InFrontOf(repo.disk, repo.table, plans, 0, repo.disk, repo.table, repo.kind)
    requires forall k :: k in plans ==> Plain(k.0) && IsDigest(k.1)
    modifies repo
    ensures old(repo.troubled) ==> repo.troubled
    ensures ok || repo.troubled || !repo.clean
    ensures repo.Valid() && (ok ==> repo.Tidy())
    ensures ok ==> InFrontOf(old(repo.disk), old(repo.table), plans, |plans|, repo.disk, repo.table, repo.kind)
  {
    for i := 0 to |plans|
      invariant old(repo.troubled) ==> repo.troubled
      invariant repo.Valid() && repo.Tidy()
      invariant InFrontOf(old(repo.disk), old(repo.table), plans, i, repo.disk, repo.table, repo.kind)
    {
      ok := HandleNext(repo, plans, i, old(repo.disk), old(repo.table));
      if !ok {
        return;
      }
    }
    ok := true;
  }

  /** What happens to the artifact of a link left over, in a run that succeeds. */
  predicate KeepsLeftOver(d: Disk, plans: seq<Key>, openLater: set<Key>, k: Key) {
    || plans == []
    || Prevails(plans, k)
    || (k.0 in NamesOf(plans) && Others(plans, k) < (if LinkedBy(d, "", k) then 2 else 1))
    || k in openLater
  }

  /**
   After a run that succeeds, the left-over links are there, and exactly those of their artifacts
   that it cannot remove.
   */
  ghost predicate LeftOversEnd(d: Disk, plans: seq<Key>, openLater: set<Key>, final: Disk) {
    forall k: Key :: Plain(k.0) && IsDigest(k.1) && LeftOver(d, "", k) && Listed(d, k) ==>
      LeftOver(final, "", k) && (Listed(final, k) <==> KeepsLeftOver(d, plans, openLater, k))
  }

  /** The first pruning cannot take it: the link counts as a reference. */
  lemma LeftOverIsReferred(d: Disk, t: Table, kind: Kind, k: Key)
    requires Good(d, [""], kind) && ReadFrom(d, t, [""]) && Plain(k.0) && IsDigest(k.1)
    requires LeftOver(d, "", k) && Listed(d, k)
    ensures k in t && Count(t[k], "") == (if LinkedBy(d, "", k) then 2 else 1) && t[k] != []
    ensures forall p :: p in t[k] ==> p == ""
  {
    assert k in t;
    CountOfRefs(d, [""], k, "");
    CountIsPositive(t[k], "");
    LinksToAre(d, [""], kind, "", k);
    forall p | p in t[k] ensures p == "" {
      CountOfRefs(d, [""], k, p);
      CountIsPositive(t[k], p);
    }
  }

  lemma ReferredAfterPlans(t: Table, plans: seq<Key>, k: Key, c: nat)
    requires k in t && Count(t[k], "") == c > 0
    ensures k in PlannedAll(t, NamesOf(plans), plans)
    ensures "" in PlannedAll(t, NamesOf(plans), plans)[k] <==>
            plans == [] || Prevails(plans, k) || (k.0 in NamesOf(plans) && Others(plans, k) < c)
  {
    forall x | x in plans ensures x.0 in NamesOf(plans) {
    }
    CountAfterPlans(t, NamesOf(plans), plans, k);
    CountIsPositive(PlannedAll(t, NamesOf(plans), plans)[k], "");
    assert Prevails(plans, k) ==> k in plans;
  }

  /** From the first pruning to the last: d is the directory at first, d1 and t1 are what the plans start with. */
  lemma LeftOverInRun(d: Disk, t: Table, kind: Kind, plans: seq<Key>, open: set<Key>, d2: Disk, openLater: set<Key>,
                      k: Key)
    requires Good(d, [""], kind) && ReadFrom(d, t, [""]) && Plain(k.0) && IsDigest(k.1)
    requires LeftOver(d, "", k) && Listed(d, k)
    requires PlanFrame(d - Dropped(d, t, HasParentClass([""]), open), d2)
    requires var t2 := PlannedAll(PrunedTable(t, open), NamesOf(plans), plans);
             Good(d2, [""], kind) && Consistent(d2, t2) && Backed(d2, t2, [""], kind)
    ensures var t2 := PlannedAll(PrunedTable(t, open), NamesOf(plans), plans);
            var final := d2 - Dropped(d2, t2, HasParentClass([""]), openLater);
            LeftOver(final, "", k) && (Listed(final, k) <==> KeepsLeftOver(d, plans, openLater, k))
  {
    var t1 := PrunedTable(t, open);
    var t2 := PlannedAll(t1, NamesOf(plans), plans);
    LeftOverIsReferred(d, t, kind, k);
    LeftOverAfterPrune(d, t, [""], kind, open, "", k);
    TmpLinkSuffix(k.0);
    assert LeftOver(d2, "", k);
    LeftOverAfterPrune(d2, t2, [""], kind, openLater, "", k);
    ReferredAfterPlans(t1, plans, k, if LinkedBy(d, "", k) then 2 else 1);
    if t2[k] != [] {
      assert t2[k][0] in t2[k];
      assert t2[k][0] in [""];
    }
  }

  /** Of the artifacts with a temporary link left over, only those are to stay that the run cannot remove. */
  ghost predicate PinsKept(d: Disk, pinned: set<Path>, plans: seq<Key>, openLater: set<Key>) {
    forall k: Key :: IsDigest(k.1) && FilePath(k) in pinned ==>
      Plain(k.0) && LeftOver(d, "", k) && Listed(d, k) && KeepsLeftOver(d, plans, openLater, k)
  }

  lemma PinsOutlastFirstPrune(d: Disk, t: Table, kind: Kind, pinned: set<Path>, plans: seq<Key>, open: set<Key>,
                              openLater: set<Key>)
    requires Good(d, [""], kind) && ReadFrom(d, t, [""]) && PinsKept(d, pinned, plans, openLater)
    ensures forall k: Key :: k in t && Doomed(t, open, k) ==> FilePath(k) !in pinned
  {
    forall k: Key | k in t && FilePath(k) in pinned ensures !Doomed(t, open, k) {
      assert Listed(d, k);
      LeftOverIsReferred(d, t, kind, k);
    }
  }

  lemma PinsOutlastLastPrune(d: Disk, t: Table, kind: Kind, pinned: set<Path>, plans: seq<Key>, open: set<Key>,
                             openLater: set<Key>, d2: Disk)
    requires Good(d, [""], kind) && ReadFrom(d, t, [""]) && PinsKept(d, pinned, plans, openLater)
    requires Consistent(d2, PlannedAll(PrunedTable(t, open), NamesOf(plans), plans))
    ensures var t2 := PlannedAll(PrunedTable(t, open), NamesOf(plans), plans);
            forall k: Key :: k in t2 && Doomed(t2, openLater, k) ==> FilePath(k) !in pinned
  {
    var t1 := PrunedTable(t, open);
    var t2 := PlannedAll(t1, NamesOf(plans), plans);
    forall k: Key | k in t2 && FilePath(k) in pinned ensures !Doomed(t2, openLater, k) {
      assert Listed(d2, k);
      LeftOverIsReferred(d, t, kind, k);
      ReferredAfterPlans(t1, plans, k, if LinkedBy(d, "", k) then 2 else 1);
    }
  }

  /**
   The artifact part of an installation. However it goes, no state of the directory on the
   way has a public link to nothing or to data that is not usable; temporary links are
   excepted only if there were some at first. If it succeeds:
   - without temporary links at first, the last planned artifact of each name is linked, and
     no other planned one; it is complete exactly unless it had lost data before and
     somebody has it open;
   - an artifact with a temporary link left over is kept exactly if it is planned last, or
     has more references than there are plans for others of its name, or is open at the end.
   */
  method InstallRun(repo: ArtifactRepo, plans: seq<Key>, open: set<Key>, openLater: set<Key>) returns (ok: bool)
    requires repo.Valid() && repo.Tidy() && repo.parents == [""]
    requires forall k :: k in plans ==> Plain(k.0) && IsDigest(k.1)
    requires SpoiledBy(repo.disk, plans, open) <= repo.kind.spoiled
    requires PinsKept(repo.disk, repo.pinned, plans, openLater)
    modifies repo
    ensures old(repo.troubled) ==> repo.troubled
    ensures ok || repo.troubled || !repo.clean
    ensures repo.Valid()
    ensures ok && NoLeftOvers(old(repo.disk)) ==>
              forall k :: k in plans ==> ServedAs(old(repo.disk), plans, open, repo.disk, repo.kind, k)
    ensures ok ==> LeftOversEnd(old(repo.disk), plans, openLater, repo.disk)
  {
    repo.Prepare();
    ghost var d, t := repo.disk, repo.table;
    PinsOutlastFirstPrune(d, t, repo.kind, repo.pinned, plans, open, openLater);
    ok := repo.Prune(open);
    if !ok {
      return;
    }
    PrunedIsReady(d, t, repo.kind, plans, open);
    ghost var d1, t1 := repo.disk, repo.table;
    InFrontOfFirst(plans, d1, t1, repo.kind);
    ok := HandlePlans(repo, plans);
    if !ok {
      return;
    }
    BehindLast(d1, t1, plans, repo.disk, repo.table, repo.kind);
    ghost var d2 := repo.disk;
    PinsOutlastLastPrune(d, t, repo.kind, repo.pinned, plans, open, openLater, d2);
    ok := repo.Prune(openLater);
    if ok {
      LeftOversInRun(d, t, repo.kind, plans, open, d2, openLater);
      if NoLeftOvers(d) {
        AllAreServed(d, t, repo.kind, plans, open, d2, openLater);
      }
    }
  }

  lemma LeftOversInRun(d: Disk, t: Table, kind: Kind, plans: seq<Key>, open: set<Key>, d2: Disk, openLater: set<Key>)
    requires Good(d, [""], kind) && ReadFrom(d, t, [""])
    requires PlanFrame(d - Dropped(d, t, HasParentClass([""]), open), d2)
    requires var t2 := PlannedAll(PrunedTable(t, open), NamesOf(plans), plans);
             Good(d2, [""], kind) && Consistent(d2, t2) && Backed(d2, t2, [""], kind)
    ensures var t2 := PlannedAll(PrunedTable(t, open), NamesOf(plans), plans);
            var final := d2 - Dropped(d2, t2, HasParentClass([""]), openLater);
            LeftOversEnd(d, plans, openLater, final)
  {
    var t2 := PlannedAll(PrunedTable(t, open), NamesOf(plans), plans);
    var final := d2 - Dropped(d2, t2, HasParentClass([""]), openLater);
    forall k: Key | Plain(k.0) && IsDigest(k.1) && LeftOver(d, "", k) && Listed(d, k)
      ensures LeftOver(final, "", k) && (Listed(final, k) <==> KeepsLeftOver(d, plans, openLater, k))
    {
      LeftOverInRun(d, t, kind, plans, open, d2, openLater, k);
    }
  }

  /** What a run that starts without temporary links makes of a planned artifact. */
  predicate ServedAs(d: Disk, plans: seq<Key>, open: set<Key>, final: Disk, kind: Kind, k: Key) {
    && (LinkedBy(final, "", k) <==> Prevails(plans, k))
    && (Prevails(plans, k) ==> Usable(final, kind, k))
    && (Prevails(plans, k) && Good(d, [""], Sound(kind)) ==> (Complete(final, k) <==> k !in SpoiledBy(d, plans, open)))
  }

  lemma AllAreServed(d: Disk, t: Table, kind: Kind, plans: seq<Key>, open: set<Key>, d2: Disk, openLater: set<Key>)
    requires Good(d, [""], kind) && ReadFrom(d, t, [""]) && NoLeftOvers(d)
    requires forall k :: k in plans ==> Plain(k.0) && IsDigest(k.1)
    requires PlanFrame(d - Dropped(d, t, HasParentClass([""]), open), d2)
    requires var t2 := PlannedAll(PrunedTable(t, open), NamesOf(plans), plans);
             Good(d2, [""], kind) && Consistent(d2, t2) && (plans != [] ==> Synced(d2, t2, [""]))
    ensures var t2 := PlannedAll(PrunedTable(t, open), NamesOf(plans), plans);
            var final := d2 - Dropped(d2, t2, HasParentClass([""]), openLater);
            forall k :: k in plans ==> ServedAs(d, plans, open, final, kind, k)
  {
    var t2 := PlannedAll(PrunedTable(t, open), NamesOf(plans), plans);
    forall k | k in plans
      ensures ServedAs(d, plans, open, d2 - Dropped(d2, t2, HasParentClass([""]), openLater), kind, k)
    {
      PlannedIsActive(d, t, kind, plans, open, k);
      PlannedIsServed(d, t, kind, plans, open, d2, t2, openLater, k);
    }
  }

  lemma PlannedIsActive(d: Disk, t: Table, kind: Kind, plans: seq<Key>, open: set<Key>, k: Key)
    requires Good(d, [""], kind) && ReadFrom(d, t, [""]) && NoLeftOvers(d) && k in plans
    ensures var t2 := PlannedAll(PrunedTable(t, open), NamesOf(plans), plans);
            OnePerName(t2) && k in t2 && (ActiveFor(t2, "", k) <==> Prevails(plans, k))
  {
    var t1 := PrunedTable(t, open);
    ReadIsUnique(d, t, kind);
    assert Unique(t1);
    UniqueAfterPlans(t1, NamesOf(plans), plans);
    PlannedAreKnown(t1, NamesOf(plans), plans, k);
  }

  lemma PlannedIsServed(d: Disk, t: Table, kind: Kind, plans: seq<Key>, open: set<Key>, d2: Disk, t2: Table,
                        openLater: set<Key>, k: Key)
    requires ReadFrom(d, t, [""]) && NoLeftOvers(d) && k in plans && Plain(k.0) && IsDigest(k.1)
    requires PlanFrame(d - Dropped(d, t, HasParentClass([""]), open), d2)
    requires Good(d2, [""], kind) && Consistent(d2, t2) && Synced(d2, t2, [""]) && OnePerName(t2)
    requires k in t2 && (ActiveFor(t2, "", k) <==> Prevails(plans, k))
    ensures ServedAs(d, plans, open, d2 - Dropped(d2, t2, HasParentClass([""]), openLater), kind, k)
  {
    if Prevails(plans, k) {
      OneIsServed(d, t, kind, plans, open, d2, t2, openLater, k);
    } else {
      OtherIsUnlinked(d2, t2, kind, openLater, k);
    }
  }

  lemma OtherIsUnlinked(d: Disk, t: Table, kind: Kind, open: set<Key>, k: Key)
    requires Good(d, [""], kind) && Consistent(d, t) && Synced(d, t, [""]) && OnePerName(t) && k in t
               && !ActiveFor(t, "", k)
    ensures !LinkedBy(d - Dropped(d, t, HasParentClass([""]), open), "", k)
  {
    LinkedIffActive(d, t, [""], kind, "", k);
  }

  lemma {:induction false} PlannedAreKnown(t: Table, names: set<string>, plans: seq<Key>, k: Key)
    requires k in plans
    ensures k in PlannedAll(t, names, plans)
    decreases |plans|
  {
    var front, last := plans[..|plans| - 1], plans[|plans| - 1];
    assert plans == front + [last];
    if k != last {
      PlannedAreKnown(t, names, front, k);
    }
  }

  // ---- left-over links in every state of a run ----------------------------------------------------------

  /** Every temporary link at first, and every artifact of one that the run cannot remove. */
  predicate Stays(d: Disk, plans: seq<Key>, openLater: set<Key>, q: Path)
    requires q in d
  {
    || (q.0 == "" && EndsWith(q.1, ".tmp-link") && d[q].Link?)
    || (IsArtifactFile(q) && ArtifactStays(d, plans, openLater, ParseFile(q.1).value))
  }

  predicate ArtifactStays(d: Disk, plans: seq<Key>, openLater: set<Key>, k: Key) {
    Plain(k.0) && LeftOver(d, "", k) && KeepsLeftOver(d, plans, openLater, k)
  }

  function Staying(d: Disk, plans: seq<Key>, openLater: set<Key>): set<Path> {
    set q | q in d && Stays(d, plans, openLater, q)
  }

  lemma StayingIsPinnable(d: Disk, plans: seq<Key>, openLater: set<Key>)
    ensures Pinnable(d, HasParentClass([""]), Staying(d, plans, openLater))
    ensures PinsKept(d, Staying(d, plans, openLater), plans, openLater)
  {
    forall q | q in Staying(d, plans, openLater) ensures !IsJunk(d, HasParentClass([""]), q) {
    }
    forall k: Key | IsDigest(k.1) && FilePath(k) in Staying(d, plans, openLater)
      ensures Plain(k.0) && LeftOver(d, "", k) && Listed(d, k) && KeepsLeftOver(d, plans, openLater, k)
    {
      FileIsHidden(k);
      FilesAreNoTmpLinks(k);
    }
  }

  /** In every state, the left-over links are there, and so is each of their artifacts that the run cannot remove. */
  ghost predicate LeftOversStay(d: Disk, plans: seq<Key>, openLater: set<Key>, h: seq<Disk>) {
    forall e, k: Key :: e in h && Plain(k.0) && IsDigest(k.1) && LeftOver(d, "", k) && Listed(d, k) ==>
      && LeftOver(e, "", k)
      && (KeepsLeftOver(d, plans, openLater, k) ==> Listed(e, k) && e[FilePath(k)] == d[FilePath(k)])
  }

  lemma PinsMakeLeftOversStay(d: Disk, plans: seq<Key>, openLater: set<Key>, h: seq<Disk>)
    requires forall i :: 0 <= i < |h| ==> Keeps(d, h[i], Staying(d, plans, openLater))
    ensures LeftOversStay(d, plans, openLater, h)
  {
    forall e, k: Key | e in h && Plain(k.0) && IsDigest(k.1) && LeftOver(d, "", k) && Listed(d, k)
      ensures LeftOver(e, "", k)
      ensures KeepsLeftOver(d, plans, openLater, k) ==> Listed(e, k) && e[FilePath(k)] == d[FilePath(k)]
    {
      TmpLinkSuffix(k.0);
      FileIsHidden(k);
      assert TmpLink("", k.0) in Staying(d, plans, openLater);
    }
  }

  /**
   A whole run on its own, from a directory that is as it should be. Of planned artifacts that
   are spoiled, and of nothing else, the run may link what is not complete; a successful run
   that starts without temporary links ends so exactly if there are such artifacts, and one
   of them is the last planned one of its name.
   */
  method OneRun(disk: Disk, trees: bool, plans: seq<Key>, open: set<Key>, openLater: set<Key>)
    returns (ok: bool, history: seq<Disk>)
    requires Good(disk, [""], Kind(trees, {}))
    requires forall k :: k in plans ==> Plain(k.0) && IsDigest(k.1)
    ensures var kind := Kind(trees, SpoiledBy(disk, plans, open));
            forall d :: d in history ==> Good(d, [""], kind) && (NoLeftOvers(disk) ==> Serves(d, [""], kind))
    ensures history != [] && history[0] == disk && LeftOversStay(disk, plans, openLater, history)
    ensures ok ==> LeftOversEnd(disk, plans, openLater, history[|history| - 1])
    ensures ok && NoLeftOvers(disk) ==>
              (Good(history[|history| - 1], [""], Kind(trees, {})) <==>
                 forall k :: k in SpoiledBy(disk, plans, open) ==> !Prevails(plans, k))
  {
    var kind := Kind(trees, SpoiledBy(disk, plans, open));
    GoodForMore(disk, [""], Kind(trees, {}), kind);
    ok, history := RunIn(disk, kind, plans, open, openLater);
    if ok && NoLeftOvers(disk) {
      var final := history[|history| - 1];
      if k :| k in kind.spoiled && Prevails(plans, k) {
        assert ServedAs(disk, plans, open, final, kind, k);
        assert LinkedBy(final, "", k) && !Complete(final, k);
        LinkedIsComplete(final, [""], Kind(trees, {}), "", k);
      } else {
        forall k | k in kind.spoiled ensures Unlinked(final, [""], k) {
          assert ServedAs(disk, plans, open, final, kind, k);
        }
        UnlinkedSpoilsNothing(final, [""], kind);
      }
    }
  }

  /** A run in a directory that is good but for what is known to be spoiled. */
  method RunIn(disk: Disk, kind: Kind, plans: seq<Key>, open: set<Key>, openLater: set<Key>)
    returns (ok: bool, history: seq<Disk>)
    requires Good(disk, [""], kind) && SpoiledBy(disk, plans, open) <= kind.spoiled
    requires forall k :: k in plans ==> Plain(k.0) && IsDigest(k.1)
    ensures history != [] && history[0] == disk && LeftOversStay(disk, plans, openLater, history)
    ensures ok ==> LeftOversEnd(disk, plans, openLater, history[|history| - 1])
    ensures forall d :: d in history ==> Good(d, [""], kind) && (NoLeftOvers(disk) ==> Serves(d, [""], kind))
    ensures ok && NoLeftOvers(disk) ==> forall k :: k in plans ==>
              ServedAs(disk, plans, open, history[|history| - 1], kind, k)
  {
    StayingIsPinnable(disk, plans, openLater);
    var repo := new ArtifactRepo([""], kind, disk, Staying(disk, plans, openLater));
    ok := InstallRun(repo, plans, open, openLater);
    history := repo.history;
    forall i | 0 <= i < |history|
      ensures Good(history[i], [""], kind) && (NoLeftOvers(disk) ==> Serves(history[i], [""], kind))
      ensures Keeps(disk, history[i], repo.pinned)
    {
      TrailAt(history, [""], kind, repo.clean, disk, repo.pinned, i);
    }
    PinsMakeLeftOversStay(disk, plans, openLater, history);
  }

  /** The kind of repository in which nothing is taken for usable that is not complete. */
  function Sound(kind: Kind): Kind { Kind(kind.trees, {}) }

  /**
   An artifact of the first pruning is what it was, if it is still there; a planned one is incomplete
   only if it is spoiled.
   */
  lemma CompleteAfterFirstPrune(d: Disk, t: Table, kind: Kind, plans: seq<Key>, open: set<Key>, k: Key)
    requires Good(d, [""], Sound(kind)) && ReadFrom(d, t, [""]) && NoLeftOvers(d) && k in plans && IsDigest(k.1)
    ensures var d1 := d - Dropped(d, t, HasParentClass([""]), open);
            if FilePath(k) in d1 then Complete(d1, k) <==> k !in SpoiledBy(d, plans, open) else k !in SpoiledBy(d, plans, open)
  {
    var d1 := d - Dropped(d, t, HasParentClass([""]), open);
    if Listed(d, k) {
      assert k in t;
      ReadIsBacked(d, t, [""], Sound(kind));
      TmpLinkSuffix(k.0);
      assert !Blocked(d, "", k.0);
      IncompleteAfterPrune(d, t, [""], Sound(kind), open, k);
      PruneIsExact(d, t, HasParentClass([""]), open, k);
    }
  }

  /** From the first pruning to the last, for one of the planned artifacts. */
  lemma OneIsServed(d: Disk, t: Table, kind: Kind, plans: seq<Key>, open: set<Key>, d2: Disk, t2: Table,
                    openLater: set<Key>, k: Key)
    requires ReadFrom(d, t, [""]) && NoLeftOvers(d) && k in plans && Plain(k.0) && IsDigest(k.1)
    requires PlanFrame(d - Dropped(d, t, HasParentClass([""]), open), d2)
    requires Good(d2, [""], kind) && Consistent(d2, t2) && Synced(d2, t2, [""]) && OnePerName(t2)
               && ActiveFor(t2, "", k)
    ensures var final := d2 - Dropped(d2, t2, HasParentClass([""]), openLater);
            && LinkedBy(final, "", k) && Usable(final, kind, k)
            && (Good(d, [""], Sound(kind)) ==> (Complete(final, k) <==> k !in SpoiledBy(d, plans, open)))
  {
    ActiveIsServed(d2, t2, kind, openLater, k);
    if Good(d, [""], Sound(kind)) {
      CompleteAfterFirstPrune(d, t, kind, plans, open, k);
    }
  }

  /** A run that took place: what it was to do, what was open at its prunings, and every state of the directory. */
  datatype Past = Past(plans: seq<Key>, open: set<Key>, openLater: set<Key>, history: seq<Disk>)

  ghost predicate IsPast(p: Past, kind: Kind) {
    && p.history != [] && LeftOversStay(p.history[0], p.plans, p.openLater, p.history)
    && forall d :: d in p.history ==> Good(d, [""], kind)
  }

  /** Each run starts with some state of the one before, where a crash has cut that one off. */
  predicate Follows(disk: Disk, past: seq<Past>, final: Disk) {
    && (forall i :: 0 <= i < |past| ==> past[i].history != [])
    && (if past == [] then final == disk else past[0].history[0] == disk && final in past[|past| - 1].history)
    && forall i :: 0 < i < |past| ==> past[i].history[0] in past[i - 1].history
  }

  lemma OneMorePast(disk: Disk, past: seq<Past>, final: Disk, run: Past, next: Disk)
    requires Follows(disk, past, final) && run.history != [] && run.history[0] == final && next in run.history
    ensures Follows(disk, past + [run], next)
  {
  }

  lemma PastForMore(p: Past, kind: Kind, more: Kind)
    requires IsPast(p, kind) && kind.trees == more.trees && kind.spoiled <= more.spoiled
    ensures IsPast(p, more)
  {
    forall d | d in p.history ensures Good(d, [""], more) {
      GoodForMore(d, [""], kind, more);
    }
  }

  /**
   Any number of installations, each of them cut off at any point of its history by a
   crash: the directory never has a public link to nothing, or to data that is not
   complete, except for planned trees that had lost data while somebody had them open.
   A temporary link that is left over stays, and its artifact in every run that cannot remove it.
   */
  method Lifetime(disk: Disk, trees: bool, runs: seq<seq<Key>>)
    returns (final: Disk, spoiled: set<Key>, past: seq<Past>)
    requires Good(disk, [""], Kind(trees, {}))
    requires forall r, k :: r in runs && k in r ==> Plain(k.0) && IsDigest(k.1)
    ensures |past| == |runs| && Follows(disk, past, final)
    ensures forall i :: 0 <= i < |runs| ==> past[i].plans == runs[i] && IsPast(past[i], Kind(trees, spoiled))
    ensures !trees ==> spoiled == {}
    ensures forall k :: k in spoiled <==>
              exists i :: 0 <= i < |runs| && past[i].history != [] && k in SpoiledBy(past[i].history[0], runs[i], past[i].open)
  {
    final, spoiled, past := disk, {}, [];
    var i := 0;
    while i < |runs|
      invariant 0 <= i <= |runs| && |past| == i && Follows(disk, past, final)
      invariant Good(final, [""], Kind(trees, spoiled)) && (!trees ==> spoiled == {})
      invariant forall j :: 0 <= j < i ==> past[j].plans == runs[j] && IsPast(past[j], Kind(trees, spoiled))
      invariant forall k :: k in spoiled <==>
                  exists j :: 0 <= j < i && k in SpoiledBy(past[j].history[0], runs[j], past[j].open)
    {
      assert runs[i] in runs;
      ghost var before := spoiled;
      var run: Past;
      run, spoiled := OneMoreRun(final, trees, spoiled, runs[i]);
      forall j | 0 <= j < i ensures IsPast(past[j], Kind(trees, spoiled)) {
        PastForMore(past[j], Kind(trees, before), Kind(trees, spoiled));
      }
      var crash: nat :| crash < |run.history|;
      OneMorePast(disk, past, final, run, run.history[crash]);
      past, final := past + [run], run.history[crash];
      i := i + 1;
    }
  }

  method OneMoreRun(start: Disk, trees: bool, spoiled: set<Key>, plans: seq<Key>) returns (run: Past, more: set<Key>)
    requires Good(start, [""], Kind(trees, spoiled)) && (!trees ==> spoiled == {})
    requires forall k :: k in plans ==> Plain(k.0) && IsDigest(k.1)
    ensures run.plans == plans && run.history != [] && run.history[0] == start
    ensures more == spoiled + SpoiledBy(start, plans, run.open) && (!trees ==> more == {})
    ensures IsPast(run, Kind(trees, more))
  {
    var open: set<Key>, openLater: set<Key> := *, *;
    if !trees {
      FilesAreNotSpoiled(start, [""], Kind(trees, spoiled), plans, open);
    }
    more := spoiled + SpoiledBy(start, plans, open);
    GoodForMore(start, [""], Kind(trees, spoiled), Kind(trees, more));
    var ok, history := RunIn(start, Kind(trees, more), plans, open, openLater);
    run := Past(plans, open, openLater, history);
  }

  /** Files lose their data at once, so for them nothing needs to be taken for granted. */
  lemma FilesAreNotSpoiled(d: Disk, parents: seq<string>, kind: Kind, plans: seq<Key>, open: set<Key>)
    requires Good(d, parents, kind) && !kind.trees
    ensures SpoiledBy(d, plans, open) == {}
  {
    forall k: Key | Listed(d, k) ensures Complete(d, k) {
      assert EntryOk(d, parents, kind, FilePath(k));
      FileIsHidden(k);
    }
  }

  // ---- what goes wrong, and when ----------------------------------------------------------------------

  /**
   The plan for an artifact, after pruning a directory that was as it should be: linking what
   is found, or else written, keeps it so exactly unless the artifact had lost data while
   somebody had it open.
   */
  lemma PlanIsGoodIff(d: Disk, t: Table, kind: Kind, plans: seq<Key>, open: set<Key>, k: Key)
    requires Good(d, [""], Sound(kind)) && ReadFrom(d, t, [""]) && NoLeftOvers(d)
    requires k in plans && Plain(k.0) && IsDigest(k.1)
    ensures var d1 := d - Dropped(d, t, HasParentClass([""]), open);
            var d2 := if FilePath(k) in d1 then d1 else d1[FilePath(k) := Data(true)];
            Good(d2[LinkPath("", k.0) := TargetOf("", k)], [""], Sound(kind)) <==> k !in SpoiledBy(d, plans, open)
  {
    var d1 := d - Dropped(d, t, HasParentClass([""]), open);
    var d2 := if FilePath(k) in d1 then d1 else d1[FilePath(k) := Data(true)];
    CompleteAfterFirstPrune(d, t, kind, plans, open, k);
    DroppedKeepsGood(d, t, kind, open);
    if FilePath(k) !in d1 {
      RenameDataKeepsGood(d1, [""], Sound(kind), k);
      PruneRemovesTmp(d, t, [""], Sound(kind), open, k);
      assert d1 - {TmpPath(k)} == d1;
    }
    LinkKeepsGoodIff(d2, [""], Sound(kind), "", k);
  }

  lemma DroppedKeepsGood(d: Disk, t: Table, kind: Kind, open: set<Key>)
    requires Good(d, [""], Sound(kind)) && ReadFrom(d, t, [""])
    ensures Good(d - Dropped(d, t, HasParentClass([""]), open), [""], Sound(kind))
  {
    var d1 := d - Dropped(d, t, HasParentClass([""]), open);
    ReadIsBacked(d, t, [""], Sound(kind));
    forall k: Key | IsDigest(k.1) && Usable(d, Sound(kind), k) && !Unlinked(d, [""], k)
        ensures Usable(d1, Sound(kind), k) {
      assert Listed(d, k);
      assert t[k] != [];
      PruneIsExact(d, t, HasParentClass([""]), open, k);
    }
    ChangeKeepsGood(d, d1, [""], Sound(kind));
  }

  const TREES := Kind(true, {})

  /** A directory with nothing but the remains of one artifact, and the table read from it. */
  function Remains(k: Key): Disk { map[FilePath(k) := Data(false)] }
  function Unreferenced(k: Key): Table { map[k := []] }

  lemma RemainsAreRead(k: Key)
    requires Plain(k.0) && IsDigest(k.1)
    ensures Good(Remains(k), [""], TREES) && ReadFrom(Remains(k), Unreferenced(k), [""])
  {
    var d, t := Remains(k), Unreferenced(k);
    FileIsHidden(k);
    assert EntryOk(d, [""], TREES, FilePath(k));
    forall x: Key ensures x in t <==> Listed(d, x) {
      if Listed(d, x) {
        OnlyFileOf(k);
      }
    }
    assert LinksTo(d, "", k) == {};
    assert [""][..0] == [];
    assert RefsOf(d, [""], k) == RefsOf(d, [], k) + Copies("", 0) == [];
  }

  lemma RemainsAreKept(k: Key)
    requires Plain(k.0) && IsDigest(k.1)
    ensures Dropped(Remains(k), Unreferenced(k), false, {k}) == {}
              && PrunedTable(Unreferenced(k), {k}) == Unreferenced(k)
  {
    FileIsHidden(k);
    assert Kept(Remains(k), Unreferenced(k), false, {k}, FilePath(k));
  }

  function LinkedRemains(k: Key): Disk { Remains(k)[LinkPath("", k.0) := TargetOf("", k)] }

  lemma LinkedRemainsAreBad(k: Key)
    requires Plain(k.0) && IsDigest(k.1)
    ensures !Good(LinkedRemains(k), [""], TREES)
  {
    FileIsHidden(k);
    TmpLinkIsPublic(k.0);
    LinkedIsComplete(LinkedRemains(k), [""], TREES, "", k);
  }

  lemma PlannedUnreferenced(k: Key)
    ensures Planned(Unreferenced(k), {k.0}, k) == map[k := [""]]
  {
    var t := WithArtifact(WithoutOld(Unreferenced(k), {k.0}), k);
    assert t == map[k := []];
    assert [] + [""] == [""];
  }

  lemma RemainsAreLinked(k: Key)
    requires Plain(k.0)
    ensures Synced(LinkedRemains(k), map[k := [""]], [""])
  {
    var t: Table := map[k := [""]];
    forall p, n | p in [""] && Known(t, n) ensures SyncedAt(LinkedRemains(k), t, p, n) {
      assert n == k.0 && ActiveFor(t, p, k);
    }
  }

  /**
   It can happen to any artifact: a tree whose removal was cut off, and which somebody has
   open at the next pruning, is kept, found again, and linked.
   */
  lemma IncompleteTreeIsReused(k: Key)
    requires Plain(k.0) && IsDigest(k.1)
    ensures Good(Remains(k), [""], TREES) && ReadFrom(Remains(k), Unreferenced(k), [""])
    ensures Dropped(Remains(k), Unreferenced(k), false, {k}) == {} && k in PrunedTable(Unreferenced(k), {k})
    ensures Synced(LinkedRemains(k), Planned(PrunedTable(Unreferenced(k), {k}), {k.0}, k), [""])
    ensures !Good(LinkedRemains(k), [""], TREES)
  {
    RemainsAreRead(k);
    RemainsAreKept(k);
    PlannedUnreferenced(k);
    RemainsAreLinked(k);
    LinkedRemainsAreBad(k);
  }

  // ---- temporary links left over ----------------------------------------------------------------------

  /** Two artifacts, the second one linked; the first one has just been written. */
  function Written(k: Key, j: Key): Disk {
    map[FilePath(k) := Data(true), FilePath(j) := Data(true), LinkPath("", j.0) := TargetOf("", j)]
  }

  /** The same, cut off by a crash while the link of the first one is made. */
  function CutOff(k: Key, j: Key): Disk { Written(k, j)[TmpLink("", k.0) := TargetOf("", k)] }

  /** What is read of it. */
  function ReadTable(k: Key, j: Key): Table { map[k := [""], j := [""]] }

  /** What the plan for the second one makes of it, with a manifest that has no other. */
  function PlannedTable(k: Key, j: Key): Table { map[k := [], j := [""]] }

  predicate Apart(k: Key, j: Key) {
    Plain(k.0) && IsDigest(k.1) && Plain(j.0) && IsDigest(j.1) && k.0 != j.0
  }

  lemma NamesApart(k: Key, j: Key)
    requires Apart(k, j)
    ensures Hidden(FilePath(k).1) && Hidden(FilePath(j).1) && FilePath(k) != FilePath(j)
    ensures !Hidden(k.0) && !Hidden(j.0) && !Hidden(TmpLink("", k.0).1) && TmpLink("", k.0).1 != j.0
              && TmpLink("", k.0).1 != k.0
    ensures TargetOf("", k) != TargetOf("", j)
  {
    FileIsHidden(k);
    FileIsHidden(j);
    TmpLinkIsPublic(k.0);
    TmpLinkIsPublic(j.0);
    NotTmpLink(k.0);
    NotTmpLink(j.0);
    ParseTargetIff("", Target("", k.0, k.1), k.0, k.1);
    ParseTargetIff("", Target("", j.0, j.1), j.0, j.1);
  }

  lemma WrittenIsGood(k: Key, j: Key)
    requires Apart(k, j)
    ensures Good(Written(k, j), [""], TREES)
  {
    var none: Disk := map[];
    var one: Disk, two: Disk :=
        map[FilePath(k) := Data(true)], map[FilePath(k) := Data(true), FilePath(j) := Data(true)];
    RenameDataKeepsGood(none, [""], TREES, k);
    assert (none - {TmpPath(k)})[FilePath(k) := Data(true)] == one;
    TmpIsNoFile(j, k);
    RenameDataKeepsGood(one, [""], TREES, j);
    assert (one - {TmpPath(j)})[FilePath(j) := Data(true)] == two;
    LinkKeepsGood(two, [""], TREES, "", j);
  }

  lemma TmpIsNoFile(j: Key, k: Key)
    requires IsDigest(k.1)
    ensures TmpPath(j) != FilePath(k)
  {
    TmpIsHidden(j);
    FileIsHidden(k);
  }

  lemma WrittenIsTidy(k: Key, j: Key)
    requires Apart(k, j)
    ensures NoLeftOvers(Written(k, j)) && TmpLink("", k.0) !in Written(k, j)
  {
    FilesAreNoTmpLinks(k);
    FilesAreNoTmpLinks(j);
    NotTmpLink(j.0);
    forall q | q in Written(k, j) ensures !EndsWith(q.1, ".tmp-link") {
      if q != FilePath(k) && q != FilePath(j) {
        assert q.1 == j.0;
      }
    }
    TmpLinkSuffix(k.0);
  }

  lemma WrittenIsComplete(k: Key, j: Key)
    requires Apart(k, j)
    ensures Complete(Written(k, j), k) && Complete(Written(k, j), j)
  {
    NamesApart(k, j);
  }

  lemma CutOffLinks(k: Key, j: Key)
    requires Apart(k, j)
    ensures LinksTo(CutOff(k, j), "", k) == {TmpLink("", k.0)} && LinksTo(CutOff(k, j), "", j) == {LinkPath("", j.0)}
  {
    NamesApart(k, j);
  }

  lemma CutOffLists(k: Key, j: Key, x: Key)
    requires Apart(k, j)
    ensures x in ReadTable(k, j) <==> Listed(CutOff(k, j), x)
  {
    NamesApart(k, j);
    if Listed(CutOff(k, j), x) {
      FileIsHidden(x);
      OnlyFileOf(k);
      OnlyFileOf(j);
    }
  }

  lemma CutOffIsRead(k: Key, j: Key)
    requires Apart(k, j)
    ensures ReadFrom(CutOff(k, j), ReadTable(k, j), [""])
  {
    forall x: Key ensures x in ReadTable(k, j) <==> Listed(CutOff(k, j), x) {
      CutOffLists(k, j, x);
    }
    CutOffLinks(k, j);
    OneLink(CutOff(k, j), k, TmpLink("", k.0));
    OneLink(CutOff(k, j), j, LinkPath("", j.0));
  }

  lemma OneLink(d: Disk, k: Key, q: Path)
    requires LinksTo(d, "", k) == {q}
    ensures RefsOf(d, [""], k) == [""]
  {
    assert [""][..0] == [];
    assert Copies("", 1) == [""] + Copies("", 0);
    assert RefsOf(d, [""], k) == RefsOf(d, [], k) + Copies("", 1);
  }

  lemma PlannedFromRead(k: Key, j: Key)
    requires k.0 != j.0
    ensures WithoutOld(ReadTable(k, j), {j.0}) == PlannedTable(k, j)
    ensures Planned(ReadTable(k, j), {j.0}, j) == PlannedTable(k, j)
  {
    var t := WithArtifact(WithoutOld(ReadTable(k, j), {j.0}), j);
    assert t == PlannedTable(k, j);
    assert "" in t[j];
    assert Activated(t, j, "") == t;
  }

  /**
   A crash cuts off the making of a link between its two steps. The directory in front of it
   is as it should be, and so is the one that the crash leaves: the link leads somewhere.
   */
  lemma LinkIsCutOff(k: Key, j: Key)
    requires Apart(k, j)
    ensures Good(Written(k, j), [""], TREES) && NoLeftOvers(Written(k, j)) && Complete(Written(k, j), k)
    ensures TmpLink("", k.0) !in Written(k, j)
    ensures Good(CutOff(k, j), [""], TREES) && Serves(CutOff(k, j), [""], TREES)
  {
    WrittenIsGood(k, j);
    WrittenIsTidy(k, j);
    WrittenIsComplete(k, j);
    TmpLinkKeepsGood(Written(k, j), [""], TREES, "", k);
    TmpLinkServes(Written(k, j), [""], TREES, "", k);
  }

  /** The next run reads that directory, and its first pruning takes nothing. */
  lemma NothingIsPruned(k: Key, j: Key)
    requires Apart(k, j)
    ensures ReadFrom(CutOff(k, j), ReadTable(k, j), [""])
    ensures Dropped(CutOff(k, j), ReadTable(k, j), false, {}) == {}
              && PrunedTable(ReadTable(k, j), {}) == ReadTable(k, j)
  {
    CutOffIsRead(k, j);
    CutOffIsKept(k, j);
  }

  /** Its manifest has only the other artifact: the first one loses its reference, and no link needs a change. */
  lemma NoLinkIsChanged(k: Key, j: Key)
    requires Apart(k, j)
    ensures WithoutOld(ReadTable(k, j), {j.0}) == PlannedTable(k, j) == Planned(ReadTable(k, j), {j.0}, j)
    ensures Synced(CutOff(k, j), PlannedTable(k, j), [""])
  {
    PlannedFromRead(k, j);
    forall p, n | p in [""] && Known(PlannedTable(k, j), n) ensures SyncedAt(CutOff(k, j), PlannedTable(k, j), p, n) {
      CutOffIsSynced(k, j, n);
    }
  }

  /** Its last pruning takes the artifact and leaves the link, which leads nowhere from then on. */
  lemma LeftOverDangles(k: Key, j: Key)
    requires Apart(k, j)
    ensures var final := CutOff(k, j) - Dropped(CutOff(k, j), PlannedTable(k, j), false, {});
            LeftOver(final, "", k) && !Listed(final, k) && !Serves(final, [""], TREES)
  {
    LinkIsCutOff(k, j);
    CutOffDangles(k, j);
  }

  lemma CutOffDangles(k: Key, j: Key)
    requires Apart(k, j) && Good(CutOff(k, j), [""], TREES)
    ensures var final := CutOff(k, j) - Dropped(CutOff(k, j), PlannedTable(k, j), false, {});
            LeftOver(final, "", k) && !Listed(final, k) && !Serves(final, [""], TREES)
  {
    var d, t := CutOff(k, j), PlannedTable(k, j);
    forall x: Key ensures x in t <==> Listed(d, x) {
      CutOffLists(k, j, x);
    }
    NamesApart(k, j);
    LeftOverAfterPrune(d, t, [""], TREES, {}, "", k);
    var final := d - Dropped(d, t, false, {});
    LinkLeads(final, TREES, "", k, TmpLink("", k.0));
  }

  lemma CutOffIsKept(k: Key, j: Key)
    requires Apart(k, j)
    ensures Dropped(CutOff(k, j), ReadTable(k, j), false, {}) == {}
  {
    FileIsHidden(k);
    FileIsHidden(j);
    TmpLinkIsPublic(k.0);
    TmpLinkIsPublic(j.0);
  }

  lemma CutOffIsSynced(k: Key, j: Key, n: string)
    requires Apart(k, j) && Known(PlannedTable(k, j), n)
    ensures SyncedAt(CutOff(k, j), PlannedTable(k, j), "", n)
  {
    NamesApart(k, j);
    if n == j.0 {
      assert ActiveFor(PlannedTable(k, j), "", j) && CutOff(k, j)[LinkPath("", n)] == TargetOf("", j);
    } else {
      assert LinkPath("", n) !in CutOff(k, j);
    }
  }

  // ---- digests of another form --------------------------------------------------------------------------

  /**
   Artifact files are recognised by lower-case hexadecimal digests. Under any digest, a linked
   artifact survives the next pruning exactly if what follows the last dash of its digest is of
   that form; otherwise it is taken for junk, and its link dangles.
   */
  lemma ForeignDigestDanglesIff(d: Disk, t: Table, open: set<Key>, k: Key)
    requires ReadFrom(d, t, [""]) && Plain(k.0) && Complete(d, k) && LinkedBy(d, "", k)
    ensures var d' := d - Dropped(d, t, HasParentClass([""]), open);
            LinkedBy(d', "", k) && (Complete(d', k) <==> IsDigest(k.1[AfterLastDash(k.1)..]))
  {
    TmpLinkIsPublic(k.0);
    FileOfDigestIff(k.0, k.1);
    var file := FileName(k.0, k.1);
    if ParseFile(file).Some? {
      var y := ParseFile(file).value;
      ParseFileIff(file, y.0, y.1);
      LinkIsReference(d, k, y);
      assert t[y] != [];
    }
  }

  lemma LinkIsReference(d: Disk, k: Key, y: Key)
    requires Plain(k.0) && LinkedBy(d, "", k) && FileName(y.0, y.1) == FileName(k.0, k.1)
    ensures RefsOf(d, [""], y) != []
  {
    TmpLinkIsPublic(k.0);
    assert LinkPath("", k.0) in LinksTo(d, "", y);
    CountOfRefs(d, [""], y, "");
  }
}
