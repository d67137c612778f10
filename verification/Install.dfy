/**
 The default installation handler on top of the boot selection: mark the target
 bad, write every planned slot, mark the target active. `history` records every
 state the storage goes through; a crash or an abort leaves one of them behind.
 The status file is the central one.
 */
module Install {
  import opened Wrappers
  import opened BootModel
  import opened Bootchooser

  type Content = string
  type Digest = string

  /** The image payload, and the digest the manifest gives for it, if any. */
  datatype Image = Image(payload: Content, digest: Option<Digest>)

  datatype SlotStatus = SlotStatus(status: Option<string>, digest: Option<Digest>)

  const NO_STATUS := SlotStatus(None, None)

  datatype Target = Target(slot: Slot, hasParent: bool, installSame: bool)

  datatype Plan = SlotPlan(image: Image, target: Target) | ArtifactPlan

  /** Everything that survives a crash. */
  datatype Disk = Disk(env: Env, contents: map<string, Content>, statuses: map<string, SlotStatus>)

  /** A state of the storage, and how many plans of the installation had succeeded by then. */
  datatype Moment = Moment(disk: Disk, completed: nat)

  /** A status "ok" with a digest tells the truth about what the slot holds. */
  ghost predicate Honest(hash: Content -> Digest, statuses: map<string, SlotStatus>, contents: map<string, Content>) {
    forall s :: s in statuses && statuses[s].status == Some("ok") && statuses[s].digest.Some? ==>
      s in contents && hash(contents[s]) == statuses[s].digest.value
  }

  /** What a slot held at first, or what an update has completely written to it. */
  type Whole = set<(string, Content)>

  /** What plans add to it. */
  ghost function Payloads(plans: seq<Plan>): Whole {
    set p | p in plans && p.SlotPlan? :: (p.target.slot.name, p.image.payload)
  }

  lemma PayloadOf(plans: seq<Plan>, i: nat)
    requires i < |plans|
    ensures Payloads([plans[i]]) <= Payloads(plans)
  {
  }

  /** A status "ok", with or without a digest, is only ever given to a slot that holds something whole. */
  ghost predicate Intact(whole: Whole, statuses: map<string, SlotStatus>, contents: map<string, Content>) {
    forall s :: s in statuses && statuses[s].status == Some("ok") ==> s in contents && (s, contents[s]) in whole
  }

  /** Verified bundles give true digests; plans name configured slots, and slots with a parent have no bootname. */
  ghost predicate ValidPlan(hash: Content -> Digest, slots: seq<Slot>, p: Plan) {
    p.SlotPlan? ==>
      && p.target.slot in slots
      && (p.target.hasParent ==> !Handled(p.target.slot))
      && (p.image.digest.Some? ==> hash(p.image.payload) == p.image.digest.value)
  }

  /** No two plans write the same slot: there is one plan for each slot class. */
  ghost predicate ValidPlans(hash: Content -> Digest, slots: seq<Slot>, plans: seq<Plan>) {
    && (forall i :: 0 <= i < |plans| ==> ValidPlan(hash, slots, plans[i]))
    && (forall i, j :: 0 <= i < j < |plans| && plans[i].SlotPlan? && plans[j].SlotPlan? ==>
          plans[i].target.slot.name != plans[j].target.slot.name)
  }

  /** The slot holds the planned image, as far as a digest can tell. */
  ghost predicate Held(hash: Content -> Digest, p: Plan, contents: map<string, Content>) {
    p.SlotPlan? && p.image.digest.Some? ==>
      p.target.slot.name in contents && hash(contents[p.target.slot.name]) == p.image.digest.value
  }

  ghost predicate AllHeld(hash: Content -> Digest, plans: seq<Plan>, contents: map<string, Content>) {
    forall i :: 0 <= i < |plans| ==> Held(hash, plans[i], contents)
  }

  // ---- skipping slots that are up to date ------------------------------------------

  /** The test for skipping an update; two missing digests compare equal. */
  predicate UpToDate(status: SlotStatus, p: Plan)
    requires p.SlotPlan?
  {
    !p.target.installSame && status.status == Some("ok") && p.image.digest == status.digest
  }

  /**
   Passing the test guarantees the planned content exactly for images with a digest:
   for one without, some honest status lets a slot with other content be skipped.
   */
  lemma SkipIsJustified(hash: Content -> Digest, p: Plan, other: Content)
    requires p.SlotPlan? && !p.target.installSame
    requires p.image.digest.Some? ==> hash(p.image.payload) == p.image.digest.value
    requires hash(other) != hash(p.image.payload)
    ensures p.image.digest.Some? <==>
            forall statuses: map<string, SlotStatus>, contents: map<string, Content> ::
              var n := p.target.slot.name;
              Honest(hash, statuses, contents) && n in statuses && n in contents && UpToDate(statuses[n], p) ==>
                hash(contents[n]) == hash(p.image.payload)
  {
    var n := p.target.slot.name;
    if p.image.digest.None? {
      var statuses := map[n := SlotStatus(Some("ok"), None)];
      var contents := map[n := other];
      assert Honest(hash, statuses, contents) && UpToDate(statuses[n], p);
    }
  }

  // ---- which slot to mark --------------------------------------------------------

  predicate BootMarked(p: Plan) {
    p.SlotPlan? && !p.target.hasParent && Handled(p.target.slot)
  }

  /** Two plans want their slot to be the target. */
  ghost predicate TwoMarked(plans: seq<Plan>) {
    exists i, j :: 0 <= i < j < |plans| && BootMarked(plans[i]) && BootMarked(plans[j])
  }

  /** The one planned root slot with a bootname; more than one aborts. */
  method GetBootMarkSlot(plans: seq<Plan>) returns (r: Result<Option<Slot>>)
    ensures r == Ok(None) <==>
              forall p :: p in plans && p.SlotPlan? && !p.target.hasParent ==> p.target.slot.bootname.None?
    ensures r.Ok? && r.value.Some? ==>
              exists i :: 0 <= i < |plans| && BootMarked(plans[i]) && plans[i].target.slot == r.value.value &&
                forall j :: 0 <= j < |plans| && j != i ==> !BootMarked(plans[j])
    ensures r.Err? <==> TwoMarked(plans)
  {
    var bootslot: Option<Slot> := None;
    ghost var at := 0;
    for i := 0 to |plans|
      invariant bootslot.None? ==> forall j :: 0 <= j < i ==> !BootMarked(plans[j])
      invariant bootslot.Some? ==> at < i && BootMarked(plans[at]) && plans[at].target.slot == bootslot.value
      invariant bootslot.Some? ==> forall j :: 0 <= j < i && j != at ==> !BootMarked(plans[j])
    {
      var plan := plans[i];
      if !plan.SlotPlan? {
        continue;
      }
      if plan.target.hasParent || plan.target.slot.bootname.None? {
        continue;
      }
      if bootslot.Some? {
        return Err;
      }
      bootslot := Some(plan.target.slot);
      at := i;
    }
    return Ok(bootslot);
  }

  // ---- histories of the storage ------------------------------------------------------

  ghost predicate Sound(hash: Content -> Digest, whole: Whole, slots: seq<Slot>, d: Disk) {
    && Honest(hash, d.statuses, d.contents) && Intact(whole, d.statuses, d.contents)
    && forall s :: s in slots ==> s.name in d.contents
  }

  ghost predicate SameElsewhere(before: map<string, Content>, after: map<string, Content>, name: string) {
    forall s :: s in before && s != name ==> s in after && after[s] == before[s]
  }

  /** From one history to a longer one, nothing but the slot `name` and the status file was written. */
  ghost predicate OnlyWrote(h: seq<Moment>, h': seq<Moment>, m: Moment, name: string) {
    h <= h' && forall i :: |h| <= i < |h'| ==> WroteOnly(m, h'[i], name)
  }

  ghost predicate WroteOnly(m: Moment, m': Moment, name: string) {
    && m'.disk.env == m.disk.env && m'.completed == m.completed
    && SameElsewhere(m.disk.contents, m'.disk.contents, name)
  }

  lemma OnlyWroteTrans(h0: seq<Moment>, h1: seq<Moment>, h2: seq<Moment>, m: Moment, n: Moment, name: string)
    requires OnlyWrote(h0, h1, m, name) && OnlyWrote(h1, h2, n, name)
    requires WroteOnly(m, n, name)
    ensures OnlyWrote(h0, h2, m, name)
  {
    forall i | |h0| <= i < |h2|
      ensures WroteOnly(m, h2[i], name)
    {
      if i < |h1| {
        assert h2[i] == h1[i];
      } else {
        assert WroteOnly(n, h2[i], name);
      }
    }
  }

  /** From one history to a longer one, wherever the status file says "ok" of the slot, it holds one of these contents. */
  ghost predicate OkOnly(h: seq<Moment>, h': seq<Moment>, name: string, cs: set<Content>) {
    h <= h' && forall i :: |h| <= i < |h'| ==> OkWith(h'[i].disk, name, cs)
  }

  ghost predicate OkWith(d: Disk, name: string, cs: set<Content>) {
    name in d.statuses && d.statuses[name].status == Some("ok") ==> name in d.contents && d.contents[name] in cs
  }

  lemma OkOnlyTrans(h0: seq<Moment>, h1: seq<Moment>, h2: seq<Moment>, name: string, cs: set<Content>, cs': set<Content>)
    requires OkOnly(h0, h1, name, cs) && OkOnly(h1, h2, name, cs')
    ensures OkOnly(h0, h2, name, cs + cs')
  {
    forall i | |h0| <= i < |h2| ensures OkWith(h2[i].disk, name, cs + cs') {
      if i < |h1| {
        assert h2[i] == h1[i];
      } else {
        assert OkWith(h2[i].disk, name, cs');
      }
    }
  }

  /** From one history to a longer one, nothing but these environments was written. */
  ghost predicate StoredOnly(h: seq<Moment>, h': seq<Moment>, ws: seq<Env>, m: Moment) {
    h <= h' && forall i :: |h| <= i < |h'| ==>
        h'[i].disk.env in ws && h'[i] == m.(disk := m.disk.(env := h'[i].disk.env))
  }

  // ---- what every state of an installation must satisfy ------------------------------

  /** s is the slot that the plans mark bad and then active. */
  ghost predicate Marks(plans: seq<Plan>, s: Slot) {
    exists i :: 0 <= i < |plans| && BootMarked(plans[i]) && plans[i].target.slot == s
  }

  /** Neither primary nor good, and no operation on another slot changes that. */
  ghost predicate Down(l: Bootloader, slots: seq<Slot>, env: Env, s: Slot)
    requires Handled(s)
  {
    && PrimaryOf(l, env, slots) != Ok(s) && StateOf(l, env, s.bootname.value) != Ok(true)
    && IsDisabled(l, slots, env, s)
  }

  ghost predicate IsDisabled(l: Bootloader, slots: seq<Slot>, env: Env, s: Slot)
    requires Handled(s)
  {
    s.bootname.value in ViewOf(l, env, slots).disabled
  }

  /** Every slot that was good stays good, except the marked one. */
  ghost predicate OthersGood(l: Bootloader, slots: seq<Slot>, plans: seq<Plan>, env0: Env, env: Env) {
    forall s :: s in slots && Handled(s) && !Marks(plans, s) && StateOf(l, env0, s.bootname.value) == Ok(true) ==>
      StateOf(l, env, s.bootname.value) == Ok(true)
  }

  ghost predicate MarkedDown(l: Bootloader, slots: seq<Slot>, plans: seq<Plan>, env: Env) {
    forall s :: s in slots && Handled(s) && Marks(plans, s) ==> Down(l, slots, env, s)
  }

  /** All plans, those of artifacts included, have succeeded: the images are in place, and recorded. */
  ghost predicate AllDone(hash: Content -> Digest, plans: seq<Plan>, m: Moment) {
    m.completed == |plans| && AllHeld(hash, plans, m.disk.contents) && AllRecorded(plans, m.disk.statuses)
  }

  /**
   A machine left in this state boots the marked slot only if all plans have succeeded,
   and still has every slot it could boot before.
   */
  ghost predicate Safe(l: Bootloader, hash: Content -> Digest, slots: seq<Slot>, plans: seq<Plan>, env0: Env,
                       m: Moment) {
    && (MarkedDown(l, slots, plans, m.disk.env) || AllDone(hash, plans, m))
    && OthersGood(l, slots, plans, env0, m.disk.env)
  }

  /** Every state after h, up to the end of h', is safe. */
  ghost predicate SafeFrom(l: Bootloader, hash: Content -> Digest, slots: seq<Slot>, plans: seq<Plan>, env0: Env,
                           h: seq<Moment>, h': seq<Moment>)
  {
    h <= h' && forall i :: |h| <= i < |h'| ==> Safe(l, hash, slots, plans, env0, h'[i])
  }

  lemma SafeExtends(l: Bootloader, hash: Content -> Digest, slots: seq<Slot>, plans: seq<Plan>, env0: Env,
                    h: seq<Moment>, before: seq<Moment>, after: seq<Moment>)
    requires SafeFrom(l, hash, slots, plans, env0, h, before) && before <= after
    requires forall i :: |before| <= i < |after| ==> Safe(l, hash, slots, plans, env0, after[i])
    ensures SafeFrom(l, hash, slots, plans, env0, h, after)
  {
    forall i | |h| <= i < |after| ensures Safe(l, hash, slots, plans, env0, after[i]) {
      if i < |before| {
        assert after[i] == before[i];
      }
    }
  }

  /** What is planned and could boot is down while it is written. */
  lemma PlannedIsFenced(l: Bootloader, hash: Content -> Digest, slots: seq<Slot>, plans: seq<Plan>, env: Env, i: nat)
    requires ValidSlots(slots) && ValidPlans(hash, slots, plans) && MarkedDown(l, slots, plans, env)
    requires i < |plans| && plans[i].SlotPlan?
    ensures Fenced(l, slots, env, plans[i].target.slot.name)
  {
    var t := plans[i].target.slot;
    assert ValidPlan(hash, slots, plans[i]);
    forall s | s in slots && Handled(s) && s.name == t.name ensures IsDisabled(l, slots, env, s) {
      SameName(slots, s, t);
      assert BootMarked(plans[i]);
      assert Marks(plans, s);
    }
  }

  lemma SameName(slots: seq<Slot>, s: Slot, t: Slot)
    requires ValidSlots(slots) && s in slots && t in slots && s.name == t.name
    ensures s == t
  {
    var i :| 0 <= i < |slots| && slots[i] == s;
    var j :| 0 <= j < |slots| && slots[j] == t;
  }

  lemma MarksUnique(plans: seq<Plan>, i: nat, s: Slot)
    requires i < |plans| && BootMarked(plans[i]) && plans[i].target.slot == s
    requires forall j :: 0 <= j < |plans| && j != i ==> !BootMarked(plans[j])
    ensures forall t :: Marks(plans, t) <==> t == s
  {
  }

  /** Marking bad: down at once, and the others keep their state. */
  lemma AfterMarkBad(l: Bootloader, slots: seq<Slot>, plans: seq<Plan>, env: Env, slot: Slot, env': Env)
    requires ValidSlots(slots) && slot in slots && Handled(slot)
    requires forall t :: Marks(plans, t) <==> t == slot
    requires env' in Writes(l, env, slots, MarkState(slot, false))
    ensures MarkedDown(l, slots, plans, env') && OthersGood(l, slots, plans, env, env')
  {
    StepIsAbstract(l, slots, env, MarkState(slot, false), env');
    ViewMeaning(l, env', slots, slot);
    forall s | s in slots && Handled(s) && s != slot && StateOf(l, env, s.bootname.value) == Ok(true)
      ensures StateOf(l, env', s.bootname.value) == Ok(true)
    {
      FindSlotUnique(slots, s);
      FindSlotUnique(slots, slot);
      ViewMeaning(l, env, slots, s);
      ViewMeaning(l, env', slots, s);
    }
  }

  /** With the target down, writing to a slot is safe. */
  lemma WritingIsSafe(l: Bootloader, hash: Content -> Digest, slots: seq<Slot>, plans: seq<Plan>, env0: Env,
                      h: seq<Moment>, before: seq<Moment>, after: seq<Moment>, m: Moment, name: string)
    requires SafeFrom(l, hash, slots, plans, env0, h, before) && OnlyWrote(before, after, m, name)
    requires MarkedDown(l, slots, plans, m.disk.env) && OthersGood(l, slots, plans, env0, m.disk.env)
    ensures SafeFrom(l, hash, slots, plans, env0, h, after)
  {
    forall i | |before| <= i < |after| ensures Safe(l, hash, slots, plans, env0, after[i]) {
      assert WroteOnly(m, after[i], name);
    }
    SafeExtends(l, hash, slots, plans, env0, h, before, after);
  }

  /** The roots above the planned slots; `root` is what the configuration says. */
  ghost predicate RootsMarked(plans: seq<Plan>, root: Slot -> Slot) {
    forall p :: p in plans && p.SlotPlan? ==> Marks(plans, root(p.target.slot))
  }

  /**
   Only the planned root itself is marked bad. So while the slots are written, the roots
   above them, having been good before, are down exactly if each of them is planned as well:
   a child slot on its own is overwritten under a root that can still be booted.
   */
  lemma RootsAreDownIff(l: Bootloader, hash: Content -> Digest, slots: seq<Slot>, plans: seq<Plan>, env0: Env,
                        m: Moment,
                        root: Slot -> Slot)
    requires Safe(l, hash, slots, plans, env0, m) && !AllDone(hash, plans, m)
    requires forall p :: p in plans && p.SlotPlan? ==>
               var r := root(p.target.slot);
               r in slots && Handled(r) && StateOf(l, env0, r.bootname.value) == Ok(true)
    ensures (forall p :: p in plans && p.SlotPlan? ==> Down(l, slots, m.disk.env, root(p.target.slot))) <==>
              RootsMarked(plans, root)
  {
    forall p | p in plans && p.SlotPlan?
      ensures Down(l, slots, m.disk.env, root(p.target.slot)) <==> Marks(plans, root(p.target.slot))
    {
      assert !Marks(plans, root(p.target.slot)) ==>
               StateOf(l, m.disk.env, root(p.target.slot).bootname.value) == Ok(true);
    }
  }

  /** Making primary: nobody who was good turns bad, at either write. */
  lemma AfterMakePrimary(l: Bootloader, slots: seq<Slot>, plans: seq<Plan>, env0: Env, env: Env, slot: Slot, env': Env)
    requires ValidSlots(slots) && slot in slots && Handled(slot)
    requires OthersGood(l, slots, plans, env0, env)
    requires env' in Writes(l, env, slots, MakePrimary(slot))
    ensures OthersGood(l, slots, plans, env0, env')
  {
    StepIsAbstract(l, slots, env, MakePrimary(slot), env');
    forall s | s in slots && Handled(s) && StateOf(l, env, s.bootname.value) == Ok(true)
      ensures StateOf(l, env', s.bootname.value) == Ok(true)
    {
      ViewMeaning(l, env, slots, s);
      ViewMeaning(l, env', slots, s);
    }
  }

  // ---- what the slots that can boot hold ---------------------------------------------

  /** Since a moment, the slot could be booted with this content. */
  datatype Voucher = Voucher(name: string, content: Content, since: nat)

  /** In the moment with number i, every slot that is not disabled holds what has been vouched for by then. */
  ghost predicate Fit(l: Bootloader, slots: seq<Slot>, d: Disk, vouched: set<Voucher>, i: nat) {
    forall s :: s in slots && Handled(s) ==> IsDisabled(l, slots, d.env, s) || IsVouched(d, vouched, s, i)
  }

  ghost predicate IsVouched(d: Disk, vouched: set<Voucher>, s: Slot, i: nat) {
    s.name in d.contents && exists n: nat :: n <= i && Voucher(s.name, d.contents[s.name], n) in vouched
  }

  /** Vouchers are for what the slots held. */
  ghost predicate TrueVouchers(h: seq<Moment>, vouched: set<Voucher>) {
    forall v :: v in vouched ==>
      v.since < |h| && v.name in h[v.since].disk.contents && h[v.since].disk.contents[v.name] == v.content
  }

  /** Every moment so far is sound and fit. */
  ghost predicate Trail(l: Bootloader, hash: Content -> Digest, whole: Whole, slots: seq<Slot>, h: seq<Moment>,
                        vouched: set<Voucher>)
    decreases |h|
  {
    h != [] ==>
      && Trail(l, hash, whole, slots, h[..|h| - 1], vouched)
      && Sound(hash, whole, slots, h[|h| - 1].disk) && Fit(l, slots, h[|h| - 1].disk, vouched, |h| - 1)
  }

  lemma {:induction false} TrailAt(l: Bootloader, hash: Content -> Digest, whole: Whole, slots: seq<Slot>, h: seq<Moment>,
                                   vouched: set<Voucher>, i: nat)
    requires Trail(l, hash, whole, slots, h, vouched) && i < |h|
    ensures Sound(hash, whole, slots, h[i].disk) && Fit(l, slots, h[i].disk, vouched, i)
    decreases |h|
  {
    if i < |h| - 1 {
      TrailAt(l, hash, whole, slots, h[..|h| - 1], vouched, i);
    }
  }

  /** A slot that is written is no slot that can boot. */
  ghost predicate Fenced(l: Bootloader, slots: seq<Slot>, env: Env, name: string) {
    forall s :: s in slots && Handled(s) && s.name == name ==> IsDisabled(l, slots, env, s)
  }

  lemma TrailMore(l: Bootloader, hash: Content -> Digest, whole: Whole, slots: seq<Slot>, h: seq<Moment>, vouched: set<Voucher>,
                  m: Moment)
    requires Trail(l, hash, whole, slots, h, vouched) && TrueVouchers(h, vouched)
    requires Sound(hash, whole, slots, m.disk) && Fit(l, slots, m.disk, vouched, |h|)
    ensures Trail(l, hash, whole, slots, h + [m], vouched) && TrueVouchers(h + [m], vouched)
  {
    assert (h + [m])[..|h|] == h;
  }

  lemma FitLater(l: Bootloader, slots: seq<Slot>, d: Disk, vouched: set<Voucher>, i: nat, j: nat,
                 statuses: map<string, SlotStatus>)
    requires Fit(l, slots, d, vouched, i) && i <= j
    ensures Fit(l, slots, d.(statuses := statuses), vouched, j)
  {
    forall s | s in slots && Handled(s) && IsVouched(d, vouched, s, i)
        ensures IsVouched(d.(statuses := statuses), vouched, s, j) {
    }
  }

  lemma WritingKeepsFit(l: Bootloader, slots: seq<Slot>, d: Disk, vouched: set<Voucher>, i: nat, name: string,
                        c: Content)
    requires Fit(l, slots, d, vouched, i) && Fenced(l, slots, d.env, name)
    ensures Fit(l, slots, d.(contents := d.contents[name := c]), vouched, i + 1)
  {
    var d' := d.(contents := d.contents[name := c]);
    forall s | s in slots && Handled(s) ensures IsDisabled(l, slots, d'.env, s) || IsVouched(d', vouched, s, i + 1) {
      if !IsDisabled(l, slots, d.env, s) {
        assert s.name != name && d'.contents[s.name] == d.contents[s.name];
        var n: nat :| n <= i && Voucher(s.name, d.contents[s.name], n) in vouched;
        assert Voucher(s.name, d'.contents[s.name], n) in vouched;
      }
    }
  }

  /** Marking bad, or else an operation on a slot that is vouched for. */
  lemma BootingKeepsFit(l: Bootloader, slots: seq<Slot>, d: Disk, vouched: set<Voucher>, i: nat, op: BootOp, env: Env)
    requires ValidSlots(slots) && Handled(op.slot) && op.slot in slots && env in Writes(l, d.env, slots, op)
    requires Fit(l, slots, d, vouched, i)
    requires op == MarkState(op.slot, false) || IsVouched(d, vouched, op.slot, i)
    ensures Fit(l, slots, d.(env := env), vouched, i)
  {
    StepIsAbstract(l, slots, d.env, op, env);
    FindSlotUnique(slots, op.slot);
    forall s | s in slots && Handled(s)
        ensures IsDisabled(l, slots, env, s) || IsVouched(d.(env := env), vouched, s, i) {
      FindSlotUnique(slots, s);
      if !IsDisabled(l, slots, d.env, s) {
        assert IsVouched(d, vouched, s, i);
      }
    }
  }

  /** What is not disabled at first is vouched for. */
  ghost function FirstVouchers(l: Bootloader, slots: seq<Slot>, d: Disk): set<Voucher> {
    set s | s in slots && Handled(s) && s.name in d.contents
        && !IsDisabled(l, slots, d.env, s) :: Voucher(s.name, d.contents[s.name], 0)
  }

  lemma FirstFit(l: Bootloader, slots: seq<Slot>, d: Disk)
    requires forall s :: s in slots ==> s.name in d.contents
    ensures Fit(l, slots, d, FirstVouchers(l, slots, d), 0)
  {
    forall s | s in slots && Handled(s) && !IsDisabled(l, slots, d.env, s)
        ensures IsVouched(d, FirstVouchers(l, slots, d), s, 0) {
      assert Voucher(s.name, d.contents[s.name], 0) in FirstVouchers(l, slots, d);
    }
  }

  /** What an installation vouches for once all of its plans have succeeded. */
  function PlanVouchers(plans: seq<Plan>, contents: map<string, Content>, since: nat): set<Voucher> {
    set p | p in plans && p.SlotPlan?
        && p.target.slot.name in contents :: Voucher(p.target.slot.name, contents[p.target.slot.name], since)
  }

  lemma {:induction false} TrailGrows(l: Bootloader, hash: Content -> Digest, whole: Whole, slots: seq<Slot>,
                                      h: seq<Moment>, vouched: set<Voucher>, whole': Whole, vouched': set<Voucher>)
    requires Trail(l, hash, whole, slots, h, vouched) && whole <= whole' && vouched <= vouched'
    ensures Trail(l, hash, whole', slots, h, vouched')
    decreases |h|
  {
    if h != [] {
      var d, i := h[|h| - 1].disk, |h| - 1;
      TrailGrows(l, hash, whole, slots, h[..i], vouched, whole', vouched');
      forall s | s in slots && Handled(s) && IsVouched(d, vouched, s, i) ensures IsVouched(d, vouched', s, i) {
      }
    }
  }

  /** So a slot that is reported good or primary holds what is vouched for. */
  lemma BootableIsVouched(l: Bootloader, slots: seq<Slot>, d: Disk, vouched: set<Voucher>, i: nat, s: Slot)
    requires ValidSlots(slots) && s in slots && Handled(s) && Fit(l, slots, d, vouched, i)
    requires StateOf(l, d.env, s.bootname.value) == Ok(true) || PrimaryOf(l, d.env, slots) == Ok(s)
    ensures IsVouched(d, vouched, s, i)
  {
    ViewMeaning(l, d.env, slots, s);
    ViewWf(l, d.env, slots);
  }

  // ---- the recorded status ---------------------------------------------------------

  /** What is known of a slot: its status in memory, or else the one in the status file. */
  function Known(status: map<string, SlotStatus>, saved: map<string, SlotStatus>, name: string): SlotStatus {
    if name in status then status[name] else if name in saved then saved[name] else NO_STATUS
  }

  /** The status file is as it was, or tells of the other slots what was known of them. */
  ghost predicate OthersSaved(saved: map<string, SlotStatus>, saved0: map<string, SlotStatus>,
                              status0: map<string, SlotStatus>, name: string) {
    saved == saved0 || forall n :: n in status0 && n != name ==> n in saved && saved[n] == status0[n]
  }

  /** The statuses tell that the plan has been carried out. */
  predicate Recorded(p: Plan, statuses: map<string, SlotStatus>) {
    p.SlotPlan? ==>
      p.target.slot.name in statuses && statuses[p.target.slot.name] == SlotStatus(Some("ok"), p.image.digest)
  }

  predicate AllRecorded(plans: seq<Plan>, statuses: map<string, SlotStatus>) {
    forall i :: 0 <= i < |plans| ==> Recorded(plans[i], statuses)
  }

  lemma StayRecorded(plans: seq<Plan>, before: map<string, SlotStatus>, after: map<string, SlotStatus>)
    requires AllRecorded(plans, before) && forall n :: n in before ==> n in after && after[n] == before[n]
    ensures AllRecorded(plans, after)
  {
    forall i | 0 <= i < |plans| ensures Recorded(plans[i], after) {
      assert Recorded(plans[i], before);
    }
  }

  lemma OneMoreRecorded(hash: Content -> Digest, slots: seq<Slot>, plans: seq<Plan>, i: nat,
                        before: map<string, SlotStatus>, after: map<string, SlotStatus>)
    requires i < |plans| && plans[i].SlotPlan? && ValidPlans(hash, slots, plans)
    requires AllRecorded(plans[..i], before) && Recorded(plans[i], after)
    requires forall n :: n in before && n != plans[i].target.slot.name ==> n in after && after[n] == before[n]
    ensures AllRecorded(plans[..i + 1], after)
  {
    var done := plans[..i + 1];
    forall j | 0 <= j < |done| ensures Recorded(done[j], after) {
      if j < i {
        assert Recorded(plans[..i][j], before);
      }
    }
  }

  lemma ArtifactIsDone(hash: Content -> Digest, plans: seq<Plan>, i: nat, contents: map<string, Content>,
                       statuses: map<string, SlotStatus>)
    requires i < |plans| && plans[i].ArtifactPlan?
    requires AllHeld(hash, plans[..i], contents) && AllRecorded(plans[..i], statuses)
    ensures AllHeld(hash, plans[..i + 1], contents) && AllRecorded(plans[..i + 1], statuses)
  {
    var done := plans[..i + 1];
    forall j | 0 <= j < |done| ensures Held(hash, done[j], contents) && Recorded(done[j], statuses) {
      assert j < i ==> done[j] == plans[..i][j];
    }
  }

  lemma OneMoreHeld(hash: Content -> Digest, slots: seq<Slot>, plans: seq<Plan>, i: nat,
                    before: map<string, Content>, after: map<string, Content>)
    requires i < |plans| && plans[i].SlotPlan? && ValidPlans(hash, slots, plans)
    requires AllHeld(hash, plans[..i], before) && Held(hash, plans[i], after)
    requires SameElsewhere(before, after, plans[i].target.slot.name)
    ensures AllHeld(hash, plans[..i + 1], after)
  {
    var done := plans[..i + 1];
    forall j | 0 <= j < |done| ensures Held(hash, done[j], after) {
      if j < i {
        assert Held(hash, plans[..i][j], before);
      }
    }
  }

  // ---- the handler -----------------------------------------------------------------

  class Installer {
    const slots: seq<Slot>
    const loader: Bootloader
    const hash: Content -> Digest
    const activateInstalled: bool

    // on storage
    var env: Env
    var contents: map<string, Content>
    var saved: map<string, SlotStatus>
    // in memory
    var status: map<string, SlotStatus>
    // every state the storage went through, the current one last
    var history: seq<Moment>
    // the plans of the installation that have succeeded
    var completed: nat
    ghost var vouched: set<Voucher>
    ghost var whole: Whole
    // whether anything outside has failed: writing, reading, mounting, the checks in front
    ghost var troubled: bool

    function Now(): Disk
      reads this`env, this`contents, this`saved
    {
      Disk(env, contents, saved)
    }

    function At(): Moment
      reads this
    {
      Moment(Now(), completed)
    }

    ghost predicate Valid()
      reads this`env, this`contents, this`saved, this`status, this`history, this`vouched, this`whole
    {
      && ValidSlots(slots)
      && Honest(hash, status, contents) && Intact(whole, status, contents)

      && history != [] && history[|history| - 1].disk == Now()
      && Trail(loader, hash, whole, slots, history, vouched) && TrueVouchers(history, vouched)
    }

    constructor (slots: seq<Slot>, loader: Bootloader, hash: Content -> Digest, activateInstalled: bool, disk: Disk)
      requires ValidSlots(slots) && Honest(hash, disk.statuses, disk.contents)
      requires forall s :: s in slots ==> s.name in disk.contents
      requires forall s :: s in disk.statuses ==> s in disk.contents
      ensures Valid() && Now() == disk && status == map[] && history == [Moment(disk, 0)] && completed == 0
      ensures this.slots == slots && this.loader == loader && this.hash == hash
      ensures this.activateInstalled == activateInstalled && vouched == FirstVouchers(loader, slots, disk)
      ensures whole == set n | n in disk.contents :: (n, disk.contents[n])
      ensures !troubled
    {
      this.slots, this.loader, this.hash, this.activateInstalled := slots, loader, hash, activateInstalled;
      env, contents, saved := disk.env, disk.contents, disk.statuses;
      status := map[];
      history, completed := [Moment(disk, 0)], 0;
      vouched := FirstVouchers(loader, slots, disk);
      whole, troubled := set n | n in disk.contents :: (n, disk.contents[n]), false;
      FirstFit(loader, slots, disk);
    }

    /** A step that may fail. */
    method Attempt() returns (ok: bool)
      modifies this`troubled
      ensures troubled == (old(troubled) || !ok)
    {
      ok := *;
      troubled := troubled || !ok;
    }

    /** Fills the in-memory status of every slot that has none from the status file. */
    method LoadStatus()
      requires Valid()
      modifies this`status
      ensures Valid()
      ensures forall s :: s in slots ==> s.name in status
      ensures forall n :: n in old(status) ==> n in status && status[n] == old(status)[n]
      ensures forall n :: n in status ==> status[n] == Known(old(status), saved, n)
    {
      for i := 0 to |slots|
        invariant Honest(hash, status, contents) && Intact(whole, status, contents)
        invariant forall j :: 0 <= j < i ==> slots[j].name in status
        invariant forall n :: n in old(status) ==> n in status && status[n] == old(status)[n]
        invariant forall n :: n in status ==> status[n] == Known(old(status), saved, n)
      {
        var n := slots[i].name;
        if n !in status {
          status := status[n := if n in saved then saved[n] else NO_STATUS];
        }
      }
    }

    /** Writes all in-memory statuses to the status file, in one step, or fails without writing. */
    method SaveStatus() returns (ok: bool)
      requires Valid()
      modifies this`saved, this`history, this`troubled
      ensures old(troubled) || !ok ==> troubled
      ensures Valid()
      ensures ok ==> saved == status && history == old(history) + [At()]
      ensures !ok ==> saved == old(saved) && history == old(history)
    {
      ok := Attempt();
      if ok {
        FitLater(loader, slots, Now(), vouched, |history| - 1, |history|, status);
        saved := status;
        TrailMore(loader, hash, whole, slots, history, vouched, At());
        history := history + [At()];
      }
    }

    /** One write to a slot that is fenced and that the status file does not vouch for. */
    method WriteContent(name: string, c: Content, ghost h: seq<Moment>, ghost m: Moment)
      requires Valid() && name in contents && name in status && name in saved
      requires status[name].status != Some("ok") && saved[name].status != Some("ok")
      requires Fenced(loader, slots, env, name)
      requires OnlyWrote(h, history, m, name) && WroteOnly(m, At(), name) && OkOnly(h, history, name, {})
      modifies this`contents, this`history
      ensures Valid() && contents == old(contents)[name := c]
      ensures OnlyWrote(h, history, m, name) && WroteOnly(m, At(), name) && OkOnly(h, history, name, {})
      ensures history == old(history) + [At()]
    {
      WritingKeepsFit(loader, slots, Now(), vouched, |history| - 1, name, c);
      contents := contents[name := c];
      TrailMore(loader, hash, whole, slots, history, vouched, At());
      history := history + [At()];
    }

    /** The slot update handler: passes through arbitrary contents, and on success leaves the image. */
    method UpdateSlot(image: Image, name: string) returns (ok: bool)
      requires Valid() && name in contents && name in status && name in saved
      requires status[name].status != Some("ok") && saved[name].status != Some("ok")
      requires Fenced(loader, slots, env, name)
      modifies this`contents, this`history, this`whole, this`troubled
      ensures old(troubled) || !ok ==> troubled
      ensures Valid() && OnlyWrote(old(history), history, old(At()), name) && OkOnly(old(history), history, name, {})
      ensures SameElsewhere(old(contents), contents, name) && name in contents
      ensures ok ==> contents[name] == image.payload
      ensures whole == if ok then old(whole) + {(name, image.payload)} else old(whole)
    {
      WriteParts(name, old(history), old(At()));
      ok := Attempt();
      if ok {
        WriteContent(name, image.payload, old(history), old(At()));
        NowWhole(name);
      }
    }

    /** Any number of writes, of anything. */
    method WriteParts(name: string, ghost h: seq<Moment>, ghost m: Moment)
      requires Valid() && name in contents && name in status && name in saved
      requires status[name].status != Some("ok") && saved[name].status != Some("ok")
      requires Fenced(loader, slots, env, name)
      requires OnlyWrote(h, history, m, name) && WroteOnly(m, At(), name) && OkOnly(h, history, name, {})
      modifies this`contents, this`history
      ensures Valid() && name in contents
      ensures OnlyWrote(h, history, m, name) && WroteOnly(m, At(), name) && OkOnly(h, history, name, {})
    {
      var steps: nat :| steps >= 0;
      for i := 0 to steps
        invariant Valid() && name in contents
        invariant OnlyWrote(h, history, m, name) && WroteOnly(m, At(), name) && OkOnly(h, history, name, {})
      {
        var partial: Content := *;
        WriteContent(name, partial, h, m);
      }
    }

    /** What the slot holds has been written completely. */
    ghost method NowWhole(name: string)
      requires Valid() && name in contents
      modifies this`whole
      ensures Valid() && whole == old(whole) + {(name, contents[name])}
    {
      TrailGrows(loader, hash, whole, slots, history, vouched, whole + {(name, contents[name])}, vouched);
      whole := whole + {(name, contents[name])};
    }

    /** Makes the status file stop vouching for the slot before anything is written to it. */
    method MarkPending(name: string) returns (ok: bool)
      requires Valid() && name in status
      modifies this`saved, this`status, this`history, this`troubled
      ensures old(troubled) || !ok ==> troubled
      ensures Valid() && OnlyWrote(old(history), history, old(At()), name) && OkOnly(old(history), history, name, {})
      ensures ok ==> saved == old(status)[name := SlotStatus(Some("pending"), None)]
      ensures !ok ==> saved == old(saved)
      ensures status == old(status)[name := SlotStatus(Some(if ok then "update" else "pending"), None)]
    {
      status := status[name := SlotStatus(Some("pending"), None)];
      ok := SaveStatus();
      if ok {
        status := status[name := status[name].(status := Some("update"))];
      }
    }

    /** Records the outcome for the slot; "ok" only for what it really holds. */
    method RecordStatus(name: string, outcome: string, digest: Option<Digest>) returns (ok: bool)
      requires Valid()
      requires outcome == "ok" ==> name in contents && (name, contents[name]) in whole
      requires outcome == "ok" && digest.Some? ==> hash(contents[name]) == digest.value
      modifies this`saved, this`status, this`history, this`troubled
      ensures old(troubled) || !ok ==> troubled
      ensures Valid() && OnlyWrote(old(history), history, old(At()), name)
      ensures OkOnly(old(history), history, name, if outcome == "ok" then {contents[name]} else {})
      ensures status == old(status)[name := SlotStatus(Some(outcome), digest)]
      ensures saved == if ok then status else old(saved)
    {
      status := status[name := SlotStatus(Some(outcome), digest)];
      ok := SaveStatus();
    }

    /**
     One slot plan. While the status file says "ok" of the slot, it holds what it held before
     or the complete image. A failed update is recorded as such.
     */
    method HandleSlotInstallPlan(plan: Plan) returns (ok: bool)
      requires Valid() && plan.SlotPlan? && ValidPlan(hash, slots, plan)
      requires Fenced(loader, slots, env, plan.target.slot.name)
      modifies this`contents, this`saved, this`status, this`history, this`whole, this`troubled
      ensures old(troubled) || !ok ==> troubled
      ensures Valid() && OnlyWrote(old(history), history, old(At()), plan.target.slot.name)
      ensures SameElsewhere(old(contents), contents, plan.target.slot.name)
      ensures plan.target.slot.name in old(contents)
      ensures OkOnly(old(history), history, plan.target.slot.name,
                     {old(contents)[plan.target.slot.name], plan.image.payload})
      ensures old(whole) <= whole <= old(whole) + Payloads([plan])
      ensures ok ==> Held(hash, plan, contents)
      ensures UpToDate(Known(old(status), old(saved), plan.target.slot.name), plan) ==> contents == old(contents)
      ensures ok && !UpToDate(Known(old(status), old(saved), plan.target.slot.name), plan) ==>
                contents[plan.target.slot.name] == plan.image.payload
      ensures ok ==> Recorded(plan, saved) && saved == status
      ensures !ok && contents != old(contents) ==> Ended(plan)
      ensures forall s :: s in slots && s.name != plan.target.slot.name ==>
                || Known(map[], saved, s.name) == Known(map[], old(saved), s.name)
                || Known(map[], saved, s.name) == Known(old(status), old(saved), s.name)
      ensures forall n :: n in old(status) && n != plan.target.slot.name ==> n in status && status[n] == old(status)[n]
    {
      var name := plan.target.slot.name;
      LoadStatus();
      ok := Attempt();
      if !ok {
        return;
      }
      ok := SkipOrOverwrite(plan);
    }

    /** Once the statuses are loaded: a slot that is up to date is recorded again, any other one is written. */
    method SkipOrOverwrite(plan: Plan) returns (ok: bool)
      requires Valid() && plan.SlotPlan? && ValidPlan(hash, slots, plan)
      requires Fenced(loader, slots, env, plan.target.slot.name) && plan.target.slot.name in status
      modifies this`contents, this`saved, this`status, this`history, this`whole, this`troubled
      ensures old(troubled) || !ok ==> troubled
      ensures Valid() && OnlyWrote(old(history), history, old(At()), plan.target.slot.name)
      ensures SameElsewhere(old(contents), contents, plan.target.slot.name)
      ensures plan.target.slot.name in old(contents)
      ensures OkOnly(old(history), history, plan.target.slot.name,
                     {old(contents)[plan.target.slot.name], plan.image.payload})
      ensures old(whole) <= whole <= old(whole) + Payloads([plan])
      ensures ok ==> Held(hash, plan, contents) && Recorded(plan, saved) && saved == status
      ensures UpToDate(old(status)[plan.target.slot.name], plan) ==> contents == old(contents)
      ensures ok && !UpToDate(old(status)[plan.target.slot.name], plan) ==>
                plan.target.slot.name in contents && contents[plan.target.slot.name] == plan.image.payload
      ensures !ok && contents != old(contents) ==> Ended(plan)
      ensures OthersSaved(saved, old(saved), old(status), plan.target.slot.name)
      ensures forall n :: n in old(status) && n != plan.target.slot.name ==> n in status && status[n] == old(status)[n]
    {
      if UpToDate(status[plan.target.slot.name], plan) {
        ok := RecordStatus(plan.target.slot.name, "ok", plan.image.digest);
      } else {
        ok := Overwrite(plan);
      }
    }

    /** The update of a slot that is not up to date. */
    method Overwrite(plan: Plan) returns (ok: bool)
      requires Valid() && plan.SlotPlan? && ValidPlan(hash, slots, plan)
      requires Fenced(loader, slots, env, plan.target.slot.name) && plan.target.slot.name in status
      modifies this`contents, this`saved, this`status, this`history, this`whole, this`troubled
      ensures old(troubled) || !ok ==> troubled
      ensures Valid() && OnlyWrote(old(history), history, old(At()), plan.target.slot.name)
      ensures SameElsewhere(old(contents), contents, plan.target.slot.name)
      ensures OkOnly(old(history), history, plan.target.slot.name, {plan.image.payload})
      ensures old(whole) <= whole <= old(whole) + Payloads([plan])
      ensures ok ==> Held(hash, plan, contents) && plan.target.slot.name in contents
      ensures ok ==> contents[plan.target.slot.name] == plan.image.payload && Recorded(plan, saved) && saved == status
      ensures !ok ==> contents == old(contents) || Ended(plan)
      ensures OthersSaved(saved, old(saved), old(status), plan.target.slot.name)
      ensures forall n :: n in old(status) && n != plan.target.slot.name ==> n in status && status[n] == old(status)[n]
    {
      var name := plan.target.slot.name;
      ok := MarkPending(name);
      if !ok {
        return;
      }
      ghost var h, m := history, At();
      var updated: bool;
      updated, ok := WriteAndRecord(plan);
      OnlyWroteTrans(old(history), h, history, old(At()), m, name);
      OkOnlyTrans(old(history), h, history, name, {}, {plan.image.payload});
    }

    /** Once an update has begun, it ends as failed, in memory at least; or as complete, and only writing the status failed. */
    ghost predicate Ended(plan: Plan)
      requires plan.SlotPlan?
      reads this`contents, this`saved, this`status
    {
      var name := plan.target.slot.name;
      && name in status && name in saved && name in contents
      && status[name].digest == plan.image.digest
      && (status[name].status == Some("failed") ||
          (status[name].status == Some("ok") && contents[name] == plan.image.payload))
      && (saved[name] == status[name] || saved[name] == SlotStatus(Some("pending"), None))
    }

    /** Runs the update handler and records how it ended. */
    method WriteAndRecord(plan: Plan) returns (updated: bool, ok: bool)
      requires Valid() && plan.SlotPlan? && ValidPlan(hash, slots, plan)
      requires Fenced(loader, slots, env, plan.target.slot.name)
      requires plan.target.slot.name in status && plan.target.slot.name in saved
      requires status[plan.target.slot.name].status != Some("ok")
      requires saved[plan.target.slot.name] == SlotStatus(Some("pending"), None)
      modifies this`contents, this`saved, this`status, this`history, this`whole, this`troubled
      ensures old(troubled) || !ok ==> troubled
      ensures Valid() && OnlyWrote(old(history), history, old(At()), plan.target.slot.name)
      ensures OkOnly(old(history), history, plan.target.slot.name, {plan.image.payload})
      ensures SameElsewhere(old(contents), contents, plan.target.slot.name)
      ensures old(whole) <= whole <= old(whole) + Payloads([plan])
      ensures status == old(status)[plan.target.slot.name :=
                          SlotStatus(Some(if updated then "ok" else "failed"), plan.image.digest)]
      ensures saved == status || saved == old(saved)
      ensures updated ==> Held(hash, plan, contents) && plan.target.slot.name in contents
      ensures updated ==> contents[plan.target.slot.name] == plan.image.payload
      ensures ok <==> updated && saved == status
      ensures Ended(plan)
    {
      var name := plan.target.slot.name;
      updated := UpdateSlot(plan.image, name);
      ghost var h, m := history, At();
      if !updated {
        var _ := RecordStatus(name, "failed", plan.image.digest);
        ok := false;
      } else {
        ok := RecordStatus(name, "ok", plan.image.digest);
      }
      OnlyWroteTrans(old(history), h, history, old(At()), m, name);
      OkOnlyTrans(old(history), h, history, name, {}, if updated then {plan.image.payload} else {});
    }

    /** Stores the environments of one boot operation; may stop early, after any of them. */
    method BootOperation(op: BootOp) returns (ok: bool)
      requires Valid() && Handled(op.slot) && op.slot in slots
      requires op == MarkState(op.slot, false) || IsVouched(Now(), vouched, op.slot, |history| - 1)
      modifies this`env, this`history, this`troubled
      ensures old(troubled) ==> troubled
      ensures ok || troubled || Writes(loader, old(env), slots, op) == []
      ensures Valid() && StoredOnly(old(history), history, Writes(loader, old(env), slots, op), old(At()))
      ensures |history| == |old(history)| ==> env == old(env)
      ensures ok ==> (var ws := Writes(loader, old(env), slots, op); ws != [] && env == ws[|ws| - 1])
    {
      var ws := Writes(loader, env, slots, op);
      if ws == [] {
        return false;
      }
      forall e | e in ws ensures Fit(loader, slots, Disk(e, contents, saved), vouched, |history| - 1) {
        BootingKeepsFit(loader, slots, Now(), vouched, |history| - 1, op, e);
      }
      ok := StoreAll(ws);
    }

    /** Writes to the boot environment one after the other, up to the first that fails. */
    method StoreAll(ws: seq<Env>) returns (ok: bool)
      requires Valid() && forall e :: e in ws ==> Fit(loader, slots, Disk(e, contents, saved), vouched, |history| - 1)
      modifies this`env, this`history, this`troubled
      ensures old(troubled) || !ok ==> troubled
      ensures Valid() && StoredOnly(old(history), history, ws, old(At()))
      ensures |history| == |old(history)| ==> env == old(env)
      ensures ok && ws != [] ==> env == ws[|ws| - 1]
    {
      for i := 0 to |ws|
        invariant old(troubled) ==> troubled
        invariant Valid() && StoredOnly(old(history), history, ws, old(At()))
        invariant |history| == |old(history)| + i && env == if i == 0 then old(env) else ws[i - 1]
      {
        ok := Attempt();
        if !ok {
          return;
        }
        FitLater(loader, slots, Disk(ws[i], contents, saved), vouched, |old(history)| - 1, |history|, saved);
        Store(ws[i], ws, old(history), old(At()));
      }
      return true;
    }

    /** One write to the boot environment. */
    method Store(next: Env, ghost ws: seq<Env>, ghost h: seq<Moment>, ghost m: Moment)
      requires Valid() && Fit(loader, slots, Disk(next, contents, saved), vouched, |history|)
      requires StoredOnly(h, history, ws, m) && next in ws && At() == m.(disk := m.disk.(env := env))
      modifies this`env, this`history
      ensures Valid() && env == next && StoredOnly(h, history, ws, m) && |history| == |old(history)| + 1
    {
      env := next;
      TrailMore(loader, hash, whole, slots, history, vouched, At());
      history := history + [At()];
    }

    /** Safe states only, since the installation began. */
    ghost predicate SafeSince(h: seq<Moment>, plans: seq<Plan>, env0: Env)
      reads this`history
    {
      SafeFrom(loader, hash, slots, plans, env0, h, history)
    }

    /** A slot plan while the target is down: every state on the way is safe. */
    method HandleSlotSafely(plan: Plan, plans: seq<Plan>, ghost h: seq<Moment>, ghost env0: Env) returns (ok: bool)
      requires Valid() && plan.SlotPlan? && ValidPlan(hash, slots, plan)
      requires SafeSince(h, plans, env0)
      requires MarkedDown(loader, slots, plans, env) && OthersGood(loader, slots, plans, env0, env)
      requires Fenced(loader, slots, env, plan.target.slot.name)
      modifies this`contents, this`saved, this`status, this`history, this`whole, this`troubled
      ensures old(troubled) || !ok ==> troubled
      ensures Valid() && SafeSince(h, plans, env0)
      ensures SameElsewhere(old(contents), contents, plan.target.slot.name)
      ensures old(whole) <= whole <= old(whole) + Payloads([plan])
      ensures ok ==> Held(hash, plan, contents) && Recorded(plan, status) && saved == status
      ensures forall n :: n in old(status) && n != plan.target.slot.name ==> n in status && status[n] == old(status)[n]
    {
      ok := HandleSlotInstallPlan(plan);
      WritingIsSafe(loader, hash, slots, plans, env0, h, old(history), history, old(At()), plan.target.slot.name);
    }

    /** One more plan has succeeded. */
    method CountPlan(plans: seq<Plan>, ghost h: seq<Moment>, ghost env0: Env)
      requires Valid() && SafeSince(h, plans, env0)
      requires MarkedDown(loader, slots, plans, env) && OthersGood(loader, slots, plans, env0, env)
      modifies this`completed, this`history
      ensures Valid() && SafeSince(h, plans, env0)
      ensures completed == old(completed) + 1 && history == old(history) + [At()]
    {
      completed := completed + 1;
      FitLater(loader, slots, Now(), vouched, |history| - 1, |history|, saved);
      TrailMore(loader, hash, whole, slots, history, vouched, At());
      history := history + [At()];
      SafeExtends(loader, hash, slots, plans, env0, h, old(history), history);
    }

    /** A slot plan of the loop. */
    method HandlePlannedSlot(plans: seq<Plan>, i: nat, ghost h: seq<Moment>, ghost env0: Env) returns (ok: bool)
      requires Valid() && i < |plans| && ValidPlans(hash, slots, plans) && plans[i].SlotPlan?
      requires SafeSince(h, plans, env0)
      requires MarkedDown(loader, slots, plans, env) && OthersGood(loader, slots, plans, env0, env)
      requires AllHeld(hash, plans[..i], contents) && AllRecorded(plans[..i], status)
      modifies this`contents, this`saved, this`status, this`history, this`whole, this`troubled
      ensures old(troubled) || !ok ==> troubled
      ensures Valid() && SafeSince(h, plans, env0)
      ensures ok ==> AllHeld(hash, plans[..i + 1], contents) && AllRecorded(plans[..i + 1], status) && saved == status
      ensures old(whole) <= whole <= old(whole) + Payloads(plans)
    {
      PlannedIsFenced(loader, hash, slots, plans, env, i);
      PayloadOf(plans, i);
      ok := HandleSlotSafely(plans[i], plans, h, env0);
      if ok {
        OneMoreHeld(hash, slots, plans, i, old(contents), contents);
        OneMoreRecorded(hash, slots, plans, i, old(status), status);
      }
    }

    /** One plan of the loop; plans that were carried out before stay so. */
    method HandleNext(plans: seq<Plan>, i: nat, ghost h: seq<Moment>, ghost env0: Env) returns (ok: bool)
      requires Valid() && i < |plans| && ValidPlans(hash, slots, plans)
      requires SafeSince(h, plans, env0)
      requires MarkedDown(loader, slots, plans, env) && OthersGood(loader, slots, plans, env0, env)
      requires completed == i && AllHeld(hash, plans[..i], contents) && AllRecorded(plans[..i], status)
                 && AllRecorded(plans[..i], saved)
      modifies this`contents, this`saved, this`status, this`history, this`whole, this`completed, this`troubled
      ensures old(troubled) || !ok ==> troubled
      ensures Valid() && SafeSince(h, plans, env0)
      ensures ok ==> completed == i + 1 && AllHeld(hash, plans[..i + 1], contents)
      ensures ok ==> AllRecorded(plans[..i + 1], status) && AllRecorded(plans[..i + 1], saved)
      ensures ok ==> history[|history| - 1] == At()
      ensures old(whole) <= whole <= old(whole) + Payloads(plans)
    {
      if plans[i].ArtifactPlan? {
        ok := Attempt();
        if ok {
          ArtifactIsDone(hash, plans, i, contents, status);
          ArtifactIsDone(hash, plans, i, contents, saved);
        }
      } else {
        ok := HandlePlannedSlot(plans, i, h, env0);
      }
      if ok {
        CountPlan(plans, h, env0);
      }
    }

    /** The loop over the plans; the boot environment stays as it is. */
    method HandlePlans(plans: seq<Plan>, ghost h: seq<Moment>, ghost env0: Env) returns (ok: bool)
      requires Valid() && ValidPlans(hash, slots, plans)
      requires SafeSince(h, plans, env0)
      requires MarkedDown(loader, slots, plans, env) && OthersGood(loader, slots, plans, env0, env)
      requires completed == 0
      modifies this`contents, this`saved, this`status, this`history, this`whole, this`completed, this`troubled
      ensures old(troubled) || !ok ==> troubled
      ensures Valid() && SafeSince(h, plans, env0)
      ensures ok ==> completed == |plans| && AllHeld(hash, plans, contents)
      ensures ok ==> AllRecorded(plans, status) && AllRecorded(plans, saved)
      ensures ok && plans != [] ==> history[|history| - 1] == At()
      ensures old(whole) <= whole <= old(whole) + Payloads(plans)
    {
      for i := 0 to |plans|
        invariant Valid() && SafeSince(h, plans, env0) && (old(troubled) ==> troubled)
        invariant old(whole) <= whole <= old(whole) + Payloads(plans)
        invariant i > 0 ==> history[|history| - 1] == At()
        invariant completed == i && AllHeld(hash, plans[..i], contents)
        invariant AllRecorded(plans[..i], status) && AllRecorded(plans[..i], saved)
      {
        ok := HandleNext(plans, i, h, env0);
        if !ok {
          return;
        }
      }
      assert plans[..|plans|] == plans;
      return true;
    }

    /** Marks the target bad, as the first thing that is stored. */
    method MarkTargetBad(slot: Slot, plans: seq<Plan>) returns (ok: bool)
      requires Valid() && ValidPlans(hash, slots, plans)
      requires exists i :: 0 <= i < |plans| && BootMarked(plans[i]) && plans[i].target.slot == slot &&
                 forall j :: 0 <= j < |plans| && j != i ==> !BootMarked(plans[j])
      modifies this`env, this`history, this`troubled
      ensures old(troubled) || !ok ==> troubled
      ensures Valid() && SafeSince(old(history), plans, old(env))
      ensures ok ==> MarkedDown(loader, slots, plans, env) && OthersGood(loader, slots, plans, old(env), env)
      ensures slot in slots && Handled(slot) && forall s :: Marks(plans, s) <==> s == slot
    {
      ghost var i :| 0 <= i < |plans| && BootMarked(plans[i]) && plans[i].target.slot == slot &&
                     forall j :: 0 <= j < |plans| && j != i ==> !BootMarked(plans[j]);
      MarksUnique(plans, i, slot);
      ok := BootOperation(MarkState(slot, false));
      forall e | e in Writes(loader, old(env), slots, MarkState(slot, false))
        ensures MarkedDown(loader, slots, plans, e) && OthersGood(loader, slots, plans, old(env), e)
      {
        AfterMarkBad(loader, slots, plans, old(env), slot, e);
      }
      SafeExtends(loader, hash, slots, plans, old(env), old(history), old(history), history);
    }

    /**
     The default handler. Whatever happens, and wherever it is cut short, every state
     it leaves on the storage is safe; if it succeeds, all planned slots hold their
     images and the marked slot is primary (unless it is to be left alone).
     */
    method DefaultHandler(plans: seq<Plan>) returns (ok: bool)
      requires Valid() && ValidPlans(hash, slots, plans)
      modifies this`env, this`contents, this`saved, this`status, this`history, this`whole, this`completed,
               this`vouched, this`troubled
      ensures old(troubled) ==> troubled
      ensures ok || troubled || TwoMarked(plans)
              || exists s :: Marks(plans, s) && Handled(s) && Writes(loader, env, slots, MakePrimary(s)) == []
      ensures Valid() && SafeSince(old(history), plans, old(env))
      ensures old(vouched) <= vouched
      ensures forall v :: v in vouched && v !in old(vouched) ==> VouchedBy(plans, v)
      ensures old(whole) <= whole <= old(whole) + Payloads(plans)
      ensures (forall p :: p in plans ==> !BootMarked(p)) ==> env == old(env)
      ensures ok ==> AllDone(hash, plans, At())
      ensures ok ==> forall s :: Marks(plans, s) ==>
                if activateInstalled then PrimaryOf(loader, env, slots) == Ok(s) else Down(loader, slots, env, s)
    {
      completed := 0;
      var mark := Prepare(plans);
      if mark.Err? {
        return false;
      }
      ok := Proceed(mark.value, plans, old(history), old(env));
    }

    /** With the target down: all plans, pruning, and activating the target. */
    method Proceed(mark: Option<Slot>, plans: seq<Plan>, ghost h: seq<Moment>, ghost env0: Env) returns (ok: bool)
      requires Valid() && ValidPlans(hash, slots, plans) && completed == 0
      requires SafeSince(h, plans, env0)
      requires MarkedDown(loader, slots, plans, env) && OthersGood(loader, slots, plans, env0, env)
      requires forall s :: Marks(plans, s) <==> mark == Some(s)
      requires mark.Some? ==> mark.value in slots && Handled(mark.value)
      modifies this`env, this`contents, this`saved, this`status, this`history, this`whole, this`completed,
               this`vouched, this`troubled
      ensures Valid() && SafeSince(h, plans, env0)
      ensures old(vouched) <= vouched && (old(troubled) ==> troubled)
      ensures forall v :: v in vouched && v !in old(vouched) ==> VouchedBy(plans, v)
      ensures old(whole) <= whole <= old(whole) + Payloads(plans)
      ensures mark.None? ==> env == old(env)
      ensures ok ==> AllDone(hash, plans, At())
      ensures ok && mark.Some? ==>
                if activateInstalled then PrimaryOf(loader, env, slots) == Ok(mark.value)
                else Down(loader, slots, env, mark.value)
      ensures ok || troubled || (mark.Some? && Writes(loader, env, slots, MakePrimary(mark.value)) == [])
    {
      ok := CarryOut(plans, h, env0);
      if ok {
        ok := Finish(mark, plans, h, env0);
      }
    }

    /** With all plans done: pruning, and activating the target unless it is to be left alone. */
    method Finish(mark: Option<Slot>, plans: seq<Plan>, ghost h: seq<Moment>, ghost env0: Env) returns (ok: bool)
      requires Valid() && SafeSince(h, plans, env0) && AllDone(hash, plans, At()) && AllRecorded(plans, status)
      requires OthersGood(loader, slots, plans, env0, env)
      requires mark.Some? ==>
                 && mark.value in slots && Handled(mark.value) && Down(loader, slots, env, mark.value)
                 && IsVouched(Now(), vouched, mark.value, |history| - 1)
      modifies this`env, this`saved, this`status, this`history, this`troubled
      ensures Valid() && SafeSince(h, plans, env0) && old(history) <= history && (old(troubled) ==> troubled)
      ensures AllDone(hash, plans, At())
      ensures mark.None? ==> env == old(env)
      ensures ok && mark.Some? ==>
                if activateInstalled then PrimaryOf(loader, env, slots) == Ok(mark.value)
                else Down(loader, slots, env, mark.value)
      ensures ok || troubled || (mark.Some? && Writes(loader, env, slots, MakePrimary(mark.value)) == [])
    {
      ok := Attempt();
      if ok && mark.Some? && activateInstalled {
        ok := Activate(mark.value, plans, h, env0);
      }
    }

    /** Finds the slot to be marked, and marks it bad. */
    method Prepare(plans: seq<Plan>) returns (mark: Result<Option<Slot>>)
      requires Valid() && ValidPlans(hash, slots, plans)
      modifies this`env, this`history, this`troubled
      ensures old(troubled) ==> troubled
      ensures mark.Err? ==> troubled || TwoMarked(plans)
      ensures Valid() && SafeSince(old(history), plans, old(env))
      ensures (forall p :: p in plans ==> !BootMarked(p)) ==> env == old(env)
      ensures mark.Ok? ==> MarkedDown(loader, slots, plans, env) && OthersGood(loader, slots, plans, old(env), env)
      ensures mark.Ok? ==> forall s :: Marks(plans, s) <==> mark.value == Some(s)
      ensures mark.Ok? && mark.value.Some? ==> mark.value.value in slots && Handled(mark.value.value)
    {
      mark := GetBootMarkSlot(plans);
      if mark.Err? {
        return;
      }
      var ok := Attempt();
      if ok && mark.value.Some? {
        ok := MarkTargetBad(mark.value.value, plans);
      }
      if !ok {
        mark := Err;
      }
    }

    /** All plans, and what they are vouched for if they succeed. */
    method CarryOut(plans: seq<Plan>, ghost h: seq<Moment>, ghost env0: Env) returns (ok: bool)
      requires Valid() && ValidPlans(hash, slots, plans)
      requires SafeSince(h, plans, env0)
      requires MarkedDown(loader, slots, plans, env) && OthersGood(loader, slots, plans, env0, env)
      requires completed == 0
      modifies this`contents, this`saved, this`status, this`history, this`whole, this`completed,
               this`vouched, this`troubled
      ensures old(troubled) || !ok ==> troubled
      ensures Valid() && SafeSince(h, plans, env0)
      ensures ok ==> AllDone(hash, plans, At()) && AllRecorded(plans, status)
      ensures ok ==> forall s :: Marks(plans, s) ==> IsVouched(Now(), vouched, s, |history| - 1)
      ensures old(vouched) <= vouched
      ensures forall v :: v in vouched && v !in old(vouched) ==> VouchedBy(plans, v)
      ensures old(whole) <= whole <= old(whole) + Payloads(plans)
    {
      ok := HandlePlans(plans, h, env0);
      if ok {
        Vouch(plans);
      }
    }

    /** A voucher of an installation: all of its plans had succeeded, and one of them is for the slot. */
    ghost predicate VouchedBy(plans: seq<Plan>, v: Voucher)
      reads this`history
    {
      && v.since < |history| && AllDone(hash, plans, history[v.since])
      && exists p :: p in plans && p.SlotPlan? && p.target.slot.name == v.name
    }

    /** From now on, what the planned slots hold may be booted. */
    ghost method Vouch(plans: seq<Plan>)
      requires Valid() && AllDone(hash, plans, At()) && ValidPlans(hash, slots, plans)
      requires plans != [] ==> history[|history| - 1] == At()
      modifies this`vouched
      ensures Valid() && old(vouched) <= vouched
      ensures forall v :: v in vouched && v !in old(vouched) ==> VouchedBy(plans, v)
      ensures forall s :: Marks(plans, s) ==> IsVouched(Now(), vouched, s, |history| - 1)
    {
      var more := PlanVouchers(plans, contents, |history| - 1);
      TrailGrows(loader, hash, whole, slots, history, vouched, whole, vouched + more);
      vouched := vouched + more;
      forall s | Marks(plans, s) ensures IsVouched(Now(), vouched, s, |history| - 1) {
        var i :| 0 <= i < |plans| && BootMarked(plans[i]) && plans[i].target.slot == s;
        assert ValidPlan(hash, slots, plans[i]);
        assert Voucher(s.name, contents[s.name], |history| - 1) in more;
      }
    }

    /** Makes the slot primary once all plans have succeeded. */
    method SetPrimary(slot: Slot, plans: seq<Plan>, ghost h: seq<Moment>, ghost env0: Env) returns (ok: bool)
      requires Valid() && slot in slots && Handled(slot)
      requires SafeSince(h, plans, env0) && AllDone(hash, plans, At())
      requires IsVouched(Now(), vouched, slot, |history| - 1)
      requires OthersGood(loader, slots, plans, env0, env)
      modifies this`env, this`history, this`troubled
      ensures old(troubled) ==> troubled
      ensures ok || troubled || Writes(loader, env, slots, MakePrimary(slot)) == []
      ensures Valid() && SafeSince(h, plans, env0) && OthersGood(loader, slots, plans, env0, env)
      ensures old(history) <= history
      ensures ok ==> PrimaryOf(loader, env, slots) == Ok(slot)
    {
      ok := BootOperation(MakePrimary(slot));
      forall e | e in Writes(loader, old(env), slots, MakePrimary(slot))
        ensures OthersGood(loader, slots, plans, env0, e)
      {
        AfterMakePrimary(loader, slots, plans, env0, old(env), slot, e);
      }
      SafeExtends(loader, hash, slots, plans, env0, h, old(history), history);
      if ok {
        SetPrimaryThenGet(loader, old(env), slots, slots, slot);
      }
    }

    /** Marks the slot active; failing to save the activation time is ignored. */
    method Activate(slot: Slot, plans: seq<Plan>, ghost h: seq<Moment>, ghost env0: Env) returns (ok: bool)
      requires Valid() && slot in slots && Handled(slot)
      requires SafeSince(h, plans, env0) && AllDone(hash, plans, At()) && AllRecorded(plans, status)
      requires IsVouched(Now(), vouched, slot, |history| - 1)
      requires OthersGood(loader, slots, plans, env0, env)
      modifies this`env, this`saved, this`status, this`history, this`troubled
      ensures old(troubled) ==> troubled
      ensures ok || troubled || Writes(loader, env, slots, MakePrimary(slot)) == []
      ensures Valid() && SafeSince(h, plans, env0) && old(history) <= history
      ensures AllDone(hash, plans, At())
      ensures ok ==> PrimaryOf(loader, env, slots) == Ok(slot)
    {
      LoadStatus();
      StayRecorded(plans, old(status), status);
      ok := SetPrimary(slot, plans, h, env0);
      if ok {
        SaveAfterwards(plans, h, env0);
      }
    }

    /** Saving the statuses once all plans have succeeded; that it may fail is of no consequence. */
    method SaveAfterwards(plans: seq<Plan>, ghost h: seq<Moment>, ghost env0: Env)
      requires Valid() && SafeSince(h, plans, env0) && AllDone(hash, plans, At()) && AllRecorded(plans, status)
      requires OthersGood(loader, slots, plans, env0, env)
      modifies this`saved, this`history, this`troubled
      ensures old(troubled) ==> troubled
      ensures Valid() && SafeSince(h, plans, env0) && old(history) <= history && AllDone(hash, plans, At())
    {
      var _ := SaveStatus();
      SafeExtends(loader, hash, slots, plans, env0, h, old(history), history);
    }

  // ---- lifetimes -------------------------------------------------------------------

    /** Power loss: the process restarts on some state the storage went through. */
    method Crash(i: nat)
      requires Valid() && i < |history|
      modifies this`env, this`contents, this`saved, this`status, this`completed, this`history
      ensures Valid() && history == old(history) + [At()] && Now() == old(history)[i].disk && completed == 0
      ensures status == map[]
    {
      TrailAt(loader, hash, whole, slots, history, vouched, i);
      FitLater(loader, slots, history[i].disk, vouched, i, |history|, history[i].disk.statuses);
      env, contents, saved := history[i].disk.env, history[i].disk.contents, history[i].disk.statuses;
      completed := 0;
      status := map[];
      TrailMore(loader, hash, whole, slots, history, vouched, At());
      history := history + [At()];
    }

    /**
     Any number of installations and markings by hand, each of which may be cut short at any
     point of its writes. At no time does a status "ok" with a digest lie about the slot. And whatever
     slot is good or primary at any time holds what it held at first, if it was not disabled
     then, or what it held when all plans of an installation had succeeded before.
     */
    method Lifetime(bundles: seq<seq<Plan>>)
      requires Valid()
      requires forall b :: b in bundles ==> ValidPlans(hash, slots, b)
      modifies this`env, this`contents, this`saved, this`status, this`completed, this`history, this`vouched,
               this`whole, this`troubled
      ensures Valid() && old(history) <= history
      ensures forall m :: m in history ==>
                Honest(hash, m.disk.statuses, m.disk.contents) && Intact(whole, m.disk.statuses, m.disk.contents)
      ensures forall i, s :: 0 <= i < |history| && s in slots && Handled(s) && Bootable(history[i].disk.env, s) ==>
                IsVouched(history[i].disk, vouched, s, i)
      ensures forall v :: v in vouched ==> v in old(vouched) || exists b :: b in bundles && VouchedBy(b, v)
      ensures forall w :: w in whole ==> w in old(whole) || exists b :: b in bundles && w in Payloads(b)
    {
      for r := 0 to |bundles|
        invariant Valid() && old(history) <= history
        invariant forall v :: v in vouched ==> v in old(vouched) || exists b :: b in bundles && VouchedBy(b, v)
        invariant forall w :: w in whole ==> w in old(whole) || exists b :: b in bundles && w in Payloads(b)
      {
        InstallOnce(bundles[r]);
        assert bundles[r] in bundles;
      }
      AllBootable();
    }

    predicate Bootable(env: Env, s: Slot)
      requires Handled(s)
    {
      StateOf(loader, env, s.bootname.value) == Ok(true) || PrimaryOf(loader, env, slots) == Ok(s)
    }

    lemma AllBootable()
      requires Valid()
      ensures forall m :: m in history ==>
                Honest(hash, m.disk.statuses, m.disk.contents) && Intact(whole, m.disk.statuses, m.disk.contents)
      ensures forall i, s :: 0 <= i < |history| && s in slots && Handled(s) && Bootable(history[i].disk.env, s) ==>
                IsVouched(history[i].disk, vouched, s, i)
    {
      forall i | 0 <= i < |history|
        ensures Honest(hash, history[i].disk.statuses, history[i].disk.contents)
        ensures Intact(whole, history[i].disk.statuses, history[i].disk.contents)
      {
        TrailAt(loader, hash, whole, slots, history, vouched, i);
      }
      forall i, s | 0 <= i < |history| && s in slots && Handled(s) && Bootable(history[i].disk.env, s)
        ensures IsVouched(history[i].disk, vouched, s, i)
      {
        TrailAt(loader, hash, whole, slots, history, vouched, i);
        BootableIsVouched(loader, slots, history[i].disk, vouched, i, s);
      }
    }

    /** Between installations slots may be marked bad, and a slot that can boot may be marked good or made primary. */
    method MarkByHand(op: BootOp)
      requires Valid() && Handled(op.slot) && op.slot in slots
      requires op == MarkState(op.slot, false) || Bootable(env, op.slot)
      modifies this`env, this`history, this`troubled
      ensures Valid() && StoredOnly(old(history), history, Writes(loader, old(env), slots, op), old(At()))
    {
      if op != MarkState(op.slot, false) {
        BootableIsVouched(loader, slots, Now(), vouched, |history| - 1, op.slot);
      }
      var _ := BootOperation(op);
    }

    /** One installation after maybe a marking by hand, and maybe a crash at any of their writes. */
    method InstallOnce(plans: seq<Plan>)
      requires Valid() && ValidPlans(hash, slots, plans)
      modifies this`env, this`contents, this`saved, this`status, this`completed, this`history, this`vouched,
               this`whole, this`troubled
      ensures Valid() && old(history) <= history && old(vouched) <= vouched
      ensures forall v :: v in vouched && v !in old(vouched) ==> VouchedBy(plans, v)
      ensures old(whole) <= whole <= old(whole) + Payloads(plans)
    {
      var begin := |history| - 1;
      var op: BootOp := *;
      if Handled(op.slot) && op.slot in slots && (op == MarkState(op.slot, false) || Bootable(env, op.slot)) {
        MarkByHand(op);
      }
      var _ := DefaultHandler(plans);
      var crashed: bool := *;
      if crashed {
        var i :| begin <= i < |history|;
        Crash(i);
      }
    }
  }
}
