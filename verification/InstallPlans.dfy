/**
 Making installation plans: one image for every slot class of the manifest, matched with
 the target group, and every artifact image with its repository.
 */
module InstallPlans {
  import opened Wrappers
  import opened Collections
  import opened Manifest
  import opened TargetGroup
  import SlotTree
  import BootModel
  import Install

  datatype Plan = SlotPlan(image: Image, target: string) | ArtifactPlan(image: Image, repo: string)

  /** What the system configuration contributes. */
  datatype System = System(variant: Option<string>, readonly: set<string>, repos: set<string>)

  /** The manifest parser gives every image a class. */
  predicate Classed(images: seq<Image>) {
    forall i :: 0 <= i < |images| ==> images[i].slotclass.Some?
  }

  predicate ForSlot(i: Image, c: string) { i.artifact.None? && i.slotclass == Some(c) }

  // ---- slot classes of the manifest ---------------------------------------------------------------

  function SlotClasses(images: seq<Image>): seq<string>
    requires Classed(images)
  {
    if images == [] then []
    else
      var front, last := images[..|images| - 1], images[|images| - 1];
      if last.artifact.Some? then SlotClasses(front)
      else RemoveFast(SlotClasses(front), last.slotclass.value) + [last.slotclass.value]
  }

  lemma {:induction false} SlotClassesMeaning(images: seq<Image>)
    requires Classed(images)
    ensures Distinct(SlotClasses(images))
    ensures forall c :: c in SlotClasses(images) <==> exists i :: 0 <= i < |images| && ForSlot(images[i], c)
  {
    if images != [] {
      var front, last := images[..|images| - 1], images[|images| - 1];
      SlotClassesMeaning(front);
      if last.artifact.None? {
        RemoveFastMeaning(SlotClasses(front), last.slotclass.value);
      }
      forall c ensures c in SlotClasses(images) <==> exists i :: 0 <= i < |images| && ForSlot(images[i], c) {
        if i :| 0 <= i < |images| && ForSlot(images[i], c) {
          assert i < |front| ==> ForSlot(front[i], c);
        }
        if i :| 0 <= i < |front| && ForSlot(front[i], c) {
          assert ForSlot(images[i], c);
        }
        assert last.artifact.None? && last.slotclass == Some(c) ==> ForSlot(images[|images| - 1], c);
      }
    }
  }

  method GetAllManifestSlotClasses(images: seq<Image>) returns (classes: seq<string>)
    requires Classed(images)
    ensures classes == SlotClasses(images)
  {
    classes := [];
    for i := 0 to |images|
      invariant classes == SlotClasses(images[..i])
    {
      assert images[..i + 1][..i] == images[..i];
      if images[i].artifact.None? {
        classes := RemoveFast(classes, images[i].slotclass.value) + [images[i].slotclass.value];
      }
    }
    assert images[..|images|] == images;
  }

  // ---- the image of a class ------------------------------------------------------------------------

  predicate Exact(i: Image, c: string, variant: Option<string>) {
    i.slotclass == Some(c) && i.variant.Some? && i.variant == variant
  }

  predicate Default(i: Image, c: string) { i.slotclass == Some(c) && i.variant.None? }

  /** The scan goes on with the best image so far, and ends at the system's variant. */
  function Scan(images: seq<Image>, c: string, variant: Option<string>, best: Option<Image>): Option<Image> {
    if images == [] then best
    else if Exact(images[0], c, variant) then Some(images[0])
    else Scan(images[1..], c, variant, if Default(images[0], c) && best.None? then Some(images[0]) else best)
  }

  ghost predicate FirstExact(images: seq<Image>, c: string, variant: Option<string>, i: nat) {
    && i < |images| && images[i].slotclass == Some(c) && images[i].variant.Some? && images[i].variant == variant
    && forall j :: 0 <= j < i ==>
         !(images[j].slotclass == Some(c) && images[j].variant.Some? && images[j].variant == variant)
  }

  ghost predicate FirstDefault(images: seq<Image>, c: string, i: nat) {
    && i < |images| && images[i].slotclass == Some(c) && images[i].variant.None?
    && forall j :: 0 <= j < i ==> !(images[j].slotclass == Some(c) && images[j].variant.None?)
  }

  ghost predicate NoExact(images: seq<Image>, c: string, variant: Option<string>) {
    forall i :: 0 <= i < |images| ==>
      !(images[i].slotclass == Some(c) && images[i].variant.Some? && images[i].variant == variant)
  }

  ghost predicate NoDefault(images: seq<Image>, c: string) {
    forall i :: 0 <= i < |images| ==> !(images[i].slotclass == Some(c) && images[i].variant.None?)
  }

  lemma {:induction false} ScanMeaning(images: seq<Image>, c: string, variant: Option<string>, best: Option<Image>)
    ensures var r := Scan(images, c, variant, best);
            && (forall i: nat :: FirstExact(images, c, variant, i) ==> r == Some(images[i]))
            && (NoExact(images, c, variant) && best.Some? ==> r == best)
            && (NoExact(images, c, variant) && best.None? && NoDefault(images, c) ==> r == None)
            && (NoExact(images, c, variant) && best.None? ==> forall i: nat :: FirstDefault(images, c, i) ==>
                r == Some(images[i]))
  {
    if images != [] && !Exact(images[0], c, variant) {
      var rest := images[1..];
      ScanMeaning(rest, c, variant, if Default(images[0], c) && best.None? then Some(images[0]) else best);
      forall i: nat | FirstExact(images, c, variant, i) ensures i > 0 && FirstExact(rest, c, variant, i - 1) {
        assert forall j :: 0 <= j < i - 1 ==> rest[j] == images[j + 1];
      }
      forall i: nat | FirstDefault(images, c, i) && i > 0 ensures FirstDefault(rest, c, i - 1) {
        assert forall j :: 0 <= j < i - 1 ==> rest[j] == images[j + 1];
      }
      assert forall i :: 0 <= i < |rest| ==> rest[i] == images[i + 1];
    }
  }

  /** The image for a class: the first one of the system's variant, or else the first one without variant. */
  lemma ImageOfClass(images: seq<Image>, c: string, variant: Option<string>, image: Image)
    ensures Scan(images, c, variant, None) == Some(image) <==>
            || (exists i: nat :: FirstExact(images, c, variant, i) && images[i] == image)
            || (NoExact(images, c, variant) && exists i: nat :: FirstDefault(images, c, i) && images[i] == image)
    ensures Scan(images, c, variant, None) == None <==> NoExact(images, c, variant) && NoDefault(images, c)
  {
    ScanMeaning(images, c, variant, None);
    if !NoExact(images, c, variant) {
      var i :| 0 <= i < |images| && Exact(images[i], c, variant);
      var k := LeastExact(images, c, variant, i);
      assert FirstExact(images, c, variant, k);
    } else if !NoDefault(images, c) {
      var i :| 0 <= i < |images| && Default(images[i], c);
      var k := LeastDefault(images, c, i);
      assert FirstDefault(images, c, k);
    }
  }

  lemma {:induction false} LeastExact(images: seq<Image>, c: string, variant: Option<string>, i: nat) returns (k: nat)
    requires i < |images| && Exact(images[i], c, variant)
    ensures FirstExact(images, c, variant, k)
  {
    if j: nat :| j < i && Exact(images[j], c, variant) {
      k := LeastExact(images, c, variant, j);
    } else {
      k := i;
    }
  }

  lemma {:induction false} LeastDefault(images: seq<Image>, c: string, i: nat) returns (k: nat)
    requires i < |images| && Default(images[i], c)
    ensures FirstDefault(images, c, k)
  {
    if j: nat :| j < i && Default(images[j], c) {
      k := LeastDefault(images, c, j);
    } else {
      k := i;
    }
  }

  method FindImage(images: seq<Image>, c: string, variant: Option<string>) returns (matching: Option<Image>)
    ensures matching == Scan(images, c, variant, None)
  {
    matching := None;
    for i := 0 to |images|
      invariant Scan(images[i..], c, variant, matching) == Scan(images, c, variant, None)
    {
      assert images[i..][1..] == images[i + 1..];
      if images[i].slotclass == Some(c) {
        if images[i].variant.None? {
          if matching.None? {
            matching := Some(images[i]);
          }
        } else if images[i].variant == variant {
          return Some(images[i]);
        }
      }
    }
  }

  // ---- the plans -------------------------------------------------------------------------------------

  type Supports = (Image, string) -> bool

  /** The plan for a class, if there are an image, a writable target, and a handler that supports both. */
  function PlanFor(images: seq<Image>, c: string, group: map<string, string>, s: System,
                   supports: Supports): Result<Plan> {
    match Scan(images, c, s.variant, None)
    case None => Err
    case Some(image) =>
      if c !in group || group[c] in s.readonly || !supports(image, group[c]) then Err
      else Ok(SlotPlan(image, group[c]))
  }

  /** What a slot plan is made of: the image for the class, and the writable target of the class, if there is a handler. */
  lemma PlanForIff(images: seq<Image>, c: string, group: map<string, string>, s: System, supports: Supports,
                   image: Image, target: string)
    ensures PlanFor(images, c, group, s, supports) == Ok(SlotPlan(image, target)) <==>
            && ((exists i: nat :: FirstExact(images, c, s.variant, i) && images[i] == image) ||
                (NoExact(images, c, s.variant) && exists i: nat :: FirstDefault(images, c, i) && images[i] == image))
            && c in group && group[c] == target && target !in s.readonly && supports(image, target)
    ensures PlanFor(images, c, group, s, supports).Ok? ==> PlanFor(images, c, group, s, supports).value.SlotPlan?
  {
    ImageOfClass(images, c, s.variant, image);
  }

  ghost predicate Planned(images: seq<Image>, classes: seq<string>, group: map<string, string>, s: System,
                          supports: Supports,
                          plans: seq<Plan>)
  {
    |plans| == |classes| &&
    forall i :: 0 <= i < |classes| ==> PlanFor(images, classes[i], group, s, supports) == Ok(plans[i])
  }

  /** The artifact images of the manifest, in their order. */
  function Artifacts(images: seq<Image>): seq<Image> {
    if images == [] then []
    else Artifacts(images[..|images| - 1]) + if images[|images| - 1].artifact.Some? then [images[|images| - 1]] else []
  }

  lemma {:induction false} ArtifactsMeaning(images: seq<Image>)
    ensures forall a :: a in Artifacts(images) <==> a in images && a.artifact.Some?
  {
    if images != [] {
      ArtifactsMeaning(images[..|images| - 1]);
      assert images == images[..|images| - 1] + [images[|images| - 1]];
    }
  }

  /** Their order is that of the manifest. */
  lemma {:induction false} ArtifactsConcat(a: seq<Image>, b: seq<Image>)
    ensures Artifacts(a + b) == Artifacts(a) + Artifacts(b)
    decreases |b|
  {
    if b == [] {
      assert a + b == a;
    } else {
      ArtifactsConcat(a, b[..|b| - 1]);
      assert (a + b)[..|a + b| - 1] == a + b[..|b| - 1];
    }
  }

  predicate ArtifactPlanned(image: Image, s: System, p: Plan) {
    image.slotclass.Some? && p == ArtifactPlan(image, image.slotclass.value) && image.slotclass.value in s.repos
  }

  /** The plans are those of the slot classes, then those of the artifacts. */
  ghost predicate AllPlanned(images: seq<Image>, group: map<string, string>, s: System, supports: Supports,
                             plans: seq<Plan>)
    requires Classed(images)
  {
    var n, artifacts := |SlotClasses(images)|, Artifacts(images);
    && |plans| == n + |artifacts| && plans != []
    && Planned(images, SlotClasses(images), group, s, supports, plans[..n])
    && forall i :: 0 <= i < |artifacts| ==> ArtifactPlanned(artifacts[i], s, plans[n..][i])
  }

  /** An image that a plan can be made for. */
  ghost predicate ImagePlannable(images: seq<Image>, image: Image, group: map<string, string>, s: System,
                                 supports: Supports)
    requires image.slotclass.Some?
  {
    if image.artifact.Some? then image.slotclass.value in s.repos
    else PlanFor(images, image.slotclass.value, group, s, supports).Ok?
  }

  /** When plans can be made: for every image, and for at least one. */
  ghost predicate Plannable(images: seq<Image>, group: map<string, string>, s: System, supports: Supports)
    requires Classed(images)
  {
    images != [] && forall i :: 0 <= i < |images| ==> ImagePlannable(images, images[i], group, s, supports)
  }

  method SlotPlans(images: seq<Image>, classes: seq<string>, group: map<string, string>, s: System, supports: Supports)
    returns (plans: Result<seq<Plan>>)
    ensures plans.Ok? ==> Planned(images, classes, group, s, supports, plans.value)
    ensures plans.Err? ==> exists c :: c in classes && PlanFor(images, c, group, s, supports).Err?
  {
    var made: seq<Plan> := [];
    for i := 0 to |classes|
      invariant Planned(images, classes[..i], group, s, supports, made)
    {
      var image := FindImage(images, classes[i], s.variant);
      assert classes[i] in classes;
      if image.None? {
        return Err;
      }
      if classes[i] !in group {
        return Err;
      }
      var target := group[classes[i]];
      if target in s.readonly {
        return Err;
      }
      if !supports(image.value, target) {
        return Err;
      }
      made := made + [SlotPlan(image.value, target)];
    }
    assert classes[..|classes|] == classes;
    plans := Ok(made);
  }

  method ArtifactPlans(images: seq<Image>, s: System) returns (plans: Result<seq<Plan>>)
    requires Classed(images)
    ensures plans.Ok? ==> |plans.value| == |Artifacts(images)|
    ensures plans.Ok? ==> forall i :: 0 <= i < |plans.value| ==>
              ArtifactPlanned(Artifacts(images)[i], s, plans.value[i])
    ensures plans.Err? ==>
              exists i :: 0 <= i < |images| && images[i].artifact.Some? && images[i].slotclass.value !in s.repos
  {
    var made: seq<Plan> := [];
    for i := 0 to |images|
      invariant |made| == |Artifacts(images[..i])|
      invariant forall k :: 0 <= k < |made| ==> ArtifactPlanned(Artifacts(images[..i])[k], s, made[k])
    {
      assert images[..i + 1][..i] == images[..i];
      if images[i].artifact.Some? {
        if images[i].slotclass.value !in s.repos {
          return Err;
        }
        made := made + [ArtifactPlan(images[i], images[i].slotclass.value)];
      }
    }
    assert images[..|images|] == images;
    plans := Ok(made);
  }

  /** Plans for all images of the manifest; `ready` tells whether the repositories could be read and pruned. */
  method MakePlans(images: seq<Image>, group: map<string, string>, s: System, supports: Supports, ready: bool)
    returns (plans: Result<seq<Plan>>)
    requires Classed(images)
    ensures plans.Ok? <==> ready && Plannable(images, group, s, supports)
    ensures plans.Ok? ==> AllPlanned(images, group, s, supports, plans.value)
  {
    var classes := GetAllManifestSlotClasses(images);
    SlotClassesMeaning(images);
    var slotPlans := SlotPlans(images, classes, group, s, supports);
    if slotPlans.Err? {
      ghost var c :| c in classes && PlanFor(images, c, group, s, supports).Err?;
      ghost var i :| 0 <= i < |images| && ForSlot(images[i], c);
      return Err;
    }
    if !ready {
      return Err;
    }
    var artifactPlans := ArtifactPlans(images, s);
    if artifactPlans.Err? {
      return Err;
    }
    ArtifactsMeaning(images);
    AllImagesPlanned(images, group, s, supports, slotPlans.value);
    var all := slotPlans.value + artifactPlans.value;
    if |all| == 0 {
      return Err;
    }
    assert all[..|classes|] == slotPlans.value;
    plans := Ok(all);
  }

  lemma AllImagesPlanned(images: seq<Image>, group: map<string, string>, s: System, supports: Supports,
                         plans: seq<Plan>)
    requires Classed(images) && Planned(images, SlotClasses(images), group, s, supports, plans)
    requires forall a :: a in Artifacts(images) ==> a.slotclass.Some? && a.slotclass.value in s.repos
    ensures forall i :: 0 <= i < |images| ==> ImagePlannable(images, images[i], group, s, supports)
    ensures plans == [] && Artifacts(images) == [] <==> images == []
  {
    forall i | 0 <= i < |images| ensures ImagePlannable(images, images[i], group, s, supports) {
      ImageIsPlanned(images, group, s, supports, plans, i);
    }
    if images == [] {
      assert SlotClasses(images) == [] && Artifacts(images) == [];
    } else {
      ImageIsPlanned(images, group, s, supports, plans, 0);
    }
  }

  lemma ClassAt(images: seq<Image>, i: nat) returns (k: nat)
    requires Classed(images) && i < |images| && images[i].artifact.None?
    ensures k < |SlotClasses(images)| && SlotClasses(images)[k] == images[i].slotclass.value
  {
    SlotClassesMeaning(images);
    var c := images[i].slotclass.value;
    assert ForSlot(images[i], c);
    var classes := SlotClasses(images);
    assert c in classes;
    k :| 0 <= k < |classes| && classes[k] == c;
  }

  lemma ImageIsPlanned(images: seq<Image>, group: map<string, string>, s: System, supports: Supports,
                       plans: seq<Plan>, i: nat)
    requires Classed(images) && Planned(images, SlotClasses(images), group, s, supports, plans) && i < |images|
    requires forall a :: a in Artifacts(images) ==> a.slotclass.Some? && a.slotclass.value in s.repos
    ensures ImagePlannable(images, images[i], group, s, supports)
    ensures if images[i].artifact.Some? then Artifacts(images) != [] else plans != []
  {
    if images[i].artifact.Some? {
      ArtifactsMeaning(images);
      assert images[i] in Artifacts(images);
    } else {
      var k := ClassAt(images, i);
      assert PlanFor(images, SlotClasses(images)[k], group, s, supports) == Ok(plans[k]);
    }
  }

  // ---- what plans are good for -------------------------------------------------------------------------

  /** Slots are mapped for their own class, as target groups map them. */
  ghost predicate ByClass(v: Slots, group: map<string, string>) {
    forall c :: c in group ==> group[c] in v && v[group[c]].sclass == c
  }

  predicate PlansFor(plans: seq<Plan>, i: int, c: string) {
    0 <= i < |plans| && plans[i].SlotPlan? && plans[i].image.slotclass == Some(c)
  }

  /** The plans of the slot classes come first, in their order. */
  lemma PlanAt(images: seq<Image>, group: map<string, string>, s: System, supports: Supports, plans: seq<Plan>, i: nat)
    requires Classed(images) && AllPlanned(images, group, s, supports, plans) && i < |plans|
    ensures plans[i].SlotPlan? <==> i < |SlotClasses(images)|
    ensures plans[i].SlotPlan? ==>
              var c := SlotClasses(images)[i];
              && plans[i].image.slotclass == Some(c)
              && c in group && plans[i].target == group[c] && plans[i].target !in s.readonly
  {
    var classes := SlotClasses(images);
    if i < |classes| {
      assert PlanFor(images, classes[i], group, s, supports) == Ok(plans[..|classes|][i]);
      ImageOfClass(images, classes[i], s.variant, plans[i].image);
    } else {
      assert ArtifactPlanned(Artifacts(images)[i - |classes|], s, plans[|classes|..][i - |classes|]);
    }
  }

  /** Every slot image's class gets exactly one plan. */
  lemma OnePlanPerClass(images: seq<Image>, group: map<string, string>, s: System, supports: Supports,
                        plans: seq<Plan>, c: string)
    requires Classed(images) && AllPlanned(images, group, s, supports, plans)
    ensures (exists i :: 0 <= i < |images| && ForSlot(images[i], c)) <==> (exists i :: PlansFor(plans, i, c))
    ensures forall i, j :: PlansFor(plans, i, c) && PlansFor(plans, j, c) ==> i == j
  {
    var classes := SlotClasses(images);
    SlotClassesMeaning(images);
    forall i | PlansFor(plans, i, c) ensures i < |classes| && classes[i] == c {
      PlanAt(images, group, s, supports, plans, i);
    }
    if c in classes {
      var i: nat :| i < |classes| && classes[i] == c;
      PlanAt(images, group, s, supports, plans, i);
      assert PlansFor(plans, i, c);
    }
  }

  /** No two plans write the same slot, and every slot is written with an image of its class. */
  lemma OnePlanPerSlot(images: seq<Image>, group: map<string, string>, s: System, supports: Supports,
                       plans: seq<Plan>, v: Slots)
    requires Classed(images) && AllPlanned(images, group, s, supports, plans) && ByClass(v, group)
    ensures forall i, j :: 0 <= i < j < |plans| && plans[i].SlotPlan? && plans[j].SlotPlan? ==>
              plans[i].target != plans[j].target
    ensures forall i :: 0 <= i < |plans| && plans[i].SlotPlan? ==>
              && plans[i].target in v && plans[i].image.slotclass == Some(v[plans[i].target].sclass)
              && plans[i].target !in s.readonly
  {
    SlotClassesMeaning(images);
    forall i | 0 <= i < |plans| && plans[i].SlotPlan?
      ensures i < |SlotClasses(images)| && plans[i].target in v && v[plans[i].target].sclass == SlotClasses(images)[i]
      ensures plans[i].image.slotclass == Some(SlotClasses(images)[i]) && plans[i].target !in s.readonly
    {
      PlanAt(images, group, s, supports, plans, i);
    }
  }

  /**
   With the target group of a system that booted from a root slot, or from outside, the
   planned slots are inactive: neither the booted slot nor one of its children is written.
   */
  lemma PlansSpareTheRunningSystem(images: seq<Image>, s: System, supports: Supports, plans: seq<Plan>,
                                   v: Slots, order: seq<string>, booted: Option<string>)
    requires FlatSlots(v) && Lists(order, v) && (booted.Some? ==> booted.value in v && v[booted.value].parent.None?)
    requires FlatSlots(WithStates(v, booted)) && Lists(order, WithStates(v, booted))
    requires Classed(images) && AllPlanned(images, Target(WithStates(v, booted), order), s, supports, plans)
    ensures var w := WithStates(v, booted);
            && ByClass(w, Target(w, order))
            && forall i :: 0 <= i < |plans| && plans[i].SlotPlan? ==>
                plans[i].target in w && w[plans[i].target].state == SlotTree.Inactive
  {
    var w := WithStates(v, booted);
    var group := Target(w, order);
    forall c | c in group ensures group[c] in w && w[group[c]].sclass == c {
      TargetMeaning(w, order, c);
    }
    BootedRootIsSpared(v, order, booted);
    OnePlanPerSlot(images, group, s, supports, plans, w);
    forall i | 0 <= i < |plans| && plans[i].SlotPlan? ensures w[plans[i].target].state == SlotTree.Inactive {
      PlanAt(images, group, s, supports, plans, i);
    }
  }

  // ---- plans for the default handler --------------------------------------------------------------------

  /** A plan as the default handler sees it, given the configured slots and what the images are. */
  function ForHandler(p: Plan, target: map<string, Install.Target>, content: Image -> Install.Image): Install.Plan
    requires p.SlotPlan? ==> p.target in target
  {
    match p
    case SlotPlan(image, name) => Install.SlotPlan(content(image), target[name])
    case ArtifactPlan(_, _) => Install.ArtifactPlan
  }

  /**
   The plans are what the default handler relies on; SlotTree.ResolveParents sees to it that no child
   has a bootname.
   */
  lemma PlansAreValid(images: seq<Image>, group: map<string, string>, s: System, supports: Supports, plans: seq<Plan>,
                      v: Slots,
                      slots: seq<BootModel.Slot>, target: map<string, Install.Target>, content: Image -> Install.Image,
                      hash: Install.Content -> Install.Digest, handled: seq<Install.Plan>)
    requires Classed(images) && AllPlanned(images, group, s, supports, plans) && ByClass(v, group)
    requires forall n :: n in v ==> n in target && target[n].slot in slots && target[n].slot.name == n
    requires forall n :: n in v && target[n].hasParent ==> target[n].slot.bootname.None?
    requires forall i: Image :: content(i).digest.Some? ==> hash(content(i).payload) == content(i).digest.value
    requires |handled| == |plans| && forall i :: 0 <= i < |plans| ==>
               (plans[i].SlotPlan? ==> plans[i].target in target) && handled[i] == ForHandler(plans[i], target, content)
    ensures Install.ValidPlans(hash, slots, handled)
  {
    OnePlanPerSlot(images, group, s, supports, plans, v);
    forall i, j | 0 <= i < j < |handled| && handled[i].SlotPlan? && handled[j].SlotPlan?
      ensures handled[i].target.slot.name != handled[j].target.slot.name
    {
      assert plans[i].SlotPlan? && plans[j].SlotPlan?;
    }
  }
}
