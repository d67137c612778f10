/**
 The key file of a whole manifest, and reading it back.
 */
module ManifestFile {
  import opened Wrappers
  import opened Text
  import opened KeyFiles
  import opened Manifest
  import opened ManifestRoundTrip

  // ---- metadata ----------------------------------------------------------------------------------

  lemma MetaRoundTrip(tag: string, kvs: map<string, string>)
    requires EnvKey(tag) && forall k :: k in kvs ==> EnvKey(k) && kvs[k] != ""
    ensures HasPrefix(META + tag, META) && !HasPrefix(META + tag, IMAGE)
    ensures ParseMeta(META + tag, MetaKeys(kvs)) == Some((tag, kvs))
  {
    assert (META + tag)[|META|..] == tag && (META + tag)[..|META|] == META;
    assert (META + tag)[0] == 'm' && IMAGE[0] == 'i';
    assert !EnvChar('.');
    var ks := MetaKeys(kvs);
    forall k | k in kvs ensures ToString(ks[k]) == Some(kvs[k]) && GoodValue(ks[k]) {
      StringRoundTrip(kvs[k]);
    }
    assert ValuesOf(ks) == kvs;
  }

  lemma MetaHasKeys(kvs: map<string, string>)
    requires kvs != map[]
    ensures MetaKeys(kvs) != map[]
  {
    var k :| k in kvs;
    assert k in MetaKeys(kvs);
  }

  // ---- the sections of a well-formed manifest ---------------------------------------------------------

  function ImageNames(images: seq<Image>): seq<string> {
    if images == [] then [] else ImageNames(images[..|images| - 1]) + [ImageGroup(images[|images| - 1])]
  }

  function MetaNames(tags: seq<string>): seq<string> {
    if tags == [] then [] else MetaNames(tags[..|tags| - 1]) + [META + tags[|tags| - 1]]
  }

  ghost predicate GoodImages(images: seq<Image>) {
    forall i :: 0 <= i < |images| ==> GoodImage(images[i])
  }

  lemma ImageSectionsSnoc(images: seq<Image>)
    requires images != [] && images[|images| - 1].slotclass.Some? && ImageKeys(images[|images| - 1]) != map[]
    ensures var front, last := images[..|images| - 1], images[|images| - 1];
            && ImageSections(images) == ImageSections(front) + [(ImageGroup(last), ImageKeys(last))]
            && NamesOf(ImageSections(images)) == NamesOf(ImageSections(front)) + [ImageGroup(last)]
  {
    var front, last := images[..|images| - 1], images[|images| - 1];
    var s := ImageSections(front) + [(ImageGroup(last), ImageKeys(last))];
    assert s[..|s| - 1] == ImageSections(front) && s[|s| - 1] == (ImageGroup(last), ImageKeys(last));
  }

  lemma {:induction false} ImageSectionsAre(images: seq<Image>)
    requires GoodImages(images)
    ensures |ImageSections(images)| == |images| && NamesOf(ImageSections(images)) == ImageNames(images)
    decreases |images|
  {
    if images != [] {
      ImageSectionsAre(images[..|images| - 1]);
      ImageHasKeys(images[|images| - 1]);
      ImageSectionsSnoc(images);
    }
  }

  lemma {:induction false} ImageSectionAt(images: seq<Image>, i: nat)
    requires GoodImages(images) && i < |images|
    ensures |ImageSections(images)| == |images|
              && ImageSections(images)[i] == (ImageGroup(images[i]), ImageKeys(images[i]))
    decreases |images|
  {
    ImageSectionsAre(images);
    ImageSectionsAre(images[..|images| - 1]);
    ImageHasKeys(images[|images| - 1]);
    ImageSectionsSnoc(images);
    if i < |images| - 1 {
      ImageSectionAt(images[..|images| - 1], i);
    }
  }

  lemma MetaSectionsSnoc(meta: Meta, tags: seq<string>)
    requires tags != [] && (forall t :: t in tags ==> t in meta) && MetaKeys(meta[tags[|tags| - 1]]) != map[]
    ensures var front, last := tags[..|tags| - 1], tags[|tags| - 1];
            && MetaSections(meta, tags) == MetaSections(meta, front) + [(META + last, MetaKeys(meta[last]))]
            && NamesOf(MetaSections(meta, tags)) == NamesOf(MetaSections(meta, front)) + [META + last]
  {
    var front, last := tags[..|tags| - 1], tags[|tags| - 1];
    var s := MetaSections(meta, front) + [(META + last, MetaKeys(meta[last]))];
    assert s[..|s| - 1] == MetaSections(meta, front) && s[|s| - 1] == (META + last, MetaKeys(meta[last]));
  }

  lemma {:induction false} MetaSectionsAre(meta: Meta, tags: seq<string>)
    requires GoodMeta(meta) && forall t :: t in tags ==> t in meta
    ensures |MetaSections(meta, tags)| == |tags| && NamesOf(MetaSections(meta, tags)) == MetaNames(tags)
    decreases |tags|
  {
    if tags != [] {
      MetaSectionsAre(meta, tags[..|tags| - 1]);
      MetaHasKeys(meta[tags[|tags| - 1]]);
      MetaSectionsSnoc(meta, tags);
    }
  }

  lemma {:induction false} MetaSectionAt(meta: Meta, tags: seq<string>, i: nat)
    requires GoodMeta(meta) && (forall t :: t in tags ==> t in meta) && i < |tags|
    ensures |MetaSections(meta, tags)| == |tags| && tags[i] in tags
    ensures MetaSections(meta, tags)[i] == (META + tags[i], MetaKeys(meta[tags[i]]))
    decreases |tags|
  {
    MetaSectionsAre(meta, tags);
    MetaSectionsAre(meta, tags[..|tags| - 1]);
    MetaHasKeys(meta[tags[|tags| - 1]]);
    MetaSectionsSnoc(meta, tags);
    if i < |tags| - 1 {
      MetaSectionAt(meta, tags[..|tags| - 1], i);
    }
  }

  lemma ImagePrefix(i: Image)
    ensures HasPrefix(ImageGroup(i), IMAGE) && !HasPrefix(ImageGroup(i), META) && ImageGroup(i) !in HEADS
  {
    var g := ImageGroup(i);
    assert g[..|IMAGE|] == IMAGE && g[0] == 'i' && META[0] == 'm';
    assert "update"[0] == 'u' && "bundle"[0] == 'b' && "handler"[0] == 'h' && "hooks"[0] == 'h';
  }

  lemma MetaPrefix(tag: string)
    ensures META + tag !in HEADS && !HasPrefix(META + tag, IMAGE)
  {
    assert (META + tag)[0] == 'm' && IMAGE[0] == 'i';
    assert "update"[0] == 'u' && "bundle"[0] == 'b' && "handler"[0] == 'h' && "hooks"[0] == 'h';
  }

  lemma ImagesAreDistinct(a: Image, b: Image)
    requires GoodName(a) && GoodName(b) && !SameTarget(a, b)
    ensures ImageGroup(a) != ImageGroup(b)
  {
    ImageNameRoundTrip(a);
    ImageNameRoundTrip(b);
  }

  lemma HeadsAreDistinct(m: Manifest)
    ensures DistinctSections(HeadSections(m)) && forall s :: s in HeadSections(m) ==> s.0 in HEADS
  {
    assert "update"[0] == 'u' && "bundle"[0] == 'b' && "handler"[1] == 'a' && "hooks"[1] == 'o';
  }

  lemma DistinctConcat(a: seq<Section>, b: seq<Section>)
    requires DistinctSections(a) && DistinctSections(b)
    requires forall x, y :: x in a && y in b ==> x.0 != y.0
    ensures DistinctSections(a + b)
  {
    forall i, j | 0 <= i < j < |a + b| ensures (a + b)[i].0 != (a + b)[j].0 {
      if i < |a| && j >= |a| {
        assert a[i] in a && b[j - |a|] in b;
      }
    }
  }

  ghost predicate Tags(m: Manifest, tags: seq<string>) {
    && (forall t :: t in tags <==> t in m.meta)
    && forall i, j :: 0 <= i < j < |tags| ==> tags[i] != tags[j]
  }

  lemma MetaNameIsInjective(a: string, b: string)
    requires META + a == META + b
    ensures a == b
  {
    assert (META + a)[|META|..] == a && (META + b)[|META|..] == b;
  }

  predicate Images(sections: seq<Section>) {
    forall s :: s in sections ==> HasPrefix(s.0, IMAGE) && s.0 !in HEADS
  }

  predicate Metas(sections: seq<Section>) {
    forall s :: s in sections ==> !HasPrefix(s.0, IMAGE) && s.0 !in HEADS
  }

  lemma ImageSectionsDiffer(m: Manifest)
    requires WellFormed(m)
    ensures DistinctSections(ImageSections(m.images))
  {
    var images := ImageSections(m.images);
    ImageSectionsAre(m.images);
    forall i, j | 0 <= i < j < |images| ensures images[i].0 != images[j].0 {
      ImageSectionAt(m.images, i);
      ImageSectionAt(m.images, j);
      ImagesAreDistinct(m.images[i], m.images[j]);
    }
  }

  lemma ImageSectionsAreImages(m: Manifest)
    requires WellFormed(m)
    ensures Images(ImageSections(m.images))
  {
    var images := ImageSections(m.images);
    ImageSectionsAre(m.images);
    forall s | s in images ensures s.0 !in HEADS && HasPrefix(s.0, IMAGE) {
      var i :| 0 <= i < |images| && images[i] == s;
      ImageSectionAt(m.images, i);
      ImagePrefix(m.images[i]);
    }
  }

  lemma MetaSectionsDiffer(m: Manifest, tags: seq<string>)
    requires GoodMeta(m.meta) && Tags(m, tags)
    ensures DistinctSections(MetaSections(m.meta, tags)) && Metas(MetaSections(m.meta, tags))
  {
    var metas := MetaSections(m.meta, tags);
    MetaSectionsAre(m.meta, tags);
    forall i, j | 0 <= i < j < |metas| ensures metas[i].0 != metas[j].0 {
      MetaSectionAt(m.meta, tags, i);
      MetaSectionAt(m.meta, tags, j);
      if metas[i].0 == metas[j].0 {
        MetaNameIsInjective(tags[i], tags[j]);
      }
    }
    forall s | s in metas ensures s.0 !in HEADS && !HasPrefix(s.0, IMAGE) {
      var i :| 0 <= i < |metas| && metas[i] == s;
      MetaSectionAt(m.meta, tags, i);
      MetaPrefix(tags[i]);
    }
  }

  lemma TailIsDistinct(m: Manifest, tags: seq<string>)
    requires WellFormed(m) && Tags(m, tags)
    ensures var tail := ImageSections(m.images) + MetaSections(m.meta, tags);
            DistinctSections(tail) && forall s :: s in tail ==> s.0 !in HEADS
  {
    ImageSectionsDiffer(m);
    ImageSectionsAreImages(m);
    MetaSectionsDiffer(m, tags);
    DistinctConcat(ImageSections(m.images), MetaSections(m.meta, tags));
  }

  lemma SectionsAreDistinct(m: Manifest, tags: seq<string>)
    requires WellFormed(m) && Tags(m, tags)
    ensures DistinctSections(HeadSections(m) + (ImageSections(m.images) + MetaSections(m.meta, tags)))
  {
    HeadsAreDistinct(m);
    TailIsDistinct(m, tags);
    DistinctConcat(HeadSections(m), ImageSections(m.images) + MetaSections(m.meta, tags));
  }

  /** What a file made of distinct sections holds, empty sections included. */
  lemma GroupOfSection(sections: seq<Section>, i: nat)
    requires DistinctSections(sections) && i < |sections|
    ensures GroupOf(WithSections(EMPTY, sections), sections[i].0) == sections[i].1
  {
    SectionsMeaning(sections, sections[i].0);
  }

  // ---- the order of the groups ------------------------------------------------------------------------

  lemma {:induction false} NamesOfConcat(a: seq<Section>, b: seq<Section>)
    ensures NamesOf(a + b) == NamesOf(a) + NamesOf(b)
    decreases |b|
  {
    if b == [] {
      assert a + b == a;
    } else {
      assert (a + b)[..|a + b| - 1] == a + b[..|b| - 1];
      NamesOfConcat(a, b[..|b| - 1]);
    }
  }

  lemma {:induction false} WithoutHeadsConcat(a: seq<string>, b: seq<string>)
    ensures WithoutHeads(a + b) == WithoutHeads(a) + WithoutHeads(b)
    decreases |b|
  {
    if b == [] {
      assert a + b == a;
    } else {
      assert (a + b)[..|a + b| - 1] == a + b[..|b| - 1];
      WithoutHeadsConcat(a, b[..|b| - 1]);
    }
  }

  lemma {:induction false} OnlyHeads(sections: seq<Section>)
    requires forall s :: s in sections ==> s.0 in HEADS
    ensures WithoutHeads(NamesOf(sections)) == []
    decreases |sections|
  {
    if sections != [] {
      var front, last := sections[..|sections| - 1], sections[|sections| - 1];
      OnlyHeads(front);
      assert last in sections;
      var names := NamesOf(sections);
      if last.1 != map[] {
        assert names[..|names| - 1] == NamesOf(front);
      } else {
        assert names == NamesOf(front);
      }
    }
  }

  lemma {:induction false} NoHeads(sections: seq<Section>)
    requires forall s :: s in sections ==> s.0 !in HEADS
    ensures WithoutHeads(NamesOf(sections)) == NamesOf(sections)
    decreases |sections|
  {
    if sections != [] {
      var front, last := sections[..|sections| - 1], sections[|sections| - 1];
      NoHeads(front);
      assert last in sections;
      var names := NamesOf(sections);
      if last.1 != map[] {
        assert names[..|names| - 1] == NamesOf(front);
      } else {
        assert names == NamesOf(front);
      }
    }
  }

  /** After the fixed groups come the images in their order, and then the metadata. */
  lemma OrderOfPrepared(m: Manifest, tags: seq<string>)
    requires WellFormed(m) && Tags(m, tags)
    ensures WithoutHeads(Prepared(m, tags).order) == ImageNames(m.images) + MetaNames(tags)
  {
    var images, metas := ImageSections(m.images), MetaSections(m.meta, tags);
    SectionsAreDistinct(m, tags);
    SectionsMeaning(HeadSections(m) + (images + metas), "");
    NamesOfConcat(HeadSections(m), images + metas);
    NamesOfConcat(images, metas);
    HeadsAreDistinct(m);
    TailIsDistinct(m, tags);
    WithoutHeadsConcat(NamesOf(HeadSections(m)), NamesOf(images + metas));
    OnlyHeads(HeadSections(m));
    NoHeads(images + metas);
    ImageSectionsAre(m.images);
    MetaSectionsAre(m.meta, tags);
  }

  // ---- reading the groups back ----------------------------------------------------------------------------

  /** Groups that are all images. */
  lemma {:induction false} ReadImages(parse: GroupParser, names: seq<string>, images: seq<Image>)
    requires |names| == |images| && forall i :: 0 <= i < |names| ==> parse(names[i]) == Some(FoundImage(images[i]))
    ensures ParseRest(parse, names) == Some(Rest(images, map[]))
    decreases |names|
  {
    if names != [] {
      var n := |names| - 1;
      ReadImages(parse, names[..n], images[..n]);
      assert images[..n] + [images[n]] == images;
    }
  }

  function Only(meta: Meta, tags: seq<string>): Meta { map t | t in tags && t in meta :: meta[t] }

  /** Then groups that are all metadata. */
  lemma {:induction false} ReadMetas(parse: GroupParser, names: seq<string>, images: seq<Image>,
                                     more: seq<string>, tags: seq<string>, meta: Meta)
    requires ParseRest(parse, names) == Some(Rest(images, map[])) && |more| == |tags|
    requires forall i :: 0 <= i < |tags| ==>
               tags[i] in meta && parse(more[i]) == Some(FoundMeta(tags[i], meta[tags[i]]))
    ensures ParseRest(parse, names + more) == Some(Rest(images, Only(meta, tags)))
    decreases |tags|
  {
    if tags == [] {
      assert names + more == names;
      assert Only(meta, tags) == map[];
    } else {
      var n := |tags| - 1;
      ReadMetas(parse, names, images, more[..n], tags[..n], meta);
      var all := names + more;
      assert all[..|all| - 1] == names + more[..n] && all[|all| - 1] == more[n];
      assert tags == tags[..n] + [tags[n]];
      assert Only(meta, tags[..n])[tags[n] := meta[tags[n]]] == Only(meta, tags);
    }
  }

  lemma ReadOne(f: File, i: Image)
    requires GoodImage(i) && GroupOf(f, ImageGroup(i)) == ImageKeys(i)
    ensures ParserOf(f)(ImageGroup(i)) == Some(FoundImage(i))
  {
    ImagePrefix(i);
    ImageRoundTrip(i);
  }

  lemma ReadMeta(f: File, tag: string, kvs: map<string, string>)
    requires EnvKey(tag) && forall k :: k in kvs ==> EnvKey(k) && kvs[k] != ""
    requires GroupOf(f, META + tag) == MetaKeys(kvs)
    ensures ParserOf(f)(META + tag) == Some(FoundMeta(tag, kvs))
  {
    MetaRoundTrip(tag, kvs);
  }

  // ---- the groups of the prepared file ---------------------------------------------------------------------

  lemma InParts(a: seq<Section>, b: seq<Section>, c: seq<Section>, i: nat)
    ensures i < |a| ==> (a + (b + c))[i] == a[i]
    ensures i < |b| ==> (a + (b + c))[|a| + i] == b[i]
    ensures i < |c| ==> (a + (b + c))[|a| + |b| + i] == c[i]
  {
  }

  lemma GroupAt(sections: seq<Section>, at: nat, section: Section)
    requires DistinctSections(sections) && at < |sections| && sections[at] == section
    ensures GroupOf(WithSections(EMPTY, sections), section.0) == section.1
  {
    GroupOfSection(sections, at);
  }

  lemma HeadGroup(m: Manifest, tags: seq<string>, i: nat)
    requires WellFormed(m) && Tags(m, tags) && i < |HeadSections(m)|
    ensures GroupOf(Prepared(m, tags), HeadSections(m)[i].0) == HeadSections(m)[i].1
  {
    var a, b, c := HeadSections(m), ImageSections(m.images), MetaSections(m.meta, tags);
    SectionsAreDistinct(m, tags);
    InParts(a, b, c, i);
    GroupAt(a + (b + c), i, a[i]);
  }

  lemma HeadsRoundTrip(m: Manifest, tags: seq<string>)
    requires WellFormed(m) && Tags(m, tags)
    ensures var f := Prepared(m, tags);
            && GroupOf(f, "update") == UpdateKeys(m.update) && GroupOf(f, "bundle") == BundleKeys(m.bundle)
            && GroupOf(f, "handler") == HandlerKeys(m.handler) && GroupOf(f, "hooks") == HooksKeys(m.hooks)
  {
    HeadGroup(m, tags, 0);
    HeadGroup(m, tags, 1);
    HeadGroup(m, tags, 2);
    HeadGroup(m, tags, 3);
  }

  lemma ImageRead(m: Manifest, tags: seq<string>, i: nat)
    requires WellFormed(m) && Tags(m, tags) && i < |m.images|
    ensures ParserOf(Prepared(m, tags))(ImageGroup(m.images[i])) == Some(FoundImage(m.images[i]))
  {
    SectionsAreDistinct(m, tags);
    ImageSectionAt(m.images, i);
    var a, b, c := HeadSections(m), ImageSections(m.images), MetaSections(m.meta, tags);
    InParts(a, b, c, i);
    GroupAt(a + (b + c), |a| + i, b[i]);
    ReadOne(Prepared(m, tags), m.images[i]);
  }

  lemma MetaRead(m: Manifest, tags: seq<string>, i: nat)
    requires WellFormed(m) && Tags(m, tags) && i < |tags|
    ensures tags[i] in m.meta
    ensures ParserOf(Prepared(m, tags))(META + tags[i]) == Some(FoundMeta(tags[i], m.meta[tags[i]]))
  {
    SectionsAreDistinct(m, tags);
    MetaSectionAt(m.meta, tags, i);
    var a, b, c := HeadSections(m), ImageSections(m.images), MetaSections(m.meta, tags);
    InParts(a, b, c, i);
    GroupAt(a + (b + c), |a| + |b| + i, c[i]);
    ReadMeta(Prepared(m, tags), tags[i], m.meta[tags[i]]);
  }

  lemma {:induction false} NamesAt(images: seq<Image>, tags: seq<string>, i: nat)
    ensures |ImageNames(images)| == |images| && |MetaNames(tags)| == |tags|
    ensures i < |images| ==> ImageNames(images)[i] == ImageGroup(images[i])
    ensures i < |tags| ==> MetaNames(tags)[i] == META + tags[i]
    decreases |images| + |tags|
  {
    if images != [] {
      NamesAt(images[..|images| - 1], tags, i);
    } else if tags != [] {
      NamesAt(images, tags[..|tags| - 1], i);
    }
  }

  lemma ImagesRead(m: Manifest, tags: seq<string>)
    requires WellFormed(m) && Tags(m, tags)
    ensures ParseRest(ParserOf(Prepared(m, tags)), ImageNames(m.images)) == Some(Rest(m.images, map[]))
  {
    var parse, names := ParserOf(Prepared(m, tags)), ImageNames(m.images);
    NamesAt(m.images, tags, 0);
    forall i | 0 <= i < |names| ensures parse(names[i]) == Some(FoundImage(m.images[i])) {
      NamesAt(m.images, tags, i);
      ImageRead(m, tags, i);
    }
    ReadImages(parse, names, m.images);
  }

  lemma MetasRead(m: Manifest, tags: seq<string>, parse: GroupParser, more: seq<string>)
    requires WellFormed(m) && Tags(m, tags) && parse == ParserOf(Prepared(m, tags)) && more == MetaNames(tags)
    ensures |more| == |tags|
    ensures forall i :: 0 <= i < |tags| ==>
              tags[i] in m.meta && parse(more[i]) == Some(FoundMeta(tags[i], m.meta[tags[i]]))
  {
    NamesAt([], tags, 0);
    forall i | 0 <= i < |tags|
        ensures tags[i] in m.meta && parse(more[i]) == Some(FoundMeta(tags[i], m.meta[tags[i]])) {
      NamesAt([], tags, i);
      MetaRead(m, tags, i);
    }
  }

  lemma RestRead(m: Manifest, tags: seq<string>)
    requires WellFormed(m) && Tags(m, tags)
    ensures ParseRest(ParserOf(Prepared(m, tags)), ImageNames(m.images) + MetaNames(tags)) ==
              Some(Rest(m.images, m.meta))
  {
    var parse, names, more := ParserOf(Prepared(m, tags)), ImageNames(m.images), MetaNames(tags);
    MetasRead(m, tags, parse, more);
    ImagesRead(m, tags);
    ReadMetas(parse, names, m.images, more, tags, m.meta);
    OnlyAll(m.meta, tags);
  }

  lemma OnlyAll(meta: Meta, tags: seq<string>)
    requires forall t :: t in tags <==> t in meta
    ensures Only(meta, tags) == meta
  {
  }

  lemma ParsedSteps(f: File, m: Manifest)
    requires ParseUpdate(GroupOf(f, "update")) == Some(m.update) && ParseBundle(GroupOf(f, "bundle")) == Some(m.bundle)
    requires ParseHandler(GroupOf(f, "handler")) == Some(m.handler) && ParseHooks(GroupOf(f, "hooks")) == Some(m.hooks)
    requires ParseRest(ParserOf(f), WithoutHeads(f.order)) == Some(Rest(m.images, m.meta))
    ensures Parsed(f) == Some(m)
  {
  }

  /**
   Parsing the printed key file gives the manifest back, in whatever order the metadata is
   printed: formats, hooks, lists, and the images in their order included.
   */
  lemma ManifestRoundTrips(m: Manifest, tags: seq<string>)
    requires WellFormed(m) && Tags(m, tags)
    ensures Parsed(Prepared(m, tags)) == Some(m)
  {
    HeadsRoundTrip(m, tags);
    UpdateRoundTrip(m.update);
    BundleRoundTrip(m.bundle);
    HandlerRoundTrip(m.handler);
    HooksRoundTrip(m.hooks);
    OrderOfPrepared(m, tags);
    RestRead(m, tags);
    ParsedSteps(Prepared(m, tags), m);
  }
}
