/** Filling a key file with a manifest, key by key. */
module ManifestPrint {
  import opened Wrappers
  import opened Collections
  import opened KeyFiles
  import opened Manifest
  import opened ManifestFile

  class KeyFile {
    var file: File

    constructor ()
      ensures file == EMPTY
    {
      file := EMPTY;
    }

    /** Sets a key of a group to which `done` has been added since the file was f. */
    method SetValue(g: string, k: string, v: Value, ghost f: File, ghost done: Keys)
      requires file == WithKeys(f, g, done)
      modifies this
      ensures file == WithKeys(f, g, done + map[k := v])
    {
      ghost var before := file;
      if g !in file.groups {
        file := File(file.order + [g], file.groups[g := map[]]);
      }
      file := file.(groups := file.groups[g := file.groups[g][k := v]]);
      OneKey(before, g, k, v);
      WithKeysTwice(f, g, done, map[k := v]);
    }

    method SetString(g: string, k: string, v: Option<string>, ghost f: File, ghost done: Keys)
      requires file == WithKeys(f, g, done)
      modifies this
      ensures file == WithKeys(f, g, done + OptString(k, v))
    {
      NothingAdded(done);
      if v.Some? {
        SetValue(g, k, OfString(v.value), f, done);
      }
    }

    method SetList(g: string, k: string, v: Option<seq<string>>, ghost f: File, ghost done: Keys)
      requires file == WithKeys(f, g, done)
      modifies this
      ensures file == WithKeys(f, g, done + OptList(k, v))
    {
      NothingAdded(done);
      if v.Some? {
        SetValue(g, k, OfList(v.value), f, done);
      }
    }

    method SetNumber(g: string, k: string, v: Option<nat>, ghost f: File, ghost done: Keys)
      requires file == WithKeys(f, g, done)
      modifies this
      ensures file == WithKeys(f, g, done + OptNumber(k, v))
    {
      NothingAdded(done);
      if v.Some? {
        SetValue(g, k, OfNumber(v.value), f, done);
      }
    }
  }

  lemma NothingAdded(done: Keys)
    ensures done + map[] == done
  {
  }

  lemma OneKey(f: File, g: string, k: string, v: Value)
    ensures WithKeys(f, g, map[k := v]) ==
            File(if g in f.groups then f.order else f.order + [g], f.groups[g := GroupOf(f, g)[k := v]])
  {
    assert k in map[k := v];
    assert GroupOf(f, g) + map[k := v] == GroupOf(f, g)[k := v];
  }

  const NONE: Keys := map[]

  method PrintUpdate(kf: KeyFile, u: Update)
    modifies kf
    ensures kf.file == WithKeys(old(kf.file), "update", UpdateKeys(u))
  {
    ghost var f := kf.file;
    ghost var a, b, c, d := OptString("compatible", u.compatible), OptString("version", u.version),
                            OptString("description", u.description), OptString("build", u.build);
    kf.SetString("update", "compatible", u.compatible, f, NONE);
    kf.SetString("update", "version", u.version, f, NONE + a);
    kf.SetString("update", "description", u.description, f, NONE + a + b);
    kf.SetString("update", "build", u.build, f, NONE + a + b + c);
    FourKeys(a, b, c, d);
  }

  lemma FourKeys(a: Keys, b: Keys, c: Keys, d: Keys)
    ensures NONE + a + b + c + d == a + (b + (c + (d + map[])))
  {
  }

  method PrintVerity(kf: KeyFile, b: Bundle)
    requires b.format.Verity? || b.format.Crypt?
    modifies kf
    ensures kf.file == WithKeys(old(kf.file), "bundle", BundleKeys(b))
  {
    ghost var f := kf.file;
    var key := if b.format.Crypt? then b.cryptKey else None;
    var format := Some(FormatName(b.format));
    var size := if b.veritySize > 0 then Some(b.veritySize) else None;
    ghost var k1, k2, k3 :=
        OptString("crypt-key", key), OptString("format", format), OptString("verity-hash", b.verityHash);
    ghost var k4, k5 := OptString("verity-salt", b.veritySalt), OptNumber("verity-size", size);
    kf.SetString("bundle", "crypt-key", key, f, NONE);
    kf.SetString("bundle", "format", format, f, NONE + k1);
    kf.SetString("bundle", "verity-hash", b.verityHash, f, NONE + k1 + k2);
    kf.SetString("bundle", "verity-salt", b.veritySalt, f, NONE + k1 + k2 + k3);
    kf.SetNumber("bundle", "verity-size", size, f, NONE + k1 + k2 + k3 + k4);
    BundleNames();
    FirstIsLast(k1, k2, k3, k4, k5, "crypt-key");
  }

  lemma BundleNames()
    ensures "crypt-key" !in {"format", "verity-hash", "verity-salt", "verity-size"}
  {
    assert "crypt-key"[0] == 'c' && "format"[0] == 'f' && "verity-hash"[0] == 'v' && "verity-salt"[0] == 'v'
             && "verity-size"[0] == 'v';
  }

  /** The first of the keys can as well be set last. */
  lemma FirstIsLast(e: Keys, a: Keys, b: Keys, c: Keys, d: Keys, own: string)
    requires e.Keys <= {own} && own !in a && own !in b && own !in c && own !in d
    ensures NONE + e + a + b + c + d == a + (b + (c + (d + (e + map[]))))
  {
    MoveLast(NONE, e, a);
    MoveLast(NONE + a, e, b);
    MoveLast(NONE + a + b, e, c);
    MoveLast(NONE + a + b + c, e, d);
    FourKeys(a, b, c, d);
    AppendInside(a, b, c, d, e);
  }

  lemma AppendInside(a: Keys, b: Keys, c: Keys, d: Keys, e: Keys)
    ensures a + (b + (c + (d + map[]))) + e == a + (b + (c + (d + (e + map[]))))
  {
    Associative(a, b + (c + (d + map[])), e);
    Associative(b, c + (d + map[]), e);
    Associative(c, d + map[], e);
    NothingAdded(d);
    NothingAdded(e);
  }

  lemma Associative(a: Keys, b: Keys, c: Keys)
    ensures a + b + c == a + (b + c)
  {
  }

  lemma MoveLast(x: Keys, e: Keys, a: Keys)
    requires e.Keys !! a.Keys
    ensures x + e + a == x + a + e
  {
  }

  method PrintBundle(kf: KeyFile, b: Bundle)
    modifies kf
    ensures kf.file == WithKeys(old(kf.file), "bundle", BundleKeys(b))
  {
    if b.format.Plain? {
      var format := if b.explicit then Some("plain") else None;
      kf.SetString("bundle", "format", format, kf.file, NONE);
      OneOpt(OptString("format", format));
    } else {
      PrintVerity(kf, b);
    }
  }

  lemma OneOpt(a: Keys)
    ensures NONE + a == a + map[]
  {
  }

  lemma TwoOpts(a: Keys, b: Keys)
    ensures NONE + a + b == a + (b + map[])
  {
  }

  method PrintHandler(kf: KeyFile, h: Handler)
    modifies kf
    ensures kf.file == WithKeys(old(kf.file), "handler", HandlerKeys(h))
  {
    ghost var f := kf.file;
    kf.SetString("handler", "filename", h.name, f, NONE);
    kf.SetString("handler", "args", h.args, f, NONE + OptString("filename", h.name));
    TwoOpts(OptString("filename", h.name), OptString("args", h.args));
  }

  method PrintHooks(kf: KeyFile, h: InstallHooks)
    modifies kf
    ensures kf.file == WithKeys(old(kf.file), "hooks", HooksKeys(h))
  {
    ghost var f := kf.file;
    var list := if h.installCheck then Some(["install-check"]) else None;
    kf.SetString("hooks", "filename", h.name, f, NONE);
    kf.SetList("hooks", "hooks", list, f, NONE + OptString("filename", h.name));
    TwoOpts(OptString("filename", h.name), OptList("hooks", list));
  }

  method PrintLists(kf: KeyFile, g: string, i: Image, ghost f: File, ghost done: Keys)
    requires kf.file == WithKeys(f, g, done)
    modifies kf
    ensures kf.file == WithKeys(f, g, done + ListKeys(i))
  {
    var converted := if i.converted == Some([]) then None else i.converted;
    ghost var a, b, c := OptList("adaptive", i.adaptive), OptList("convert", i.convert), OptList("converted", converted);
    kf.SetList(g, "adaptive", i.adaptive, f, done);
    kf.SetList(g, "convert", i.convert, f, done + a);
    kf.SetList(g, "converted", converted, f, done + a + b);
    ThreeMore(done, a, b, c);
  }

  lemma ThreeMore(done: Keys, a: Keys, b: Keys, c: Keys)
    ensures done + a + b + c == done + (a + (b + (c + map[])))
  {
  }

  method PrintImage(kf: KeyFile, i: Image)
    modifies kf
    ensures kf.file == WithKeys(old(kf.file), ImageGroup(i), ImageKeys(i))
  {
    ghost var f := kf.file;
    var g := IMAGE + ((ClassOf(i) + Suffix('/', i.artifact)) + Suffix('.', i.variant));
    var size: Option<nat> := if i.size >= 0 then Some(i.size) else None;
    var hooks := NonEmptyList(HookNames(i.hooks));
    ghost var a, b := OptString("sha256", i.digest), OptNumber("size", size);
    ghost var c, d := OptString("filename", i.filename), OptList("hooks", hooks);
    kf.SetString(g, "sha256", i.digest, f, NONE);
    kf.SetNumber(g, "size", size, f, NONE + a);
    kf.SetString(g, "filename", i.filename, f, NONE + a + b);
    kf.SetList(g, "hooks", hooks, f, NONE + a + b + c);
    PrintLists(kf, g, i, f, NONE + a + b + c + d);
    assert "filename"[0] == 'f' && "hooks"[0] == 'h';
    FileBeforeHooks(a, b, c, d, ListKeys(i), "filename", "hooks");
  }

  lemma FileBeforeHooks(a: Keys, b: Keys, c: Keys, d: Keys, e: Keys, x: string, y: string)
    requires c.Keys <= {x} && d.Keys <= {y} && x != y
    ensures NONE + a + b + c + d + e == a + (b + (d + (c + e)))
  {
    MoveLast(NONE + a + b, c, d);
    assert NONE + a + b + d + c + e == NONE + a + b + d + (c + e);
    FourKeys(a, b, d, c + e);
    NothingAdded(c + e);
  }

  // ---- images and metadata -------------------------------------------------------------------------

  lemma SectionsSnoc(f: File, sections: seq<Section>, more: seq<Section>, last: Section)
    ensures WithSections(f, sections + (more + [last])) == WithKeys(WithSections(f, sections + more), last.0, last.1)
  {
    var all := sections + (more + [last]);
    assert all[..|all| - 1] == sections + more && all[|all| - 1] == last;
  }

  lemma OneMoreImage(images: seq<Image>, i: nat)
    requires i < |images|
    ensures ImageSections(images[..i + 1]) ==
            ImageSections(images[..i]) + if images[i].slotclass.None? then [] else [(ImageGroup(images[i]), ImageKeys(images[i]))]
  {
    assert images[..i + 1][..i] == images[..i] && images[..i + 1][i] == images[i];
  }

  method PrintOneImage(kf: KeyFile, images: seq<Image>, i: nat, ghost heads: seq<Section>)
    requires i < |images| && kf.file == WithSections(EMPTY, heads + ImageSections(images[..i]))
    modifies kf
    ensures kf.file == WithSections(EMPTY, heads + ImageSections(images[..i + 1]))
  {
    OneMoreImage(images, i);
    ghost var before := ImageSections(images[..i]);
    if images[i].slotclass.Some? {
      PrintImage(kf, images[i]);
      SectionsSnoc(EMPTY, heads, before, (ImageGroup(images[i]), ImageKeys(images[i])));
    } else {
      assert before + [] == before;
    }
  }

  method PrintImages(kf: KeyFile, images: seq<Image>, ghost heads: seq<Section>)
    requires kf.file == WithSections(EMPTY, heads)
    modifies kf
    ensures kf.file == WithSections(EMPTY, heads + ImageSections(images))
  {
    var i := 0;
    assert heads + ImageSections(images[..0]) == heads;
    while i < |images|
      invariant 0 <= i <= |images|
      invariant kf.file == WithSections(EMPTY, heads + ImageSections(images[..i]))
    {
      PrintOneImage(kf, images, i, heads);
      i := i + 1;
    }
    assert images[..i] == images;
  }

  function Part(kvs: map<string, string>, keys: seq<string>): Keys {
    map k | k in keys && k in kvs :: OfString(kvs[k])
  }

  lemma OneMorePart(kvs: map<string, string>, keys: seq<string>, i: nat)
    requires i < |keys| && keys[i] in kvs
    ensures Part(kvs, keys[..i]) + OptString(keys[i], Some(kvs[keys[i]])) == Part(kvs, keys[..i + 1])
  {
    assert keys[..i + 1] == keys[..i] + [keys[i]];
  }

  method PrintMeta(kf: KeyFile, tag: string, kvs: map<string, string>)
    modifies kf
    ensures kf.file == WithKeys(old(kf.file), META + tag, MetaKeys(kvs))
  {
    ghost var f := kf.file;
    var keys := List(kvs.Keys);
    var i := 0;
    assert Part(kvs, keys[..0]) == NONE;
    while i < |keys|
      invariant 0 <= i <= |keys|
      invariant kf.file == WithKeys(f, META + tag, Part(kvs, keys[..i]))
    {
      var k := keys[i];
      assert k in keys;
      kf.SetString(META + tag, k, Some(kvs[k]), f, Part(kvs, keys[..i]));
      OneMorePart(kvs, keys, i);
      i := i + 1;
    }
    assert keys[..i] == keys;
    assert Part(kvs, keys) == MetaKeys(kvs);
  }

  method PrintMetas(kf: KeyFile, meta: Meta, tags: seq<string>, ghost before: seq<Section>)
    requires kf.file == WithSections(EMPTY, before) && forall t :: t in tags ==> t in meta
    modifies kf
    ensures kf.file == WithSections(EMPTY, before + MetaSections(meta, tags))
  {
    var i := 0;
    assert before + MetaSections(meta, tags[..0]) == before;
    while i < |tags|
      invariant 0 <= i <= |tags|
      invariant kf.file == WithSections(EMPTY, before + MetaSections(meta, tags[..i]))
    {
      assert tags[i] in tags;
      PrintMeta(kf, tags[i], meta[tags[i]]);
      assert tags[..i + 1][..i] == tags[..i] && tags[..i + 1][i] == tags[i];
      SectionsSnoc(EMPTY, before, MetaSections(meta, tags[..i]), (META + tags[i], MetaKeys(meta[tags[i]])));
      i := i + 1;
    }
    assert tags[..i] == tags;
  }

  method PrintHeads(kf: KeyFile, m: Manifest)
    requires kf.file == EMPTY
    modifies kf
    ensures kf.file == WithSections(EMPTY, HeadSections(m))
  {
    PrintUpdate(kf, m.update);
    PrintBundle(kf, m.bundle);
    PrintHandler(kf, m.handler);
    PrintHooks(kf, m.hooks);
    FourSections(EMPTY, ("update", UpdateKeys(m.update)), ("bundle", BundleKeys(m.bundle)),
                 ("handler", HandlerKeys(m.handler)), ("hooks", HooksKeys(m.hooks)));
  }

  lemma FourSections(f: File, a: Section, b: Section, c: Section, d: Section)
    ensures WithSections(f, [a, b, c, d]) ==
            WithKeys(WithKeys(WithKeys(WithKeys(f, a.0, a.1), b.0, b.1), c.0, c.1), d.0, d.1)
  {
    SectionsSnoc(f, [], [], a);
    SectionsSnoc(f, [], [a], b);
    SectionsSnoc(f, [], [a, b], c);
    SectionsSnoc(f, [], [a, b, c], d);
    assert [] + ([] + [a]) == [a] && [] + ([a] + [b]) == [a, b] == [] + [a, b];
    assert [] + ([a, b] + [c]) == [a, b, c] == [] + [a, b, c] && [] + ([a, b, c] + [d]) == [a, b, c, d];
    assert [] + [a] == [a];
  }

  method PrintAll(kf: KeyFile, m: Manifest, tags: seq<string>)
    requires kf.file == EMPTY && forall t :: t in tags ==> t in m.meta
    modifies kf
    ensures kf.file == Prepared(m, tags)
  {
    ghost var a, b, c := HeadSections(m), ImageSections(m.images), MetaSections(m.meta, tags);
    PrintHeads(kf, m);
    PrintImages(kf, m.images, a);
    PrintMetas(kf, m.meta, tags, a + b);
    PartsAgree(a, b, c);
  }

  lemma PartsAgree(a: seq<Section>, b: seq<Section>, c: seq<Section>)
    ensures a + b + c == a + (b + c)
  {
  }

  /** Printing a manifest; the metadata comes in whatever order the hash table yields. */
  method PrepareManifest(m: Manifest) returns (kf: KeyFile, ghost tags: seq<string>)
    ensures fresh(kf) && Tags(m, tags) && kf.file == Prepared(m, tags)
  {
    kf := new KeyFile();
    var order := List(m.meta.Keys);
    tags := order;
    PrintAll(kf, m, order);
  }
}
