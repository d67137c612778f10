/**
 Parsing undoes printing, for well-formed manifests.
 */
module ManifestRoundTrip {
  import opened Wrappers
  import opened KeyFiles
  import opened Manifest

  // ---- sections ----------------------------------------------------------------------------------

  lemma UpdateRoundTrip(u: Update)
    requires GoodUpdate(u)
    ensures ParseUpdate(UpdateKeys(u)) == Some(u)
  {
    var r4: Keys := map[];
    var r3 := OptString("build", u.build) + r4;
    var r2 := OptString("description", u.description) + r3;
    var r1 := OptString("version", u.version) + r2;
    TakeOptString("compatible", u.compatible, r1);
    TakeOptString("version", u.version, r2);
    TakeOptString("description", u.description, r3);
    TakeOptString("build", u.build, r4);
  }

  lemma VerityRoundTrip(b: Bundle)
    requires GoodBundle(b) && !b.format.Plain?
    ensures ParseVerity(VerityKeys(b), b.format.Crypt?) == Some(b)
  {
    var none: Keys := map[];
    var key := if b.format.Crypt? then b.cryptKey else None;
    var size := if b.veritySize > 0 then Some(b.veritySize) else None;
    var r3 := OptString("crypt-key", key) + none;
    var r2 := OptNumber("verity-size", size) + r3;
    var r1 := OptString("verity-salt", b.veritySalt) + r2;
    assert "verity-hash"[7] == 'h' && "verity-salt"[8] == 'a' && "verity-size"[8] == 'i';
    TakeOptString("verity-hash", b.verityHash, r1);
    TakeOptString("verity-salt", b.veritySalt, r2);
    TakeOptNumber("verity-size", size, r3);
    TakeOptString("crypt-key", key, none);
    assert OptString("crypt-key", None) + none == none;
  }

  lemma NoFormatKey(b: Bundle)
    ensures "format" !in VerityKeys(b)
  {
    assert "format"[0] == 'f' && "verity-hash"[0] == 'v' && "verity-salt"[0] == 'v' && "verity-size"[0] == 'v';
    assert "crypt-key"[0] == 'c';
  }

  lemma FormatNames(f: Format)
    ensures FormatName(f) != ""
    ensures FormatName(f) == "plain" <==> f.Plain?
    ensures FormatName(f) == "verity" <==> f.Verity?
    ensures FormatName(f) == "crypt" <==> f.Crypt?
  {
    assert "plain"[0] == 'p' && "verity"[0] == 'v' && "crypt"[0] == 'c';
  }

  lemma TaggedBundle(name: string, verity: Keys)
    requires name != "" && "format" !in verity
    ensures ParseBundle(OptString("format", Some(name)) + verity) ==
            if name == "plain" then (if verity == map[] then Some(Bundle(Plain, true, None, None, 0, None)) else None)
            else if name == "verity" then ParseVerity(verity, false)
            else if name == "crypt" then ParseVerity(verity, true)
            else None
  {
    TakeOptString("format", Some(name), verity);
  }

  lemma BundleRoundTrip(b: Bundle)
    requires GoodBundle(b)
    ensures ParseBundle(BundleKeys(b)) == Some(b)
  {
    FormatNames(b.format);
    if !b.format.Plain? {
      VerityRoundTrip(b);
      NoFormatKey(b);
      TaggedBundle(FormatName(b.format), VerityKeys(b));
    } else if b.explicit {
      TaggedBundle("plain", map[]);
    } else {
      TakeOptString("format", None, map[]);
    }
  }

  lemma HandlerRoundTrip(h: Handler)
    requires GoodHandler(h)
    ensures ParseHandler(HandlerKeys(h)) == Some(h)
  {
    var none: Keys := map[];
    TakeOptString("filename", h.name, OptString("args", h.args) + none);
    TakeOptString("args", h.args, none);
  }

  lemma HooksRoundTrip(h: InstallHooks)
    requires GoodHooks(h)
    ensures ParseHooks(HooksKeys(h)) == Some(h)
  {
    var none: Keys := map[];
    var list := if h.installCheck then Some(["install-check"]) else None;
    assert "filename"[0] == 'f' && "hooks"[0] == 'h';
    assert "filename" !in OptList("hooks", list) + none;
    TakeOptString("filename", h.name, OptList("hooks", list) + none);
    TakeOptList("hooks", list, none);
  }

  // ---- images --------------------------------------------------------------------------------------

  lemma HookNamesRoundTrip(h: SlotHooks)
    ensures ParseHookNames(HookNames(h)) == Some(h)
    ensures HookNames(h) == [] ==> ParseHookNames([]) == Some(h)
  {
    var none := SlotHooks(false, false, false);
    var a := if h.preInstall then ["pre-install"] else [];
    var b := a + if h.install then ["install"] else [];
    assert b == HookNames(h.(postInstall := false));
    assert a == HookNames(SlotHooks(h.preInstall, false, false));
    HookSnoc([], "pre-install", none);
    HookSnoc(a, "install", SlotHooks(h.preInstall, false, false));
    HookSnoc(b, "post-install", h.(postInstall := false));
    assert [] + ["pre-install"] == ["pre-install"];
    assert a + [] == a && b + [] == b;
  }

  lemma HookSnoc(xs: seq<string>, x: string, h: SlotHooks)
    ensures ParseHookNames(xs) == Some(h) ==>
              && (x == "pre-install" ==> ParseHookNames(xs + [x]) == Some(h.(preInstall := true)))
              && (x == "install" ==> ParseHookNames(xs + [x]) == Some(h.(install := true)))
              && (x == "post-install" ==> ParseHookNames(xs + [x]) == Some(h.(postInstall := true)))
  {
    var ys := xs + [x];
    assert ys[..|ys| - 1] == xs && ys[|ys| - 1] == x;
  }

  lemma {:induction false} CutWithout(s: string, sep: char)
    requires sep !in s
    ensures Cut(s, sep) == (s, None)
  {
    if s != "" {
      CutWithout(s[1..], sep);
      assert s == [s[0]] + s[1..];
    }
  }

  lemma {:induction false} CutAt(s: string, sep: char, rest: string)
    requires sep !in s
    ensures Cut(s + [sep] + rest, sep) == (s, Some(rest))
  {
    var t := s + [sep] + rest;
    if s == "" {
      assert t[1..] == rest;
    } else {
      CutAt(s[1..], sep, rest);
      assert t[1..] == s[1..] + [sep] + rest;
      assert s == [s[0]] + s[1..];
    }
  }

  lemma CutSuffix(s: string, sep: char, v: Option<string>)
    requires sep !in s
    ensures Cut(s + Suffix(sep, v), sep) == (s, v)
  {
    if v.Some? {
      CutAt(s, sep, v.value);
      assert s + Suffix(sep, v) == s + [sep] + v.value;
    } else {
      CutWithout(s, sep);
      assert s + "" == s;
    }
  }

  /** The name of a group tells class, artifact and variant, also if the variant has dots. */
  lemma ImageNameRoundTrip(i: Image)
    requires GoodName(i)
    ensures |ImageGroup(i)| >= |IMAGE| && ParseImageName(ImageGroup(i)) == (i.slotclass, i.artifact, i.variant)
  {
    var target := ClassOf(i) + Suffix('/', i.artifact);
    assert ImageGroup(i)[|IMAGE|..] == target + Suffix('.', i.variant);
    assert '.' !in target;
    CutSuffix(target, '.', i.variant);
    CutSuffix(ClassOf(i), '/', i.artifact);
    assert target != "";
  }

  lemma ListsRoundTrip(i: Image, j: Image)
    requires i.converted != Some([])
    ensures ParseLists(ListKeys(i), j) ==
              Some(j.(adaptive := i.adaptive, convert := i.convert, converted := i.converted))
  {
    var r3: Keys := map[];
    var r2 := OptList("converted", i.converted) + r3;
    var r1 := OptList("convert", i.convert) + r2;
    TakeOptList("adaptive", i.adaptive, r1);
    TakeOptList("convert", i.convert, r2);
    TakeOptList("converted", i.converted, r3);
  }

  // The names of the keys of an image, which do not get into each other's way.

  const LISTS: set<string> := {"adaptive", "convert", "converted"}

  lemma ListNames(i: Image)
    ensures ListKeys(i).Keys <= LISTS
  {
  }

  lemma OtherNames()
    ensures "filename" !in LISTS && "version" !in LISTS && "description" !in LISTS && "build" !in LISTS
    ensures "hooks" !in LISTS + {"filename"}
    ensures "size" !in LISTS + {"filename", "hooks"}
    ensures "sha256" !in LISTS + {"filename", "hooks", "size"}
  {
    assert "filename"[0] == 'f' && "adaptive"[0] == 'a' && "hooks"[0] == 'h' && "build"[0] == 'b';
    assert "version"[0] == 'v' && "description"[0] == 'd' && "convert"[0] == 'c' && "converted"[0] == 'c';
    assert "size"[1] == 'i' && "sha256"[1] == 'h' && "size"[0] == 's' && "sha256"[0] == 's';
  }

  lemma NothingIgnored(ks: Keys)
    requires ks.Keys <= LISTS
    ensures ks - {"version", "description", "build"} == ks
  {
    OtherNames();
  }

  lemma OptNames(k: string, s: Option<string>, l: Option<seq<string>>, n: Option<nat>)
    ensures OptString(k, s).Keys <= {k} && OptList(k, l).Keys <= {k} && OptNumber(k, n).Keys <= {k}
  {
  }

  lemma FileNames(i: Image)
    ensures FileKeys(i).Keys <= LISTS + {"filename", "hooks"}
  {
    ListNames(i);
    OptNames("hooks", None, NonEmptyList(HookNames(i.hooks)), None);
    OptNames("filename", i.filename, None, None);
  }

  /** Reading hooks and file name, step by step. */
  lemma ImageFileSteps(ks: Keys, r1: Keys, r2: Keys, hooks: Option<seq<string>>, h: SlotHooks,
                       filename: Option<string>, j: Image)
    requires TakeList(ks, "hooks") == (hooks, r1) && ParseHookNames(ListOr(hooks)) == Some(h)
    requires TakeString(r1, "filename") == (filename, r2) && (filename.Some? || h.install)
    ensures ParseImageFile(ks, j) ==
              ParseLists(r2 - {"version", "description", "build"}, j.(hooks := h, filename := filename))
  {
  }

  lemma ImageFileRoundTrip(i: Image, j: Image)
    requires i.converted != Some([]) && NonEmpty(i.filename) && (i.filename.Some? || i.hooks.install)
    ensures ParseImageFile(FileKeys(i), j) ==
            Some(j.(hooks := i.hooks, filename := i.filename,
                    adaptive := i.adaptive, convert := i.convert, converted := i.converted))
  {
    var lists, hooks := ListKeys(i), NonEmptyList(HookNames(i.hooks));
    var files := OptString("filename", i.filename) + lists;
    ListNames(i);
    OtherNames();
    OptNames("filename", i.filename, None, None);
    assert "hooks" !in files;
    TakeOptList("hooks", hooks, files);
    TakeOptString("filename", i.filename, lists);
    HookNamesRoundTrip(i.hooks);
    ImageFileSteps(FileKeys(i), files, lists, hooks, i.hooks, i.filename, j);
    NothingIgnored(lists);
    ListsRoundTrip(i, j.(hooks := i.hooks, filename := i.filename));
  }

  lemma ImageHasKeys(i: Image)
    requires i.filename.Some? || i.hooks.install
    ensures ImageKeys(i) != map[]
  {
    var k := if i.filename.Some? then "filename" else "hooks";
    assert HookNames(i.hooks) == [] ==> !i.hooks.install;
    assert k in FileKeys(i);
    assert k in ImageKeys(i);
  }

  /** An image of which only the head of its group has been read. */
  function HeadOf(slotclass: Option<string>, artifact: Option<string>, variant: Option<string>,
                  digest: Option<string>, size: int): Image {
    Image(slotclass, artifact, variant, digest, size, None, SlotHooks(false, false, false), None, None, None)
  }

  lemma ImageSteps(g: string, ks: Keys, r1: Keys, r2: Keys, digest: Option<string>, number: ReadNumber, size: int)
    requires |g| >= |IMAGE| && TakeString(ks, "sha256") == (digest, r1) && TakeNumber(r1, "size") == (number, r2)
    requires !number.Invalid? && size == if number.Missing? then -1 else Signed(number.n)
    ensures var (slotclass, artifact, variant) := ParseImageName(g);
            ParseImage(g, ks) == ParseImageFile(r2, HeadOf(slotclass, artifact, variant, digest, size))
  {
  }

  function SizeOf(i: Image): Option<nat> { if i.size >= 0 then Some(i.size) else None }

  function NumberOf(size: Option<nat>): ReadNumber { if size.Some? then Number64(size.value) else Missing }

  lemma HeadRoundTrip(i: Image)
    requires GoodImage(i)
    ensures |ImageGroup(i)| >= |IMAGE|
    ensures ParseImage(ImageGroup(i), ImageKeys(i)) ==
            ParseImageFile(FileKeys(i), HeadOf(i.slotclass, i.artifact, i.variant, i.digest, i.size))
  {
    ImageNameRoundTrip(i);
    FileNames(i);
    OtherNames();
    var size := SizeOf(i);
    OptNames("size", None, None, size);
    var r1 := OptNumber("size", size) + FileKeys(i);
    assert "sha256" !in r1;
    TakeOptString("sha256", i.digest, r1);
    TakeOptNumber("size", size, FileKeys(i));
    ImageSteps(ImageGroup(i), ImageKeys(i), r1, FileKeys(i), i.digest, NumberOf(size), i.size);
  }

  lemma ImageRoundTrip(i: Image)
    requires GoodImage(i)
    ensures |ImageGroup(i)| >= |IMAGE| && ParseImage(ImageGroup(i), ImageKeys(i)) == Some(i)
  {
    HeadRoundTrip(i);
    ImageFileRoundTrip(i, HeadOf(i.slotclass, i.artifact, i.variant, i.digest, i.size));
  }
}
