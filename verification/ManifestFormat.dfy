/**
 The format of manifests in literal terms: which keys are printed with which values, and
 exactly which groups are accepted when reading.
 */
module ManifestFormat {
  import opened Wrappers
  import opened Text
  import opened KeyFiles
  import opened Manifest

  /** The group says so: the key is there with this value, or it is not there. */
  predicate Says(ks: Keys, k: string, v: Option<string>) {
    if v.Some? then k in ks && ToString(ks[k]) == v else k !in ks
  }

  predicate SaysList(ks: Keys, k: string, v: Option<seq<string>>) {
    if v.Some? then k in ks && ToList(ks[k], "") == v.value else k !in ks
  }

  predicate SaysNumber(ks: Keys, k: string, v: Option<nat>) {
    if v.Some? then k in ks && ToNumber(ks[k]) == Number64(v.value) else k !in ks
  }

  lemma OptSays(k: string, v: Option<string>)
    ensures Says(OptString(k, v), k, v) && OptString(k, v).Keys <= {k}
  {
    if v.Some? {
      StringRoundTrip(v.value);
    }
  }

  lemma OptSaysList(k: string, v: Option<seq<string>>)
    ensures SaysList(OptList(k, v), k, v) && OptList(k, v).Keys <= {k}
  {
    if v.Some? {
      ListRoundTrip(v.value);
    }
  }

  lemma OptSaysNumber(k: string, v: Option<nat>)
    requires v.Some? ==> v.value < TWO_64
    ensures SaysNumber(OptNumber(k, v), k, v) && OptNumber(k, v).Keys <= {k}
  {
    if v.Some? {
      NumberRoundTrip(v.value);
    }
  }

  lemma PlusString(k: string, v: Option<string>, rest: Keys)
    requires k !in rest
    ensures Says(OptString(k, v) + rest, k, v) && (OptString(k, v) + rest) - {k} == rest
  {
    OptSays(k, v);
    assert (OptString(k, v) + rest) - {k} == rest;
  }

  lemma PlusList(k: string, v: Option<seq<string>>, rest: Keys)
    requires k !in rest
    ensures SaysList(OptList(k, v) + rest, k, v) && (OptList(k, v) + rest) - {k} == rest
  {
    OptSaysList(k, v);
    assert (OptList(k, v) + rest) - {k} == rest;
  }

  lemma PlusNumber(k: string, v: Option<nat>, rest: Keys)
    requires k !in rest && (v.Some? ==> v.value < TWO_64)
    ensures SaysNumber(OptNumber(k, v) + rest, k, v) && (OptNumber(k, v) + rest) - {k} == rest
  {
    OptSaysNumber(k, v);
    assert (OptNumber(k, v) + rest) - {k} == rest;
  }

  // ---- what is printed -------------------------------------------------------------------------

  lemma UpdateFormat(u: Update)
    ensures var ks := UpdateKeys(u);
            && ks.Keys <= {"compatible", "version", "description", "build"}
            && Says(ks, "compatible", u.compatible) && Says(ks, "version", u.version)
            && Says(ks, "description", u.description) && Says(ks, "build", u.build)
  {
    OptSays("compatible", u.compatible);
    OptSays("version", u.version);
    OptSays("description", u.description);
    OptSays("build", u.build);
  }

  lemma KeyFormat(b: Bundle, ks: Keys)
    requires b.veritySize < TWO_64
    requires ks == OptNumber("verity-size", if b.veritySize > 0 then Some(b.veritySize) else None)
                   + (OptString("crypt-key", if b.format.Crypt? then b.cryptKey else None) + map[])
    ensures SaysNumber(ks, "verity-size", if b.veritySize == 0 then None else Some(b.veritySize))
    ensures Says(ks, "crypt-key", if b.format.Crypt? then b.cryptKey else None)
    ensures ks.Keys <= {"verity-size", "crypt-key"}
  {
    OptSaysNumber("verity-size", if b.veritySize > 0 then Some(b.veritySize) else None);
    OptSays("crypt-key", if b.format.Crypt? then b.cryptKey else None);
  }

  /** Hash and salt, then what is left: size and key. */
  lemma VerityFormat(b: Bundle)
    requires b.veritySize < TWO_64
    ensures var ks := VerityKeys(b);
            && "format" !in ks
            && Says(ks, "verity-hash", b.verityHash) && Says(ks - {"verity-hash"}, "verity-salt", b.veritySalt)
            && var rest := ks - {"verity-hash"} - {"verity-salt"};
               && SaysNumber(rest, "verity-size", if b.veritySize == 0 then None else Some(b.veritySize))
               && Says(rest, "crypt-key", if b.format.Crypt? then b.cryptKey else None)
               && rest.Keys <= {"verity-size", "crypt-key"}
  {
    var rest := OptNumber("verity-size", if b.veritySize > 0 then Some(b.veritySize) else None)
                + (OptString("crypt-key", if b.format.Crypt? then b.cryptKey else None) + map[]);
    KeyFormat(b, rest);
    VerityNamesDiffer();
    PlusString("verity-salt", b.veritySalt, rest);
    OptSays("verity-salt", b.veritySalt);
    OptSays("verity-hash", b.verityHash);
    PlusString("verity-hash", b.verityHash, OptString("verity-salt", b.veritySalt) + rest);
  }

  lemma VerityNamesDiffer()
    ensures "verity-salt" != "verity-hash" && "verity-size" != "verity-hash" && "verity-size" != "verity-salt"
    ensures "crypt-key" != "verity-hash" && "crypt-key" != "verity-salt"
    ensures "format" !in {"verity-hash", "verity-salt", "verity-size", "crypt-key"}
  {
    assert "verity-salt"[8] == 'a' && "verity-hash"[7] == 'h' && "verity-size"[8] == 'i' && "verity-size"[7] == 's';
  }

  lemma BundleFormat(b: Bundle)
    requires b.veritySize < TWO_64
    ensures var ks := BundleKeys(b);
            if b.format.Plain? then ks.Keys <= {"format"} && Says(ks, "format", if b.explicit then Some("plain") else None)
            else
              && ks - {"format"} == VerityKeys(b)
              && Says(ks, "format", Some(if b.format.Verity? then "verity" else "crypt"))
  {
    if b.format.Plain? {
      OptSays("format", if b.explicit then Some("plain") else None);
    } else {
      VerityFormat(b);
      OptSays("format", Some(FormatName(b.format)));
      assert "format" !in VerityKeys(b);
      assert BundleKeys(b) - {"format"} == VerityKeys(b);
    }
  }

  lemma HandlerFormat(h: Handler)
    ensures var ks := HandlerKeys(h);
            ks.Keys <= {"filename", "args"} && Says(ks, "filename", h.name) && Says(ks, "args", h.args)
  {
    OptSays("filename", h.name);
    OptSays("args", h.args);
  }

  lemma HooksFormat(h: InstallHooks)
    ensures var ks := HooksKeys(h);
            && ks.Keys <= {"filename", "hooks"}
            && Says(ks, "filename", h.name)
            && SaysList(ks, "hooks", if h.installCheck then Some(["install-check"]) else None)
  {
    OptSays("filename", h.name);
    OptSaysList("hooks", if h.installCheck then Some(["install-check"]) else None);
  }

  predicate KnownHook(x: string) { x == "pre-install" || x == "install" || x == "post-install" }

  /** The hooks that are named are those that are set. */
  predicate NamesHooks(xs: seq<string>, h: SlotHooks) {
    && (forall x :: x in xs ==> KnownHook(x))
    && ("pre-install" in xs <==> h.preInstall) && ("install" in xs <==> h.install)
    && ("post-install" in xs <==> h.postInstall)
  }

  lemma ListsFormat(i: Image)
    ensures var ks := ListKeys(i);
            && ks.Keys <= {"adaptive", "convert", "converted"}
            && SaysList(ks, "adaptive", i.adaptive) && SaysList(ks, "convert", i.convert)
            && SaysList(ks, "converted", if i.converted == Some([]) then None else i.converted)
  {
    OptSaysList("adaptive", i.adaptive);
    OptSaysList("convert", i.convert);
    OptSaysList("converted", if i.converted == Some([]) then None else i.converted);
  }

  lemma ListsFree(i: Image)
    ensures "filename" !in ListKeys(i) && "hooks" !in ListKeys(i) && "size" !in ListKeys(i) && "sha256" !in ListKeys(i)
  {
    ListsFormat(i);
  }

  lemma NamesDiffer()
    ensures "hooks" != "filename" && "size" != "filename" && "size" != "hooks"
    ensures "sha256" != "filename" && "sha256" != "hooks" && "sha256" != "size"
  {
    assert "hooks"[0] == 'h' && "filename"[0] == 'f' && "size"[1] == 'i' && "sha256"[1] == 'h' && "size"[0] == 's';
  }

  /** The file name, then what is left: the lists. */
  lemma NameFormat(i: Image, ks: Keys)
    requires ks == OptString("filename", i.filename) + ListKeys(i)
    ensures Says(ks, "filename", i.filename) && ks - {"filename"} == ListKeys(i)
    ensures "hooks" !in ks && "size" !in ks && "sha256" !in ks
  {
    ListsFree(i);
    PlusString("filename", i.filename, ListKeys(i));
    OptSays("filename", i.filename);
    NamesDiffer();
  }

  /** The hooks, then what is left: file name and lists. */
  lemma FileFormat(i: Image)
    ensures var ks := FileKeys(i);
            && (if i.hooks == SlotHooks(false, false, false) then "hooks" !in ks
                else "hooks" in ks && NamesHooks(ToList(ks["hooks"], ""), i.hooks))
            && ks - {"hooks"} == OptString("filename", i.filename) + ListKeys(i)
            && "size" !in ks && "sha256" !in ks
  {
    var rest := OptString("filename", i.filename) + ListKeys(i);
    var hooks := NonEmptyList(HookNames(i.hooks));
    NameFormat(i, rest);
    HookNamesAre(i.hooks);
    PlusList("hooks", hooks, rest);
    OptSaysList("hooks", hooks);
    NamesDiffer();
  }

  lemma HookNamesAre(h: SlotHooks)
    ensures NamesHooks(HookNames(h), h) && (HookNames(h) == [] <==> h == SlotHooks(false, false, false))
  {
  }

  /** The digest, then what is left: the size, then hooks, file name and lists. */
  lemma ImageFormat(i: Image)
    requires i.size < 0x8000_0000_0000_0000
    ensures var ks := ImageKeys(i);
            && Says(ks, "sha256", i.digest)
            && SaysNumber(ks - {"sha256"}, "size", if i.size >= 0 then Some(i.size) else None)
            && ks - {"sha256"} - {"size"} == FileKeys(i)
  {
    var size: Option<nat> := if i.size >= 0 then Some(i.size) else None;
    FileFormat(i);
    PlusNumber("size", size, FileKeys(i));
    OptSaysNumber("size", size);
    NamesDiffer();
    PlusString("sha256", i.digest, OptNumber("size", size) + FileKeys(i));
  }

  lemma ImageGroupFormat(i: Image)
    requires i.slotclass.Some?
    ensures ImageGroup(i) == "image." + i.slotclass.value + (if i.artifact.Some? then "/" + i.artifact.value else "")
                             + (if i.variant.Some? then "." + i.variant.value else "")
  {
  }

  // ---- what is accepted -------------------------------------------------------------------------------

  /** A string that can be read, and is not empty. */
  predicate Given(ks: Keys, k: string) { k in ks && GoodValue(ks[k]) }

  predicate OnlyKeys(ks: Keys, names: set<string>) { ks.Keys <= names }

  /** No string is left over because it cannot be read. */
  predicate Strings(ks: Keys, names: set<string>) { forall k :: k in ks && k in names ==> ToString(ks[k]).Some? }

  lemma UpdateAcceptedIff(ks: Keys)
    ensures ParseUpdate(ks).Some? <==>
            && Given(ks, "compatible") && OnlyKeys(ks, {"compatible", "version", "description", "build"})
            && Strings(ks, {"compatible", "version", "description", "build"})
  {
    var (compatible, k1) := TakeString(ks, "compatible");
    var (version, k2) := TakeString(k1, "version");
    var (description, k3) := TakeString(k2, "description");
    var (build, k4) := TakeString(k3, "build");
    Left(ks, "compatible");
    Left(k1, "version");
    Left(k2, "description");
    Left(k3, "build");
    assert k4 == map[] <==> forall k :: k in ks ==> k !in k4;
  }

  /** What taking a string leaves. */
  lemma Left(ks: Keys, k: string)
    ensures TakeString(ks, k).1 == if k in ks && ToString(ks[k]).Some? then ks - {k} else ks
    ensures TakeString(ks, k).0.Some? <==> Given(ks, k)
    ensures TakeString(ks, k).0.Some? ==> ToString(ks[k]) == TakeString(ks, k).0
  {
  }

  /** After taking a string, the rest has only these keys exactly if there was no other before, and the string could be read. */
  lemma TakenIff(ks: Keys, k: string, names: set<string>)
    requires k !in names
    ensures var rest := TakeString(ks, k).1;
            && (OnlyKeys(rest, names) <==> OnlyKeys(ks, names + {k}) && Strings(ks, {k}))
            && forall others :: k !in others ==> (Strings(rest, others) <==> Strings(ks, others))
  {
    var rest := TakeString(ks, k).1;
    if OnlyKeys(rest, names) {
      forall x | x in ks ensures x in names + {k} {
        if x != k {
          assert x in rest;
        }
      }
      assert k in ks && ToString(ks[k]).None? ==> k in rest;
    }
    forall others | k !in others ensures Strings(rest, others) <==> Strings(ks, others) {
      if Strings(rest, others) {
        forall x | x in ks && x in others ensures ToString(ks[x]).Some? {
          assert x in rest;
        }
      }
    }
  }

  lemma DroppedIff(ks: Keys, k: string, names: set<string>)
    requires k !in names
    ensures OnlyKeys(ks - {k}, names) <==> OnlyKeys(ks, names + {k})
    ensures forall others :: k !in others ==> (Strings(ks - {k}, others) <==> Strings(ks, others))
  {
    if OnlyKeys(ks - {k}, names) {
      forall x | x in ks ensures x in names + {k} {
        if x != k {
          assert x in ks - {k};
        }
      }
    }
    forall others | k !in others ensures Strings(ks - {k}, others) <==> Strings(ks, others) {
      if Strings(ks - {k}, others) {
        forall x | x in ks && x in others ensures ToString(ks[x]).Some? {
          assert x in ks - {k};
        }
      }
    }
  }

  lemma HandlerAcceptedIff(ks: Keys)
    ensures ParseHandler(ks).Some? <==>
            && (Given(ks, "args") ==> Given(ks, "filename")) && OnlyKeys(ks, {"filename", "args"})
            && Strings(ks, {"filename", "args"})
  {
    var (name, k1) := TakeString(ks, "filename");
    var (args, k2) := TakeString(k1, "args");
    Left(ks, "filename");
    Left(k1, "args");
    assert k2 == map[] <==> forall k :: k in ks ==> k !in k2;
  }

  lemma OtherAtIff(xs: seq<string>, y: string)
    ensures (exists i :: 0 <= i < |xs| && xs[i] != y) <==> !(forall x :: x in xs ==> x == y)
  {
    if i :| 0 <= i < |xs| && xs[i] != y {
      assert xs[i] in xs;
    }
    if x :| x in xs && x != y {
      var i :| 0 <= i < |xs| && xs[i] == x;
    }
  }

  lemma HooksAcceptedIff(ks: Keys)
    ensures ParseHooks(ks).Some? <==>
            && OnlyKeys(ks, {"hooks"} + {"filename"}) && Strings(ks, {"filename"})
            && forall x :: x in HooksOf(ks) ==> x == "install-check"
  {
    var k1 := TakeString(ks, "filename").1;
    NamesDiffer();
    TakenIff(ks, "filename", {"hooks"});
    DroppedIff(k1, "hooks", {});
    assert {} + {"hooks"} == {"hooks"};
    assert k1 - {"hooks"} == map[] <==> OnlyKeys(k1 - {"hooks"}, {});
    assert ListOr(TakeList(k1, "hooks").0) == HooksOf(ks);
    OtherAtIff(HooksOf(ks), "install-check");
  }

  /** Of the bundle group, apart from its format. */
  lemma BundleAcceptedIff(ks: Keys)
    ensures var rest := TakeString(ks, "format").1;
            ParseBundle(ks).Some? <==>
            if !Given(ks, "format") || ToString(ks["format"]) == Some("plain") then
              OnlyKeys(ks, {"format"}) && Strings(ks, {"format"})
            else if ToString(ks["format"]) == Some("verity") then
              && OnlyKeys(rest, {"verity-size"} + {"verity-salt"} + {"verity-hash"})
              && Strings(rest, {"verity-salt"}) && Strings(rest, {"verity-hash"})
            else
              && ToString(ks["format"]) == Some("crypt")
              && OnlyKeys(rest, {"crypt-key"} + {"verity-size"} + {"verity-salt"} + {"verity-hash"})
              && Strings(rest, {"crypt-key"}) && Strings(rest, {"verity-salt"}) && Strings(rest, {"verity-hash"})
  {
    Left(ks, "format");
    var rest := TakeString(ks, "format").1;
    VerityAcceptedIff(rest);
    CryptAcceptedIff(rest);
    TakenIff(ks, "format", {});
    assert {} + {"format"} == {"format"};
    assert rest == map[] <==> OnlyKeys(rest, {});
  }

  lemma VerityAcceptedIff(ks: Keys)
    ensures ParseVerity(ks, false).Some? <==>
            && OnlyKeys(ks, {"verity-size"} + {"verity-salt"} + {"verity-hash"})
            && Strings(ks, {"verity-salt"}) && Strings(ks, {"verity-hash"})
  {
    var k1 := TakeString(ks, "verity-hash").1;
    var k2 := TakeString(k1, "verity-salt").1;
    VerityNamesDiffer();
    TakenIff(ks, "verity-hash", {"verity-size"} + {"verity-salt"});
    TakenIff(k1, "verity-salt", {"verity-size"});
    DroppedIff(k2, "verity-size", {});
    assert {} + {"verity-size"} == {"verity-size"};
    assert k2 - {"verity-size"} == map[] <==> OnlyKeys(k2 - {"verity-size"}, {});
  }

  lemma CryptAcceptedIff(ks: Keys)
    ensures ParseVerity(ks, true).Some? <==>
            && OnlyKeys(ks, {"crypt-key"} + {"verity-size"} + {"verity-salt"} + {"verity-hash"})
            && Strings(ks, {"crypt-key"}) && Strings(ks, {"verity-salt"}) && Strings(ks, {"verity-hash"})
  {
    var k1 := TakeString(ks, "verity-hash").1;
    var k2 := TakeString(k1, "verity-salt").1;
    var k3 := k2 - {"verity-size"};
    VerityNamesDiffer();
    TakenIff(ks, "verity-hash", {"crypt-key"} + {"verity-size"} + {"verity-salt"});
    TakenIff(k1, "verity-salt", {"crypt-key"} + {"verity-size"});
    DroppedIff(k2, "verity-size", {"crypt-key"});
    TakenIff(k3, "crypt-key", {});
    assert {} + {"crypt-key"} == {"crypt-key"};
    assert TakeString(k3, "crypt-key").1 == map[] <==> OnlyKeys(TakeString(k3, "crypt-key").1, {});
  }

  lemma {:induction false} HookNamesAcceptedIff(xs: seq<string>)
    ensures ParseHookNames(xs).Some? <==> forall x :: x in xs ==> KnownHook(x)
    ensures ParseHookNames(xs).Some? ==> NamesHooks(xs, ParseHookNames(xs).value)
    decreases |xs|
  {
    if xs != [] {
      var front, last := xs[..|xs| - 1], xs[|xs| - 1];
      HookNamesAcceptedIff(front);
      OneMoreName(front, last);
      assert xs == front + [last];
      if ParseHookNames(front).Some? && KnownHook(last) {
        OneMoreHook(front, last, ParseHookNames(front).value, ParseHookNames(xs).value);
      }
    }
  }

  lemma OneMoreName(front: seq<string>, last: string)
    ensures (forall x :: x in front + [last] ==> KnownHook(x)) <==> (forall x :: x in front ==> KnownHook(x)) && KnownHook(last)
    ensures front + [last] != []
  {
    assert last in front + [last];
  }

  lemma OneMoreHook(front: seq<string>, last: string, h: SlotHooks, h': SlotHooks)
    requires NamesHooks(front, h) && KnownHook(last)
    requires h' == if last == "pre-install" then h.(preInstall := true)
                   else if last == "install" then h.(install := true) else h.(postInstall := true)
    ensures NamesHooks(front + [last], h')
  {
  }

  /** The keys of an image; those of the last three that are older are ignored. */
  const IMAGE_KEYS := {"sha256", "size", "hooks", "filename", "adaptive", "convert", "converted",
                       "version", "description", "build"}

  /** The hooks a group names. */
  function HooksOf(ks: Keys): seq<string> { if "hooks" in ks then ToList(ks["hooks"], "") else [] }

  lemma FileAcceptedIff(ks: Keys, i: Image)
    ensures ParseImageFile(ks, i).Some? <==>
            && OnlyKeys(ks, IMAGE_KEYS - {"sha256", "size"}) && Strings(ks, {"filename"})
            && (forall x :: x in HooksOf(ks) ==> KnownHook(x))
            && (Given(ks, "filename") || "install" in HooksOf(ks))
  {
    var (hooks, k1) := TakeList(ks, "hooks");
    var (filename, k2) := TakeString(k1, "filename");
    Left(k1, "filename");
    assert ListOr(hooks) == HooksOf(ks);
    HookNamesAcceptedIff(HooksOf(ks));
    var k3 := k2 - {"version", "description", "build"} - {"adaptive"} - {"convert"} - {"converted"};
    assert k3 == map[] <==> forall k :: k in ks ==> k !in k3;
  }

  /** An image group: known keys, readable strings and size, known hooks, and a file unless a hook does without. */
  lemma ImageAcceptedIff(g: string, ks: Keys)
    requires |g| >= |IMAGE|
    ensures ParseImage(g, ks).Some? <==>
            && OnlyKeys(ks, IMAGE_KEYS) && Strings(ks, {"sha256", "filename"})
            && ("size" in ks ==> ToNumber(ks["size"]).Number64?)
            && (forall x :: x in HooksOf(ks) ==> KnownHook(x))
            && (Given(ks, "filename") || "install" in HooksOf(ks))
  {
    var (slotclass, artifact, variant) := ParseImageName(g);
    var (digest, k1) := TakeString(ks, "sha256");
    var (size, k2) := TakeNumber(k1, "size");
    Left(ks, "sha256");
    NamesDiffer();
    assert HooksOf(k2) == HooksOf(ks) && (Given(k2, "filename") <==> Given(ks, "filename"));
    assert Strings(k2, {"filename"}) <==> Strings(ks, {"filename"});
    assert OnlyKeys(k2, IMAGE_KEYS - {"sha256", "size"}) <==> OnlyKeys(ks, IMAGE_KEYS) && Strings(ks, {"sha256"}) by {
      KeysLeft(ks, k2);
    }
    FileAcceptedIff(k2, Image(slotclass, artifact, variant, digest, if size.Number64? then Signed(size.n) else -1,
                              None, SlotHooks(false, false, false), None, None, None));
  }

  lemma KeysLeft(ks: Keys, rest: Keys)
    requires rest == (if "sha256" in ks && ToString(ks["sha256"]).Some? then ks - {"sha256"} else ks) - {"size"}
    ensures OnlyKeys(rest, IMAGE_KEYS - {"sha256", "size"}) <==> OnlyKeys(ks, IMAGE_KEYS) && Strings(ks, {"sha256"})
  {
    NamesDiffer();
    if OnlyKeys(rest, IMAGE_KEYS - {"sha256", "size"}) {
      forall k | k in ks ensures k in IMAGE_KEYS {
        if k != "sha256" && k != "size" {
          assert k in rest;
        }
      }
      assert "sha256" !in rest;
    }
  }

  /** Letters, digits, '_' and '-' only. */
  predicate IsLabel(s: string) {
    forall c :: c in s ==> 'a' <= c <= 'z' || 'A' <= c <= 'Z' || '0' <= c <= '9' || c == '_' || c == '-'
  }

  lemma LabelIff(s: string)
    ensures EnvKey(s) <==> IsLabel(s)
  {
    if EnvKey(s) {
      forall c | c in s ensures EnvChar(c) {
        var i :| 0 <= i < |s| && s[i] == c;
      }
    }
    assert forall i :: 0 <= i < |s| ==> s[i] in s;
  }

  /** A metadata group: its tag and its keys can become names of environment variables, and no value is empty. */
  lemma MetaAcceptedIff(tag: string, ks: Keys)
    ensures ParseMeta("meta." + tag, ks).Some? <==> IsLabel(tag) && forall k :: k in ks ==> IsLabel(k) && Given(ks, k)
    ensures ParseMeta("meta." + tag, ks).Some? ==>
              var (name, kvs) := ParseMeta("meta." + tag, ks).value;
              name == tag && kvs.Keys == ks.Keys && forall k :: k in ks ==> Says(ks, k, Some(kvs[k]))
  {
    assert ("meta." + tag)[5..] == tag;
    LabelIff(tag);
    forall k | k in ks ensures EnvKey(k) <==> IsLabel(k) {
      LabelIff(k);
    }
  }
}
