/** Reading a manifest from a key file, which is consumed key by key. */
module ManifestParse {
  import opened Wrappers
  import opened Collections
  import opened Text
  import opened KeyFiles
  import opened Manifest
  import opened ManifestFile
  import opened ManifestPrint

  // ---- a key file that is consumed ----------------------------------------------------------------

  function RemoveName(order: seq<string>, g: string): seq<string> {
    if order == [] then []
    else
      var last := order[|order| - 1];
      RemoveName(order[..|order| - 1], g) + if last == g then [] else [last]
  }

  /** The file without a group. */
  function WithoutGroup(f: File, g: string): File {
    File(RemoveName(f.order, g), f.groups - {g})
  }

  /** The file with other keys in a group that it may have. */
  function WithGroup(f: File, g: string, ks: Keys): File {
    if g in f.groups then f.(groups := f.groups[g := ks]) else f
  }

  lemma WithGroupTwice(f: File, g: string, a: Keys, b: Keys)
    ensures WithGroup(WithGroup(f, g, a), g, b) == WithGroup(f, g, b)
    ensures WithoutGroup(WithGroup(f, g, a), g) == WithoutGroup(f, g)
    ensures g in f.groups ==> GroupOf(WithGroup(f, g, a), g) == a
    ensures WithGroup(f, g, GroupOf(f, g)) == f
  {
  }

  class Consumer {
    var file: File

    constructor (f: File)
      ensures file == f
    {
      file := f;
    }

    /** The state in the middle of reading a group: so far it has been consumed down to `rest`. */
    ghost predicate Reading(f: File, g: string, rest: Keys)
      reads this
    {
      file == WithGroup(f, g, rest) && GroupOf(file, g) == rest
    }

    method ConsumeString(g: string, k: string, ghost f: File, ghost rest: Keys) returns (v: Option<string>)
      requires Reading(f, g, rest)
      modifies this
      ensures v == TakeString(rest, k).0 && Reading(f, g, TakeString(rest, k).1)
    {
      WithGroupTwice(f, g, rest, TakeString(rest, k).1);
      if g !in file.groups || k !in file.groups[g] {
        return None;
      }
      v := ToString(file.groups[g][k]);
      if v.None? {
        return;
      }
      file := file.(groups := file.groups[g := file.groups[g] - {k}]);
      if v.value == "" {
        v := None;
      }
    }

    method RemoveKeys(g: string, ks: set<string>, ghost f: File, ghost rest: Keys)
      requires Reading(f, g, rest)
      modifies this
      ensures Reading(f, g, rest - ks)
    {
      WithGroupTwice(f, g, rest, rest - ks);
      if g in file.groups {
        file := file.(groups := file.groups[g := file.groups[g] - ks]);
      } else {
        assert rest - ks == rest;
      }
    }

    method ConsumeList(g: string, k: string, ghost f: File, ghost rest: Keys) returns (v: Option<seq<string>>)
      requires Reading(f, g, rest)
      modifies this
      ensures v == TakeList(rest, k).0 && Reading(f, g, TakeList(rest, k).1)
    {
      v := if g in file.groups && k in file.groups[g] then Some(ToList(file.groups[g][k], "")) else None;
      RemoveKeys(g, {k}, f, rest);
    }

    method ConsumeNumber(g: string, k: string, ghost f: File, ghost rest: Keys) returns (v: ReadNumber)
      requires Reading(f, g, rest)
      modifies this
      ensures v == TakeNumber(rest, k).0 && Reading(f, g, TakeNumber(rest, k).1)
    {
      v := if g in file.groups && k in file.groups[g] then ToNumber(file.groups[g][k]) else Missing;
      RemoveKeys(g, {k}, f, rest);
    }

    /** Whether all keys of a group have been consumed; then it is removed. */
    method FinishGroup(g: string, ghost f: File, ghost rest: Keys) returns (ok: bool)
      requires Reading(f, g, rest)
      modifies this
      ensures ok <==> rest == map[]
      ensures file == if ok then WithoutGroup(f, g) else old(file)
    {
      WithGroupTwice(f, g, rest, rest);
      ok := g !in file.groups || file.groups[g] == map[];
      if ok {
        file := File(RemoveName(file.order, g), file.groups - {g});
      }
    }
  }

  lemma StartReading(f: File, g: string)
    ensures f == WithGroup(f, g, GroupOf(f, g))
  {
    WithGroupTwice(f, g, map[], map[]);
  }

  // ---- the fixed groups --------------------------------------------------------------------------------

  method ReadUpdate(c: Consumer) returns (u: Option<Update>)
    modifies c
    ensures u == ParseUpdate(GroupOf(old(c.file), "update"))
    ensures u.Some? ==> c.file == WithoutGroup(old(c.file), "update")
  {
    ghost var f := c.file;
    ghost var k0 := GroupOf(f, "update");
    StartReading(f, "update");
    var compatible := c.ConsumeString("update", "compatible", f, k0);
    if compatible.None? {
      return None;
    }
    ghost var k1 := TakeString(k0, "compatible").1;
    var version := c.ConsumeString("update", "version", f, k1);
    ghost var k2 := TakeString(k1, "version").1;
    var description := c.ConsumeString("update", "description", f, k2);
    ghost var k3 := TakeString(k2, "description").1;
    var build := c.ConsumeString("update", "build", f, k3);
    var ok := c.FinishGroup("update", f, TakeString(k3, "build").1);
    u := if ok then Some(Update(compatible, version, description, build)) else None;
  }

  method ReadVerity(c: Consumer, crypt: bool, ghost f: File, ghost k0: Keys) returns (b: Option<Bundle>)
    requires c.Reading(f, "bundle", k0)
    modifies c
    ensures b == ParseVerity(k0, crypt)
    ensures b.Some? ==> c.file == WithoutGroup(f, "bundle")
  {
    var hash := c.ConsumeString("bundle", "verity-hash", f, k0);
    ghost var k1 := TakeString(k0, "verity-hash").1;
    var salt := c.ConsumeString("bundle", "verity-salt", f, k1);
    ghost var k2 := TakeString(k1, "verity-salt").1;
    var size := c.ConsumeNumber("bundle", "verity-size", f, k2);
    ghost var k3 := TakeNumber(k2, "verity-size").1;
    var key: Option<string> := None;
    ghost var k4 := k3;
    if crypt {
      key := c.ConsumeString("bundle", "crypt-key", f, k3);
      k4 := TakeString(k3, "crypt-key").1;
    }
    var ok := c.FinishGroup("bundle", f, k4);
    b := if ok
         then Some(Bundle(if crypt then Crypt else Verity, true, hash, salt, if size.Number64? then size.n else 0, key))
         else None;
  }

  method ReadBundle(c: Consumer) returns (b: Option<Bundle>)
    modifies c
    ensures b == ParseBundle(GroupOf(old(c.file), "bundle"))
    ensures b.Some? ==> c.file == WithoutGroup(old(c.file), "bundle")
  {
    ghost var f := c.file;
    ghost var k0 := GroupOf(f, "bundle");
    StartReading(f, "bundle");
    var format := c.ConsumeString("bundle", "format", f, k0);
    ghost var k1 := TakeString(k0, "format").1;
    if format.None? || format.value == "plain" {
      var ok := c.FinishGroup("bundle", f, k1);
      b := if ok then Some(Bundle(Plain, format.Some?, None, None, 0, None)) else None;
    } else if format.value == "verity" {
      b := ReadVerity(c, false, f, k1);
    } else if format.value == "crypt" {
      b := ReadVerity(c, true, f, k1);
    } else {
      b := None;
    }
  }

  method ReadHandler(c: Consumer) returns (h: Option<Handler>)
    modifies c
    ensures h == ParseHandler(GroupOf(old(c.file), "handler"))
    ensures h.Some? ==> c.file == WithoutGroup(old(c.file), "handler")
  {
    ghost var f := c.file;
    ghost var k0 := GroupOf(f, "handler");
    StartReading(f, "handler");
    var name := c.ConsumeString("handler", "filename", f, k0);
    ghost var k1 := TakeString(k0, "filename").1;
    var args := c.ConsumeString("handler", "args", f, k1);
    if args.Some? && name.None? {
      return None;
    }
    var ok := c.FinishGroup("handler", f, TakeString(k1, "args").1);
    h := if ok then Some(Handler(name, args)) else None;
  }

  method ReadHooks(c: Consumer) returns (h: Option<InstallHooks>)
    modifies c
    ensures h == ParseHooks(GroupOf(old(c.file), "hooks"))
    ensures h.Some? ==> c.file == WithoutGroup(old(c.file), "hooks")
  {
    ghost var f := c.file;
    ghost var k0 := GroupOf(f, "hooks");
    StartReading(f, "hooks");
    var name := c.ConsumeString("hooks", "filename", f, k0);
    ghost var k1 := TakeString(k0, "filename").1;
    var list := c.ConsumeList("hooks", "hooks", f, k1);
    var names := ListOr(list);
    var i := 0;
    var check := false;
    while i < |names|
      invariant 0 <= i <= |names| && check == (i > 0)
      invariant forall j :: 0 <= j < i ==> names[j] == "install-check"
    {
      if names[i] != "install-check" {
        return None;
      }
      check := true;
      i := i + 1;
    }
    var ok := c.FinishGroup("hooks", f, TakeList(k1, "hooks").1);
    h := if ok then Some(InstallHooks(name, check)) else None;
  }

  // ---- images and metadata -----------------------------------------------------------------------------

  method ReadLists(c: Consumer, g: string, i: Image, ghost f: File, ghost k0: Keys) returns (image: Option<Image>)
    requires c.Reading(f, g, k0)
    modifies c
    ensures image == ParseLists(k0, i)
    ensures image.Some? ==> c.file == WithoutGroup(f, g)
  {
    var adaptive := c.ConsumeList(g, "adaptive", f, k0);
    ghost var k1 := TakeList(k0, "adaptive").1;
    var convert := c.ConsumeList(g, "convert", f, k1);
    ghost var k2 := TakeList(k1, "convert").1;
    var converted := c.ConsumeList(g, "converted", f, k2);
    var ok := c.FinishGroup(g, f, TakeList(k2, "converted").1);
    image := if ok then Some(i.(adaptive := adaptive, convert := convert, converted := converted)) else None;
  }

  /** The hooks of an image; an unknown one is an error. */
  method ReadHookNames(names: seq<string>) returns (hooks: Option<SlotHooks>)
    ensures hooks == ParseHookNames(names)
  {
    var h := SlotHooks(false, false, false);
    var i := 0;
    while i < |names|
      invariant 0 <= i <= |names|
      invariant ParseHookNames(names[..i]) == Some(h)
    {
      assert names[..i + 1][..i] == names[..i];
      if names[i] == "pre-install" {
        h := h.(preInstall := true);
      } else if names[i] == "install" {
        h := h.(install := true);
      } else if names[i] == "post-install" {
        h := h.(postInstall := true);
      } else {
        BadHook(names, i + 1);
        return None;
      }
      i := i + 1;
    }
    assert names[..i] == names;
    hooks := Some(h);
  }

  lemma {:induction false} BadHook(names: seq<string>, n: nat)
    requires n <= |names| && ParseHookNames(names[..n]).None?
    ensures ParseHookNames(names).None?
    decreases |names|
  {
    if n == |names| {
      assert names[..n] == names;
    } else {
      assert names[..|names| - 1][..n] == names[..n];
      BadHook(names[..|names| - 1], n);
    }
  }

  method ReadImageFile(c: Consumer, g: string, i: Image, ghost f: File, ghost k0: Keys) returns (image: Option<Image>)
    requires c.Reading(f, g, k0)
    modifies c
    ensures image == ParseImageFile(k0, i)
    ensures image.Some? ==> c.file == WithoutGroup(f, g)
  {
    var list := c.ConsumeList(g, "hooks", f, k0);
    ghost var k1 := TakeList(k0, "hooks").1;
    var hooks := ReadHookNames(ListOr(list));
    if hooks.None? {
      return None;
    }
    var filename := c.ConsumeString(g, "filename", f, k1);
    ghost var k2 := TakeString(k1, "filename").1;
    if filename.None? && !hooks.value.install {
      return None;
    }
    c.RemoveKeys(g, {"version", "description", "build"}, f, k2);
    image := ReadLists(c, g, i.(hooks := hooks.value, filename := filename), f, k2 - {"version", "description", "build"});
  }

  method ReadImage(c: Consumer, g: string) returns (image: Option<Image>)
    requires |g| >= |IMAGE|
    modifies c
    ensures image == ParseImage(g, GroupOf(old(c.file), g))
    ensures image.Some? ==> c.file == WithoutGroup(old(c.file), g)
  {
    ghost var f := c.file;
    ghost var k0 := GroupOf(f, g);
    StartReading(f, g);
    var (slotclass, artifact, variant) := ParseImageName(g);
    var digest := c.ConsumeString(g, "sha256", f, k0);
    ghost var k1 := TakeString(k0, "sha256").1;
    var size := c.ConsumeNumber(g, "size", f, k1);
    ghost var k2 := TakeNumber(k1, "size").1;
    if size.Invalid? {
      return None;
    }
    image := ReadImageFile(c, g, Image(slotclass, artifact, variant, digest, if size.Missing? then -1 else Signed(size.n),
                                       None, SlotHooks(false, false, false), None, None, None), f, k2);
  }

  /** What has been read of a metadata group. */
  function ReadPart(ks: Keys, keys: seq<string>): map<string, string> {
    map k | k in keys && k in ks && GoodValue(ks[k]) :: ToString(ks[k]).value
  }

  function RestPart(ks: Keys, keys: seq<string>): Keys {
    map k | k in ks && k !in keys :: ks[k]
  }

  predicate GoodPart(ks: Keys, keys: seq<string>) {
    forall k :: k in keys ==> k in ks && GoodValue(ks[k]) && EnvKey(k)
  }

  method ReadMetaKey(c: Consumer, g: string, keys: seq<string>, i: nat, kvs: map<string, string>, ghost f: File,
                     ghost ks: Keys)
    returns (more: Option<map<string, string>>)
    requires i < |keys| && keys[i] in ks && keys[i] !in keys[..i]
    requires c.Reading(f, g, RestPart(ks, keys[..i])) && kvs == ReadPart(ks, keys[..i]) && GoodPart(ks, keys[..i])
    modifies c
    ensures more.Some? <==> GoodPart(ks, keys[..i + 1])
    ensures more.Some? ==> c.Reading(f, g, RestPart(ks, keys[..i + 1])) && more.value == ReadPart(ks, keys[..i + 1])
  {
    var k := keys[i];
    assert keys[..i + 1] == keys[..i] + [k];
    ghost var rest := RestPart(ks, keys[..i]);
    assert rest[k] == ks[k];
    assert RestPart(ks, keys[..i + 1]) == rest - {k};
    var value := c.ConsumeString(g, k, f, rest);
    if value.None? || !EnvKey(k) {
      return None;
    }
    assert ReadPart(ks, keys[..i + 1]) == kvs[k := value.value];
    more := Some(kvs[k := value.value]);
  }

  /** What is read of a group of metadata: like ParseMeta, with the values read so far. */
  method ReadMetaKeys(c: Consumer, g: string, ghost f: File, ghost ks: Keys) returns (kvs: Option<map<string, string>>)
    requires c.Reading(f, g, ks) && ks == GroupOf(f, g)
    modifies c
    ensures kvs.Some? <==> GoodEntries(ks)
    ensures kvs.Some? ==> kvs.value == ValuesOf(ks)
    ensures kvs.Some? ==> c.Reading(f, g, map[])
  {
    var keys := List(if g in c.file.groups then c.file.groups[g].Keys else {});
    assert forall k :: k in keys <==> k in ks;
    var read: map<string, string> := map[];
    var i := 0;
    NoPartRead(ks, keys);
    while i < |keys|
      invariant 0 <= i <= |keys|
      invariant c.Reading(f, g, RestPart(ks, keys[..i])) && read == ReadPart(ks, keys[..i]) && GoodPart(ks, keys[..i])
    {
      assert keys[i] in keys && keys[i] !in keys[..i];
      var more := ReadMetaKey(c, g, keys, i, read, f, ks);
      if more.None? {
        BadPart(ks, keys, i + 1);
        return None;
      }
      read := more.value;
      i := i + 1;
    }
    assert keys[..i] == keys;
    AllPartsRead(ks, keys);
    kvs := Some(read);
  }

  lemma NoPartRead(ks: Keys, keys: seq<string>)
    ensures RestPart(ks, keys[..0]) == ks && ReadPart(ks, keys[..0]) == map[]
  {
  }

  lemma AllPartsRead(ks: Keys, keys: seq<string>)
    requires GoodPart(ks, keys) && forall k :: k in keys <==> k in ks
    ensures RestPart(ks, keys) == map[] && ReadPart(ks, keys) == ValuesOf(ks) && GoodEntries(ks)
  {
  }

  lemma BadPart(ks: Keys, keys: seq<string>, n: nat)
    requires n <= |keys| && !GoodPart(ks, keys[..n]) && forall k :: k in keys <==> k in ks
    ensures !GoodEntries(ks)
  {
    var k :| k in keys[..n] && !(k in ks && GoodValue(ks[k]) && EnvKey(k));
    assert k in keys;
  }

  method ReadMeta(c: Consumer, g: string) returns (found: Option<(string, map<string, string>)>)
    requires |g| >= |META|
    modifies c
    ensures found == ParseMeta(g, GroupOf(old(c.file), g))
    ensures found.Some? ==> c.file == WithoutGroup(old(c.file), g)
  {
    ghost var f := c.file;
    StartReading(f, g);
    var tag := g[|META|..];
    if '.' in tag || !EnvKey(tag) {
      return None;
    }
    var kvs := ReadMetaKeys(c, g, f, GroupOf(f, g));
    if kvs.None? {
      return None;
    }
    var ok := c.FinishGroup(g, f, map[]);
    found := Some((tag, kvs.value));
  }

  // ---- the whole file ------------------------------------------------------------------------------------

  function WithoutNames(order: seq<string>, names: set<string>): seq<string> {
    if order == [] then []
    else
      var last := order[|order| - 1];
      WithoutNames(order[..|order| - 1], names) + if last in names then [] else [last]
  }

  lemma {:induction false} RemoveOneMore(order: seq<string>, names: set<string>, g: string)
    ensures RemoveName(WithoutNames(order, names), g) == WithoutNames(order, names + {g})
    decreases |order|
  {
    if order != [] {
      var front, last := order[..|order| - 1], order[|order| - 1];
      RemoveOneMore(front, names, g);
      RemoveSnoc(WithoutNames(front, names), last, g);
      assert WithoutNames(front, names) + [] == WithoutNames(front, names);
    }
  }

  lemma {:induction false} WithoutNone(order: seq<string>)
    ensures WithoutNames(order, {}) == order
    decreases |order|
  {
    if order != [] {
      WithoutNone(order[..|order| - 1]);
    }
  }

  lemma {:induction false} WithoutHeadsIs(order: seq<string>)
    ensures WithoutHeads(order) == WithoutNames(order, HEADS)
    decreases |order|
  {
    if order != [] {
      WithoutHeadsIs(order[..|order| - 1]);
    }
  }

  lemma RemoveHeads(order: seq<string>)
    ensures RemoveName(RemoveName(RemoveName(RemoveName(order, "update"), "bundle"), "handler"), "hooks") ==
              WithoutHeads(order)
  {
    WithoutNone(order);
    RemoveOneMore(order, {}, "update");
    RemoveOneMore(order, {} + {"update"}, "bundle");
    RemoveOneMore(order, {} + {"update"} + {"bundle"}, "handler");
    RemoveOneMore(order, {} + {"update"} + {"bundle"} + {"handler"}, "hooks");
    assert {} + {"update"} + {"bundle"} + {"handler"} + {"hooks"} == HEADS;
    WithoutHeadsIs(order);
  }

  lemma RemoveSnoc(order: seq<string>, last: string, g: string)
    ensures RemoveName(order + [last], g) == RemoveName(order, g) + if last == g then [] else [last]
  {
    assert (order + [last])[..|order|] == order;
  }

  lemma {:induction false} RemoveKeepsOthers(order: seq<string>, g: string, x: string)
    ensures x in RemoveName(order, g) <==> x in order && x != g
    decreases |order|
  {
    if order != [] {
      RemoveKeepsOthers(order[..|order| - 1], g, x);
      assert order == order[..|order| - 1] + [order[|order| - 1]];
    }
  }

  /** The fixed groups are read and removed in turn. */
  method ReadHeads(c: Consumer) returns (heads: Option<(Update, Bundle, Handler, InstallHooks)>)
    modifies c
    ensures heads.Some? ==>
              var f := old(c.file);
              && ParseUpdate(GroupOf(f, "update")) == Some(heads.value.0)
                  && ParseBundle(GroupOf(f, "bundle")) == Some(heads.value.1)
              && ParseHandler(GroupOf(f, "handler")) == Some(heads.value.2)
                  && ParseHooks(GroupOf(f, "hooks")) == Some(heads.value.3)
              && c.file == WithoutGroup(WithoutGroup(WithoutGroup(WithoutGroup(f, "update"), "bundle"), "handler"), "hooks")
    ensures heads.None? ==> Parsed(old(c.file)).None?
  {
    HeadNames();
    var update := ReadUpdate(c);
    if update.None? {
      return None;
    }
    var bundle := ReadBundle(c);
    if bundle.None? {
      return None;
    }
    var handler := ReadHandler(c);
    if handler.None? {
      return None;
    }
    var hooks := ReadHooks(c);
    if hooks.None? {
      return None;
    }
    heads := Some((update.value, bundle.value, handler.value, hooks.value));
  }

  lemma HeadNames()
    ensures "update" != "bundle" && "update" != "handler" && "update" != "hooks"
    ensures "bundle" != "handler" && "bundle" != "hooks" && "handler" != "hooks"
  {
    assert "update"[0] == 'u' && "bundle"[0] == 'b' && "handler"[1] == 'a' && "hooks"[1] == 'o';
  }

  /** Reading one of the remaining groups; a group that is neither image nor metadata stays. */
  method ReadGroup(c: Consumer, g: string) returns (ok: bool, found: Option<Found>)
    modifies c
    ensures ok && found.Some? <==> ParseGroup(old(c.file), g).Some?
    ensures ok && found.Some? ==> found == ParseGroup(old(c.file), g) && c.file == WithoutGroup(old(c.file), g)
    ensures ok && found.None? ==> c.file == old(c.file)
    ensures ok ==> (found.None? <==> IsOther(g))
  {
    ok, found := true, None;
    if HasPrefix(g, IMAGE) {
      var image := ReadImage(c, g);
      if image.None? {
        return false, None;
      }
      found := Some(FoundImage(image.value));
    } else if HasPrefix(g, META) {
      var meta := ReadMeta(c, g);
      if meta.None? {
        return false, None;
      }
      found := Some(FoundMeta(meta.value.0, meta.value.1));
    }
  }

  /** Group names are distinct, and exactly the names in order have groups. */
  ghost predicate WellOrdered(f: File) {
    Distinct(f.order) && forall g :: g in f.order <==> g in f.groups
  }

  predicate IsOther(g: string) { !HasPrefix(g, IMAGE) && !HasPrefix(g, META) }

  /** After the first groups of the order have been read, the others and the unknown ones are left. */
  ghost predicate Left(f: File, now: File, i: nat)
    requires i <= |f.order|
  {
    && (forall j :: i <= j < |f.order| ==> GroupOf(now, f.order[j]) == GroupOf(f, f.order[j]))
    && forall g :: g in now.order <==> exists j :: 0 <= j < |f.order| && f.order[j] == g && (j >= i || IsOther(g))
  }

  lemma LeftAfter(f: File, now: File, next: File, i: nat)
    requires i < |f.order| && Left(f, now, i) && forall a, b :: 0 <= a < b < |f.order| ==> f.order[a] != f.order[b]
    requires next == if IsOther(f.order[i]) then now else WithoutGroup(now, f.order[i])
    ensures Left(f, next, i + 1)
  {
    var g := f.order[i];
    forall x ensures x in next.order <==>
        exists j :: 0 <= j < |f.order| && f.order[j] == x && (j >= i + 1 || IsOther(x)) {
      RemoveKeepsOthers(now.order, g, x);
      if j :| 0 <= j < |f.order| && f.order[j] == x && (j >= i || IsOther(x)) {
        assert j > i || IsOther(x) || x == g;
      }
    }
  }

  lemma {:induction false} NoRestOfPrefix(parse: GroupParser, names: seq<string>, n: nat)
    requires n <= |names| && ParseRest(parse, names[..n]).None?
    ensures ParseRest(parse, names).None?
    decreases |names|
  {
    if n == |names| {
      assert names[..n] == names;
    } else {
      assert names[..|names| - 1][..n] == names[..n];
      NoRestOfPrefix(parse, names[..|names| - 1], n);
    }
  }

  lemma RestSnoc(parse: GroupParser, names: seq<string>, i: nat)
    requires i < |names|
    ensures ParseRest(parse, names[..i + 1]) ==
            match ParseRest(parse, names[..i])
            case None => None
            case Some(rest) => (match parse(names[i]) case None => None case Some(found) => Some(WithFound(rest, found)))
  {
    assert names[..i + 1][..i] == names[..i] && names[..i + 1][i] == names[i];
  }

  lemma ParserDependsOn(f: File, now: File, g: string)
    requires GroupOf(now, g) == GroupOf(f, g)
    ensures ParseGroup(now, g) == ParserOf(f)(g)
    ensures IsOther(g) ==> ParseGroup(now, g).None?
  {
  }

  /** What has been read of the first groups; an unknown group makes the result worthless. */
  ghost predicate ReadSoFar(parse: GroupParser, names: seq<string>, i: nat, rest: Rest)
    requires i <= |names|
  {
    if forall j :: 0 <= j < i ==> !IsOther(names[j]) then ParseRest(parse, names[..i]) == Some(rest)
    else ParseRest(parse, names[..i]).None?
  }

  lemma ReadOneMore(f: File, i: nat, rest: Rest, found: Option<Found>)
    requires i < |f.order| && ReadSoFar(ParserOf(f), f.order, i, rest)
    requires found.Some? ==> found == ParserOf(f)(f.order[i]) && !IsOther(f.order[i])
    requires found.None? ==> IsOther(f.order[i]) && ParserOf(f)(f.order[i]).None?
    ensures ReadSoFar(ParserOf(f), f.order, i + 1, if found.Some? then WithFound(rest, found.value) else rest)
  {
    RestSnoc(ParserOf(f), f.order, i);
  }

  method ReadNext(c: Consumer, ghost f: File, i: nat, g: string, rest: Rest) returns (next: Option<Rest>)
    requires WellOrdered(f) && i < |f.order| && g == f.order[i]
    requires Progress(f, c.file, i, rest)
    modifies c
    ensures next.Some? ==> Progress(f, c.file, i + 1, next.value)
    ensures next.None? ==> ParseRest(ParserOf(f), f.order).None?
  {
    ghost var now := c.file;
    ParserDependsOn(f, now, g);
    var ok, found := ReadGroup(c, g);
    if !ok {
      RestSnoc(ParserOf(f), f.order, i);
      NoRestOfPrefix(ParserOf(f), f.order, i + 1);
      return None;
    }
    LeftAfter(f, now, c.file, i);
    ReadOneMore(f, i, rest, found);
    next := Some(if found.Some? then WithFound(rest, found.value) else rest);
  }

  /** What is known after some of the groups, whatever comes next. */
  ghost predicate Progress(f: File, now: File, i: nat, rest: Rest) {
    i <= |f.order| && Left(f, now, i) && ReadSoFar(ParserOf(f), f.order, i, rest)
  }

  method ReadAll(c: Consumer, ghost f: File, order: seq<string>) returns (r: Option<Rest>)
    requires WellOrdered(f) && order == f.order && c.file == f
    modifies c
    ensures r.Some? ==> Progress(f, c.file, |order|, r.value)
    ensures r.None? ==> ParseRest(ParserOf(f), f.order).None?
  {
    var rest := Rest([], map[]);
    var i := 0;
    NothingRead(f);
    while i < |order|
      invariant 0 <= i <= |order|
      invariant Progress(f, c.file, i, rest)
    {
      var next := ReadNext(c, f, i, order[i], rest);
      if next.None? {
        return None;
      }
      rest := next.value;
      i := i + 1;
    }
    r := Some(rest);
  }

  method ReadRest(c: Consumer) returns (r: Option<Rest>)
    requires WellOrdered(c.file)
    modifies c
    ensures r == ParseRest(ParserOf(old(c.file)), old(c.file).order)
  {
    ghost var f := c.file;
    r := ReadAll(c, f, c.file.order);
    if r.Some? {
      Finished(f, c.file, r.value);
      if c.file.order != [] {
        r := None;
      }
    }
  }

  lemma NothingRead(f: File)
    ensures Progress(f, f, 0, Rest([], map[]))
  {
    assert f.order[..0] == [];
  }

  lemma Finished(f: File, now: File, rest: Rest)
    requires Progress(f, now, |f.order|, rest)
    ensures ParseRest(ParserOf(f), f.order) == if now.order == [] then Some(rest) else None
  {
    assert f.order[..|f.order|] == f.order;
    NothingLeft(f, now);
  }

  lemma NothingLeft(f: File, now: File)
    requires Left(f, now, |f.order|)
    ensures now.order == [] <==> forall j :: 0 <= j < |f.order| ==> !IsOther(f.order[j])
  {
    if now.order != [] {
      assert now.order[0] in now.order;
    }
    if j :| 0 <= j < |f.order| && IsOther(f.order[j]) {
      assert f.order[j] in now.order;
    }
  }

  // ---- from the file to the manifest -----------------------------------------------------------------

  function WithoutAllHeads(f: File): File {
    WithoutGroup(WithoutGroup(WithoutGroup(WithoutGroup(f, "update"), "bundle"), "handler"), "hooks")
  }

  lemma {:induction false} RemoveIsDistinct(order: seq<string>, g: string)
    requires Distinct(order)
    ensures Distinct(RemoveName(order, g))
    decreases |order|
  {
    if order != [] {
      var front, last := order[..|order| - 1], order[|order| - 1];
      RemoveIsDistinct(front, g);
      RemoveKeepsOthers(front, g, last);
      var r := RemoveName(front, g);
      forall i | 0 <= i < |r| ensures r[i] != last {
        assert r[i] in r;
      }
      assert last !in front;
    }
  }

  lemma StaysOrdered(f: File, g: string)
    requires WellOrdered(f)
    ensures WellOrdered(WithoutGroup(f, g))
  {
    RemoveIsDistinct(f.order, g);
    var w := WithoutGroup(f, g);
    forall x ensures x in w.order <==> x in w.groups {
      RemoveKeepsOthers(f.order, g, x);
      assert x in f.order <==> x in f.groups;
    }
  }

  lemma HeadsGone(f: File)
    requires WellOrdered(f)
    ensures WellOrdered(WithoutAllHeads(f)) && WithoutAllHeads(f).order == WithoutHeads(f.order)
  {
    var f1 := WithoutGroup(f, "update");
    var f2 := WithoutGroup(f1, "bundle");
    var f3 := WithoutGroup(f2, "handler");
    StaysOrdered(f, "update");
    StaysOrdered(f1, "bundle");
    StaysOrdered(f2, "handler");
    StaysOrdered(f3, "hooks");
    RemoveHeads(f.order);
  }

  lemma OthersStay(f: File, g: string)
    requires g !in HEADS
    ensures GroupOf(WithoutAllHeads(f), g) == GroupOf(f, g)
  {
  }

  lemma {:induction false} SameRest(f: File, f': File, names: seq<string>)
    requires forall g :: g in names ==> GroupOf(f', g) == GroupOf(f, g)
    ensures ParseRest(ParserOf(f'), names) == ParseRest(ParserOf(f), names)
    decreases |names|
  {
    if names != [] {
      var front, last := names[..|names| - 1], names[|names| - 1];
      SameRest(f, f', front);
      assert last in names;
      ParserDependsOn(f, f', last);
    }
  }

  lemma {:induction false} HeadsAreOut(order: seq<string>)
    ensures forall g :: g in WithoutHeads(order) ==> g !in HEADS
    decreases |order|
  {
    if order != [] {
      HeadsAreOut(order[..|order| - 1]);
    }
  }

  /** Reading a manifest consumes the key file; the result is the one that the file determines. */
  method ParseManifest(c: Consumer) returns (m: Option<Manifest>)
    requires WellOrdered(c.file)
    modifies c
    ensures m == Parsed(old(c.file))
  {
    ghost var f := c.file;
    var heads := ReadHeads(c);
    if heads.None? {
      return None;
    }
    HeadsGone(f);
    HeadsAreOut(f.order);
    forall g | g in WithoutHeads(f.order) ensures GroupOf(WithoutAllHeads(f), g) == GroupOf(f, g) {
      OthersStay(f, g);
    }
    SameRest(f, WithoutAllHeads(f), WithoutHeads(f.order));
    var rest := ReadRest(c);
    m := if rest.None? then None
         else Some(Manifest(heads.value.0, heads.value.1, heads.value.2, heads.value.3, rest.value.images, rest.value.meta));
  }

  // ---- printing and reading back ------------------------------------------------------------------------

  lemma KeysKeepOrder(f: File, g: string, ks: Keys)
    requires WellOrdered(f)
    ensures WellOrdered(WithKeys(f, g, ks))
  {
    if ks != map[] && g !in f.groups {
      assert g !in f.order;
      forall x ensures x in f.order + [g] <==> x in f.groups || x == g {
      }
    }
  }

  lemma {:induction false} SectionsKeepOrder(sections: seq<Section>)
    ensures WellOrdered(WithSections(EMPTY, sections))
    decreases |sections|
  {
    if sections != [] {
      var front, last := sections[..|sections| - 1], sections[|sections| - 1];
      SectionsKeepOrder(front);
      KeysKeepOrder(WithSections(EMPTY, front), last.0, last.1);
    }
  }

  /** A well-formed manifest survives being printed and read back. */
  method PrintAndParse(m: Manifest) returns (read: Option<Manifest>)
    requires WellFormed(m)
    ensures read == Some(m)
  {
    var kf, tags := PrepareManifest(m);
    SectionsKeepOrder(HeadSections(m) + (ImageSections(m.images) + MetaSections(m.meta, tags)));
    var c := new Consumer(kf.file);
    read := ParseManifest(c);
    ManifestRoundTrips(m, tags);
  }
}
