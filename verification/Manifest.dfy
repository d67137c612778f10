/**
 Manifests: what is printed into a key file, and what is read back from one.
 */
module Manifest {
  import opened Wrappers
  import opened Text
  import opened KeyFiles

  datatype Format = Plain | Verity | Crypt

  datatype SlotHooks = SlotHooks(preInstall: bool, install: bool, postInstall: bool)

  datatype Image = Image(
    slotclass: Option<string>, artifact: Option<string>, variant: Option<string>,
    digest: Option<string>, size: int, filename: Option<string>, hooks: SlotHooks,
    adaptive: Option<seq<string>>, convert: Option<seq<string>>, converted: Option<seq<string>>)

  datatype Update = Update(
    compatible: Option<string>, version: Option<string>, description: Option<string>, build: Option<string>)

  datatype Bundle = Bundle(
    format: Format, explicit: bool, verityHash: Option<string>, veritySalt: Option<string>, veritySize: nat,
    cryptKey: Option<string>)

  datatype Handler = Handler(name: Option<string>, args: Option<string>)

  datatype InstallHooks = InstallHooks(name: Option<string>, installCheck: bool)

  type Meta = map<string, map<string, string>>

  datatype Manifest = Manifest(
    update: Update, bundle: Bundle, handler: Handler, hooks: InstallHooks, images: seq<Image>, meta: Meta)

  // ---- [update], [bundle], [handler], [hooks] ---------------------------------------------------

  function UpdateKeys(u: Update): Keys {
    OptString("compatible", u.compatible) + (OptString("version", u.version)
    + (OptString("description", u.description) + (OptString("build", u.build) + map[])))
  }

  function ParseUpdate(ks: Keys): Option<Update> {
    var (compatible, k1) := TakeString(ks, "compatible");
    if compatible.None? then None
    else
      var (version, k2) := TakeString(k1, "version");
      var (description, k3) := TakeString(k2, "description");
      var (build, k4) := TakeString(k3, "build");
      if k4 != map[] then None else Some(Update(compatible, version, description, build))
  }

  function FormatName(f: Format): string {
    match f case Plain => "plain" case Verity => "verity" case Crypt => "crypt"
  }

  function VerityKeys(b: Bundle): Keys {
    OptString("verity-hash", b.verityHash) + (OptString("verity-salt", b.veritySalt)
    + (OptNumber("verity-size", if b.veritySize > 0 then Some(b.veritySize) else None)
    + (OptString("crypt-key", if b.format.Crypt? then b.cryptKey else None) + map[])))
  }

  function BundleKeys(b: Bundle): Keys {
    if b.format.Plain? then OptString("format", if b.explicit then Some("plain") else None) + map[]
    else OptString("format", Some(FormatName(b.format))) + VerityKeys(b)
  }

  function ParseVerity(ks: Keys, crypt: bool): Option<Bundle> {
    var (hash, k1) := TakeString(ks, "verity-hash");
    var (salt, k2) := TakeString(k1, "verity-salt");
    var (size, k3) := TakeNumber(k2, "verity-size");
    var (key, k4) := if crypt then TakeString(k3, "crypt-key") else (None, k3);
    if k4 != map[] then None
    else Some(Bundle(if crypt then Crypt else Verity, true, hash, salt, if size.Number64? then size.n else 0, key))
  }

  function ParseBundle(ks: Keys): Option<Bundle> {
    var (format, rest) := TakeString(ks, "format");
    if format.None? || format.value == "plain" then
      if rest != map[] then None else Some(Bundle(Plain, format.Some?, None, None, 0, None))
    else if format.value == "verity" then ParseVerity(rest, false)
    else if format.value == "crypt" then ParseVerity(rest, true)
    else None
  }

  function HandlerKeys(h: Handler): Keys {
    OptString("filename", h.name) + (OptString("args", h.args) + map[])
  }

  function ParseHandler(ks: Keys): Option<Handler> {
    var (name, k1) := TakeString(ks, "filename");
    var (args, k2) := TakeString(k1, "args");
    if args.Some? && name.None? then None
    else if k2 != map[] then None
    else Some(Handler(name, args))
  }

  function HooksKeys(h: InstallHooks): Keys {
    OptString("filename", h.name) + (OptList("hooks", if h.installCheck then Some(["install-check"]) else None) + map[])
  }

  function ListOr(xs: Option<seq<string>>): seq<string> { if xs.Some? then xs.value else [] }

  function ParseHooks(ks: Keys): Option<InstallHooks> {
    var (name, k1) := TakeString(ks, "filename");
    var (list, k2) := TakeList(k1, "hooks");
    if exists i :: 0 <= i < |ListOr(list)| && ListOr(list)[i] != "install-check" then None
    else if k2 != map[] then None
    else Some(InstallHooks(name, ListOr(list) != []))
  }

  // ---- images --------------------------------------------------------------------------------------

  const IMAGE := "image."
  const META := "meta."

  function Suffix(sep: char, v: Option<string>): string {
    if v.Some? then [sep] + v.value else ""
  }

  function ClassOf(i: Image): string { if i.slotclass.Some? then i.slotclass.value else "" }

  function ImageGroup(i: Image): string {
    IMAGE + ((ClassOf(i) + Suffix('/', i.artifact)) + Suffix('.', i.variant))
  }

  function HookNames(h: SlotHooks): seq<string> {
    (if h.preInstall then ["pre-install"] else []) + (if h.install then ["install"] else [])
    + if h.postInstall then ["post-install"] else []
  }

  function NonEmptyList(xs: seq<string>): Option<seq<string>> { if xs == [] then None else Some(xs) }

  function ListKeys(i: Image): Keys {
    OptList("adaptive", i.adaptive) + (OptList("convert", i.convert)
    + (OptList("converted", if i.converted == Some([]) then None else i.converted) + map[]))
  }

  function FileKeys(i: Image): Keys {
    OptList("hooks", NonEmptyList(HookNames(i.hooks))) + (OptString("filename", i.filename) + ListKeys(i))
  }

  function ImageKeys(i: Image): Keys {
    OptString("sha256", i.digest) + (OptNumber("size", if i.size >= 0 then Some(i.size) else None) + FileKeys(i))
  }

  /** The part before the first separator, and the part after it. */
  function Cut(s: string, sep: char): (string, Option<string>) {
    if s == "" then ("", None)
    else if s[0] == sep then ("", Some(s[1..]))
    else var (a, b) := Cut(s[1..], sep); ([s[0]] + a, b)
  }

  function ParseHookNames(xs: seq<string>): Option<SlotHooks>
    decreases |xs|
  {
    if xs == [] then Some(SlotHooks(false, false, false))
    else match ParseHookNames(xs[..|xs| - 1])
      case None => None
      case Some(h) =>
        var x := xs[|xs| - 1];
        if x == "pre-install" then Some(h.(preInstall := true))
        else if x == "install" then Some(h.(install := true))
        else if x == "post-install" then Some(h.(postInstall := true))
        else None
  }

  /** A 64-bit number read as a signed one. */
  function Signed(n: nat): int {
    if n < 0x8000_0000_0000_0000 then n else n - 0x1_0000_0000_0000_0000
  }

  /** It is the same number modulo 2^64, from -2^63 to 2^63 - 1. */
  lemma SignedMeaning(n: nat)
    requires n < 0x1_0000_0000_0000_0000
    ensures -0x8000_0000_0000_0000 <= Signed(n) < 0x8000_0000_0000_0000
    ensures Signed(n) % 0x1_0000_0000_0000_0000 == n
  {
    if n >= 0x8000_0000_0000_0000 {
      assert n == Signed(n) + 0x1_0000_0000_0000_0000;
    }
  }

  /** Class, artifact and variant from the name of a group. */
  function ParseImageName(g: string): (Option<string>, Option<string>, Option<string>)
    requires |g| >= |IMAGE|
  {
    var (target, variant) := Cut(g[|IMAGE|..], '.');
    if target == "" then (None, None, variant)
    else
      var (slotclass, artifact) := Cut(target, '/');
      (Some(slotclass), artifact, variant)
  }

  /** The lists at the end of an image group. */
  function ParseLists(ks: Keys, i: Image): Option<Image> {
    var (adaptive, k1) := TakeList(ks, "adaptive");
    var (convert, k2) := TakeList(k1, "convert");
    var (converted, k3) := TakeList(k2, "converted");
    if k3 != map[] then None else Some(i.(adaptive := adaptive, convert := convert, converted := converted))
  }

  /** Hooks and file name; only an install hook can do without a file. */
  function ParseImageFile(ks: Keys, i: Image): Option<Image> {
    var (hooks, k1) := TakeList(ks, "hooks");
    match ParseHookNames(ListOr(hooks))
    case None => None
    case Some(h) =>
      var (filename, k2) := TakeString(k1, "filename");
      if filename.None? && !h.install then None
      else ParseLists(k2 - {"version", "description", "build"}, i.(hooks := h, filename := filename))
  }

  function ParseImage(g: string, ks: Keys): Option<Image>
    requires |g| >= |IMAGE|
  {
    var (slotclass, artifact, variant) := ParseImageName(g);
    var (digest, k1) := TakeString(ks, "sha256");
    var (size, k2) := TakeNumber(k1, "size");
    if size.Invalid? then None
    else
      ParseImageFile(k2, Image(slotclass, artifact, variant, digest, if size.Missing? then -1 else Signed(size.n),
                               None, SlotHooks(false, false, false), None, None, None))
  }

  // ---- metadata ------------------------------------------------------------------------------------

  predicate EnvChar(c: char) {
    'a' <= c <= 'z' || 'A' <= c <= 'Z' || '0' <= c <= '9' || c == '_' || c == '-'
  }

  /** A name that can become one of an environment variable. */
  predicate EnvKey(s: string) { forall i :: 0 <= i < |s| ==> EnvChar(s[i]) }

  function MetaKeys(kvs: map<string, string>): Keys {
    map k | k in kvs :: OfString(kvs[k])
  }

  predicate GoodValue(v: Value) { ToString(v).Some? && ToString(v).value != "" }

  predicate GoodEntries(ks: Keys) { forall k :: k in ks ==> GoodValue(ks[k]) && EnvKey(k) }

  /** The values of a group as strings. */
  function ValuesOf(ks: Keys): map<string, string> {
    map k | k in ks && GoodValue(ks[k]) :: ToString(ks[k]).value
  }

  function ParseMeta(g: string, ks: Keys): Option<(string, map<string, string>)>
    requires |g| >= |META|
  {
    var tag := g[|META|..];
    if '.' in tag || !EnvKey(tag) then None
    else if !GoodEntries(ks) then None
    else Some((tag, ValuesOf(ks)))
  }

  // ---- the whole manifest -------------------------------------------------------------------------------

  function ImageSections(images: seq<Image>): seq<Section> {
    if images == [] then []
    else
      var last := images[|images| - 1];
      ImageSections(images[..|images| - 1]) + if last.slotclass.None? then [] else [(ImageGroup(last), ImageKeys(last))]
  }

  function MetaSections(meta: Meta, tags: seq<string>): seq<Section>
    requires forall l :: l in tags ==> l in meta
  {
    if tags == [] then []
    else
      var last := tags[|tags| - 1];
      MetaSections(meta, tags[..|tags| - 1]) + [(META + last, MetaKeys(meta[last]))]
  }

  function HeadSections(m: Manifest): seq<Section> {
    [("update", UpdateKeys(m.update)), ("bundle", BundleKeys(m.bundle)),
     ("handler", HandlerKeys(m.handler)), ("hooks", HooksKeys(m.hooks))]
  }

  /** The key file of a manifest; the tags are those of its metadata in the order of the hash table. */
  function Prepared(m: Manifest, tags: seq<string>): File
    requires forall l :: l in tags ==> l in m.meta
  {
    WithSections(EMPTY, HeadSections(m) + (ImageSections(m.images) + MetaSections(m.meta, tags)))
  }

  const HEADS: set<string> := {"update", "bundle", "handler", "hooks"}

  function WithoutHeads(order: seq<string>): seq<string> {
    if order == [] then []
    else
      var last := order[|order| - 1];
      WithoutHeads(order[..|order| - 1]) + if last in HEADS then [] else [last]
  }

  datatype Rest = Rest(images: seq<Image>, meta: Meta)

  /** What one of the remaining groups yields; any other group is an error in the end. */
  datatype Found = FoundImage(image: Image) | FoundMeta(tag: string, kvs: map<string, string>)

  function ParseGroup(f: File, g: string): Option<Found> {
    if HasPrefix(g, IMAGE) then
      match ParseImage(g, GroupOf(f, g))
      case None => None
      case Some(image) => Some(FoundImage(image))
    else if HasPrefix(g, META) then
      match ParseMeta(g, GroupOf(f, g))
      case None => None
      case Some((tag, kvs)) => Some(FoundMeta(tag, kvs))
    else None
  }

  function WithFound(rest: Rest, found: Found): Rest {
    match found
    case FoundImage(image) => rest.(images := rest.images + [image])
    case FoundMeta(tag, kvs) => rest.(meta := rest.meta[tag := kvs])
  }

  type GroupParser = string -> Option<Found>

  /** The groups that remain, in order. */
  function ParseRest(parse: GroupParser, names: seq<string>): Option<Rest>
    decreases |names|
  {
    if names == [] then Some(Rest([], map[]))
    else match ParseRest(parse, names[..|names| - 1])
      case None => None
      case Some(rest) =>
        match parse(names[|names| - 1])
        case None => None
        case Some(found) => Some(WithFound(rest, found))
  }

  function ParserOf(f: File): GroupParser { (g: string) => ParseGroup(f, g) }

  function Parsed(f: File): Option<Manifest> {
    match ParseUpdate(GroupOf(f, "update"))
    case None => None
    case Some(update) =>
      match ParseBundle(GroupOf(f, "bundle"))
      case None => None
      case Some(bundle) =>
        match ParseHandler(GroupOf(f, "handler"))
        case None => None
        case Some(handler) =>
          match ParseHooks(GroupOf(f, "hooks"))
          case None => None
          case Some(hooks) =>
            match ParseRest(ParserOf(f), WithoutHeads(f.order))
            case None => None
            case Some(rest) => Some(Manifest(update, bundle, handler, hooks, rest.images, rest.meta))
  }

  // ---- well-formed manifests -------------------------------------------------------------------------------

  predicate GoodUpdate(u: Update) {
    u.compatible.Some? && NonEmpty(u.compatible) && NonEmpty(u.version) && NonEmpty(u.description) && NonEmpty(u.build)
  }

  predicate GoodBundle(b: Bundle) {
    && NonEmpty(b.verityHash) && NonEmpty(b.veritySalt) && NonEmpty(b.cryptKey)
        && b.veritySize < 0x1_0000_0000_0000_0000
    && (b.format.Plain? ==> b.verityHash == None && b.veritySalt == None && b.veritySize == 0)
    && (b.format.Plain? || b.explicit)
    && (b.format.Crypt? || b.cryptKey == None)
  }

  predicate GoodHandler(h: Handler) {
    NonEmpty(h.name) && NonEmpty(h.args) && (h.args.Some? ==> h.name.Some?)
  }

  predicate GoodHooks(h: InstallHooks) { NonEmpty(h.name) }

  predicate GoodName(i: Image) {
    && i.slotclass.Some? && '.' !in i.slotclass.value && '/' !in i.slotclass.value
    && (i.slotclass.value != "" || i.artifact.Some?)
    && (i.artifact.Some? ==> '.' !in i.artifact.value)
  }

  predicate GoodImage(i: Image) {
    && GoodName(i) && NonEmpty(i.digest) && NonEmpty(i.filename) && -1 <= i.size < 0x8000_0000_0000_0000
    && (i.filename.Some? || i.hooks.install) && i.converted != Some([])
  }

  predicate GoodMeta(meta: Meta) {
    forall l :: l in meta ==> EnvKey(l) && meta[l] != map[] && forall k :: k in meta[l] ==> EnvKey(k) && meta[l][k] != ""
  }

  predicate SameTarget(a: Image, b: Image) {
    a.slotclass == b.slotclass && a.artifact == b.artifact && a.variant == b.variant
  }

  predicate WellFormed(m: Manifest) {
    && GoodUpdate(m.update) && GoodBundle(m.bundle) && GoodHandler(m.handler) && GoodHooks(m.hooks)
    && (forall i :: 0 <= i < |m.images| ==> GoodImage(m.images[i]))
    && (forall i, j :: 0 <= i < j < |m.images| ==> !SameTarget(m.images[i], m.images[j]))
    && GoodMeta(m.meta)
  }
}
