/**
 Names of artifact files and of the links to them: ".artifact-<name>-<digest>", with a
 lower-case hexadecimal digest, and "../" in front of it for links of a parent slot.
 */
module ArtifactNames {
  import opened Wrappers
  import opened Text

  predicate IsHexChar(c: char) { '0' <= c <= '9' || 'a' <= c <= 'f' }

  predicate IsDigest(s: string) {
    s != "" && forall i :: 0 <= i < |s| ==> IsHexChar(s[i])
  }

  const PREFIX := ".artifact-"

  function FileName(name: string, digest: string): string {
    PREFIX + name + "-" + digest
  }

  predicate EndsWith(s: string, suffix: string) {
    |suffix| <= |s| && s[|s| - |suffix|..] == suffix
  }

  lemma EndsWithIff(s: string, suffix: string)
    ensures EndsWith(s, suffix) <==> exists front: string :: s == front + suffix
  {
    if EndsWith(s, suffix) {
      assert s == s[..|s| - |suffix|] + suffix;
    }
  }

  /** One past the last '-', or 0 if there is none. */
  function AfterLastDash(s: string): (i: nat)
    ensures i <= |s|
    ensures i == 0 <==> '-' !in s
    ensures i > 0 ==> s[i - 1] == '-' && '-' !in s[i..]
    decreases |s|
  {
    if s == "" then 0
    else if s[|s| - 1] == '-' then |s|
    else
      var i := AfterLastDash(s[..|s| - 1]);
      assert s == s[..|s| - 1] + [s[|s| - 1]];
      assert s[i..] == s[..|s| - 1][i..] + [s[|s| - 1]];
      i
  }

  function Strip(prefix: string, s: string): Option<string> {
    if HasPrefix(s, prefix) then Some(s[|prefix|..]) else None
  }

  /** The name of an artifact's file, and the digests it can have. */
  lemma FileNameFormat(name: string, digest: string)
    ensures FileName(name, digest) == ".artifact-" + name + "-" + digest
    ensures IsDigest(digest) <==> digest != "" && forall c :: c in digest ==> c in "0123456789abcdef"
  {
    forall c ensures IsHexChar(c) <==> c in "0123456789abcdef" {
      HexCharIff(c);
    }
    if IsDigest(digest) {
      forall c | c in digest ensures IsHexChar(c) {
        var i :| 0 <= i < |digest| && digest[i] == c;
      }
    }
    assert forall i :: 0 <= i < |digest| ==> digest[i] in digest;
  }

  lemma HexCharIff(c: char)
    ensures IsHexChar(c) <==> c in "0123456789abcdef"
  {
    var hex := "0123456789abcdef";
    if '0' <= c <= '9' {
      assert hex[c as int - '0' as int] == c;
    } else if 'a' <= c <= 'f' {
      assert hex[c as int - 'a' as int + 10] == c;
    }
  }

  lemma StripIff(prefix: string, s: string, rest: string)
    ensures Strip(prefix, s) == Some(rest) <==> s == prefix + rest
  {
    if s == prefix + rest {
      assert s[..|prefix|] == prefix && s[|prefix|..] == rest;
    }
  }

  /** A greedy name, the last '-', and the digest. */
  function SplitName(rest: string): Option<(string, string)> {
    var i := AfterLastDash(rest);
    if i == 0 || !IsDigest(rest[i..]) then None else Some((rest[..i - 1], rest[i..]))
  }

  /** The regular expression for artifact files. */
  function ParseFile(s: string): Option<(string, string)> {
    match Strip(PREFIX, s)
    case None => None
    case Some(rest) => SplitName(rest)
  }

  lemma DigestHasNoDash(d: string)
    requires IsDigest(d)
    ensures '-' !in d
  {
  }

  lemma {:induction false} DashOfFileName(name: string, digest: string)
    ensures AfterLastDash(name + "-" + digest) == |name| + 1 + AfterLastDash(digest)
    decreases |digest|
  {
    var s := name + "-" + digest;
    if digest != "" {
      var shorter := digest[..|digest| - 1];
      assert s[..|s| - 1] == name + "-" + shorter;
      assert s[|s| - 1] == digest[|digest| - 1];
      DashOfFileName(name, shorter);
    }
  }

  lemma SplitNameIff(rest: string, name: string, digest: string)
    ensures SplitName(rest) == Some((name, digest)) <==> IsDigest(digest) && rest == name + "-" + digest
  {
    if IsDigest(digest) && rest == name + "-" + digest {
      DigestHasNoDash(digest);
      DashOfFileName(name, digest);
      assert rest[|name| + 1..] == digest && rest[..|name|] == name;
    }
    if SplitName(rest) == Some((name, digest)) {
      var i := AfterLastDash(rest);
      assert rest == rest[..i - 1] + [rest[i - 1]] + rest[i..];
    }
  }

  /** A file name parses as name and digest exactly if it is made from them, '-' in the name or not. */
  lemma ParseFileIff(s: string, name: string, digest: string)
    ensures ParseFile(s) == Some((name, digest)) <==> IsDigest(digest) && s == FileName(name, digest)
  {
    var rest := name + "-" + digest;
    assert FileName(name, digest) == PREFIX + rest;
    StripIff(PREFIX, s, rest);
    SplitNameIff(rest, name, digest);
    if ParseFile(s) == Some((name, digest)) {
      SplitNameIff(Strip(PREFIX, s).value, name, digest);
    }
  }

  lemma SplitAnyName(name: string, digest: string)
    ensures SplitName(name + "-" + digest).Some? <==> IsDigest(digest[AfterLastDash(digest)..])
  {
    var rest, i := name + "-" + digest, AfterLastDash(digest);
    DashOfFileName(name, digest);
    assert AfterLastDash(rest) == |name| + 1 + i;
    assert rest[|name| + 1 + i..] == digest[i..];
  }

  /**
   Whether a file that is made for a digest counts as an artifact: what follows the last '-' of the
   digest has to be one.
   */
  lemma FileOfDigestIff(name: string, digest: string)
    ensures ParseFile(FileName(name, digest)).Some? <==> IsDigest(digest[AfterLastDash(digest)..])
  {
    var rest := name + "-" + digest;
    assert FileName(name, digest) == PREFIX + rest;
    StripIff(PREFIX, FileName(name, digest), rest);
    SplitAnyName(name, digest);
  }

  lemma FileNameIsInjective(name: string, digest: string, name': string, digest': string)
    requires IsDigest(digest) && IsDigest(digest') && FileName(name, digest) == FileName(name', digest')
    ensures name == name' && digest == digest'
  {
    ParseFileIff(FileName(name, digest), name, digest);
    ParseFileIff(FileName(name, digest), name', digest');
  }

  lemma LastOfParsed(t: string)
    ensures ParseFile(t).Some? ==> t != "" && IsHexChar(t[|t| - 1])
  {
    if ParseFile(t).Some? {
      var (name, digest) := ParseFile(t).value;
      ParseFileIff(t, name, digest);
      assert t[|t| - 1] == digest[|digest| - 1];
    }
  }

  /** What is still being written never counts as an artifact. */
  lemma TmpNeverParses(s: string)
    ensures ParseFile(s + ".tmp") == None
  {
    var t := s + ".tmp";
    LastOfParsed(t);
    assert t[|t| - 1] == 'p';
  }

  lemma FileNamesAreHidden(name: string, digest: string)
    ensures FileName(name, digest) != "" && FileName(name, digest)[0] == '.'
  {
  }

  // ---- links ------------------------------------------------------------------------------------

  function Up(parent: string): string { if parent == "" then "" else "../" }

  function Target(parent: string, name: string, digest: string): string {
    Up(parent) + FileName(name, digest)
  }

  /** Where the components of a relative path lead from a directory; nowhere if they leave the repository. */
  function Walk(dir: seq<string>, parts: seq<string>): Option<seq<string>>
    decreases |parts|
  {
    if parts == [] then Some(dir)
    else if parts[0] == "" || parts[0] == "." then Walk(dir, parts[1..])
    else if parts[0] == ".." then
      if dir == [] then None else Walk(dir[..|dir| - 1], parts[1..])
    else Walk(dir + [parts[0]], parts[1..])
  }

  /** Following the text of a link that is in a directory of the repository, "" for the repository itself. */
  function Follow(dir: string, text: string): Option<seq<string>> {
    if text == "" || text[0] == '/' then None
    else Walk(if dir == "" then [] else [dir], Pieces(text, '/'))
  }

  /** A link leads to the file of its artifact, which is in the repository itself. */
  lemma TargetLeadsToFile(parent: string, name: string, digest: string)
    requires '/' !in name && '/' !in digest
    ensures Follow(parent, Target(parent, name, digest)) == Some([FileName(name, digest)])
  {
    var file := FileName(name, digest);
    assert file[0] == '.' && file[1] == 'a' && '/' !in file;
    assert file != "" && file != "." && file != "..";
    PiecesOfFirst(file, '/', "");
    assert Walk([], [file]) == Walk([file], []) by {
      assert [file][1..] == [] && [] + [file] == [file];
    }
    if parent != "" {
      var text := Target(parent, name, digest);
      PiecesOfFirst("..", '/', file);
      assert text == ".." + ['/'] + file && text[0] == '.';
      var parts := Pieces(text, '/');
      assert parts[0] == ".." && parts[1..] == [file];
      assert [parent][..0] == [];
      assert Walk([parent], parts) == Walk([], [file]);
    } else {
      assert Target(parent, name, digest) == file;
    }
  }

  function ParseTarget(parent: string, target: string): Option<(string, string)> {
    match Strip(Up(parent), target)
    case None => None
    case Some(file) => ParseFile(file)
  }

  lemma ParseTargetIff(parent: string, target: string, name: string, digest: string)
    ensures ParseTarget(parent, target) == Some((name, digest)) <==>
              IsDigest(digest) && target == Target(parent, name, digest)
  {
    StripIff(Up(parent), target, FileName(name, digest));
    ParseFileIff(FileName(name, digest), name, digest);
    if ParseTarget(parent, target) == Some((name, digest)) {
      ParseFileIff(Strip(Up(parent), target).value, name, digest);
    }
  }
}
