/**
 Rotation of a log file: the files ".1", ".2", ... hold older and older parts of the log.
 */
module EventLog {

  datatype FileName = Current | Numbered(n: nat)

  type Files = map<FileName, string>

  predicate IsSuffix(a: string, b: string) {
    |a| <= |b| && b[|b| - |a|..] == a
  }

  lemma SuffixTrans(a: string, b: string, c: string)
    requires IsSuffix(a, b) && IsSuffix(b, c)
    ensures IsSuffix(a, c)
  {
    assert c[|c| - |b|..][|b| - |a|..] == c[|c| - |a|..];
  }

  lemma SuffixAppend(a: string, b: string, x: string)
    requires IsSuffix(a, b)
    ensures IsSuffix(a + x, b + x)
  {
    assert (b + x)[|b| - |a|..] == b[|b| - |a|..] + x;
  }

  lemma SuffixPrepend(p: string, a: string)
    ensures IsSuffix(a, p + a)
  {
    assert (p + a)[|p|..] == a;
  }

  function Content(d: Files, name: FileName): string {
    if name in d then d[name] else ""
  }

  /** The numbered files from n down to 1. */
  function Old(d: Files, n: nat): string {
    if n == 0 then "" else Content(d, Numbered(n)) + Old(d, n - 1)
  }

  /** All files, from the oldest to the current one. */
  function Chain(d: Files, last: nat): string {
    Old(d, last) + Content(d, Current)
  }

  /** The highest number a file can get: one file is always kept besides the current one. */
  function Last(maxfiles: nat): nat {
    if maxfiles <= 2 then 1 else maxfiles - 1
  }

  /** There are no files but the current one and those with numbers from 1 to last. */
  predicate Numbers(d: Files, last: nat) {
    forall f :: f in d ==> f == Current || 1 <= f.n <= last
  }

  /** Renaming replaces the target; a file that does not exist is skipped. */
  function Renamed(d: Files, from: FileName, to: FileName): Files {
    if from in d then (d - {from})[to := d[from]] else d
  }

  lemma {:induction false} OldDependsOn(d: Files, d': Files, n: nat)
    requires forall k :: 1 <= k <= n ==> Content(d, Numbered(k)) == Content(d', Numbered(k))
    ensures Old(d, n) == Old(d', n)
  {
    if n > 0 {
      OldDependsOn(d, d', n - 1);
    }
  }

  lemma {:induction false} ShiftKeeps(d: Files, k: nat, n: nat)
    requires 2 <= k <= n && Numbered(k) !in d
    ensures Old(Renamed(d, Numbered(k - 1), Numbered(k)), n) == Old(d, n)
    decreases n
  {
    var d' := Renamed(d, Numbered(k - 1), Numbered(k));
    if k < n {
      ShiftKeeps(d, k, n - 1);
    } else {
      OldDependsOn(d, d', k - 2);
      var newer := Content(d, Numbered(k - 1));
      assert Old(d, k) == "" + (newer + Old(d, k - 2));
      assert Numbered(k - 1) in d ==> Old(d', k) == newer + ("" + Old(d, k - 2));
    }
  }

  /** Moving a file one number up loses nothing, or only the oldest file. */
  lemma ShiftOne(d: Files, k: nat, n: nat)
    requires 2 <= k <= n && (Numbered(k) !in d || k == n)
    ensures IsSuffix(Old(Renamed(d, Numbered(k - 1), Numbered(k)), n), Old(d, n))
  {
    var d' := Renamed(d, Numbered(k - 1), Numbered(k));
    if Numbered(k) !in d {
      ShiftKeeps(d, k, n);
    } else {
      OldDependsOn(d, d', k - 2);
      var older, newer := Content(d, Numbered(k)), Content(d, Numbered(k - 1));
      assert Old(d, k) == older + (newer + Old(d, k - 2));
      SuffixPrepend(older, newer + Old(d, k - 2));
      if Numbered(k - 1) in d {
        assert Old(d', k) == newer + ("" + Old(d, k - 2));
        assert "" + Old(d, k - 2) == Old(d, k - 2);
      } else {
        assert d' == d;
      }
    }
  }

  /** Retiring the current file to number 1 loses nothing, or only the oldest file. */
  lemma RetireCurrent(d: Files, last: nat)
    requires last >= 1 && Current in d && (Numbered(1) !in d || last == 1)
    ensures IsSuffix(Chain(Renamed(d, Current, Numbered(1)), last), Chain(d, last))
  {
    var d' := Renamed(d, Current, Numbered(1));
    RetireOld(d, last);
    assert Content(d', Current) == "";
    assert Chain(d', last) == Old(d', last);
  }

  lemma {:induction false} RetireOld(d: Files, n: nat)
    requires n >= 1 && Current in d && (Numbered(1) !in d || n == 1)
    ensures IsSuffix(Old(Renamed(d, Current, Numbered(1)), n), Old(d, n) + d[Current])
    decreases n
  {
    var d' := Renamed(d, Current, Numbered(1));
    var c := d[Current];
    if n == 1 {
      assert Old(d, 1) == Content(d, Numbered(1)) + Old(d, 0);
      assert Old(d', 1) == c + Old(d', 0) == c;
      SuffixPrepend(Content(d, Numbered(1)), c);
      assert Old(d, 1) + c == Content(d, Numbered(1)) + c;
    } else {
      RetireKeeps(d, n);
    }
  }

  lemma {:induction false} RetireKeeps(d: Files, n: nat)
    requires n >= 1 && Current in d && Numbered(1) !in d
    ensures Old(Renamed(d, Current, Numbered(1)), n) == Old(d, n) + d[Current]
    decreases n
  {
    var d' := Renamed(d, Current, Numbered(1));
    var c := d[Current];
    if n == 1 {
      assert Old(d, 1) == "" + Old(d, 0);
      assert Old(d', 1) == c + Old(d', 0) == c;
    } else {
      RetireKeeps(d, n - 1);
      var o := Content(d, Numbered(n));
      assert Old(d', n) == o + (Old(d, n - 1) + c);
      assert Old(d, n) + c == o + Old(d, n - 1) + c;
    }
  }

  // ---- a whole rotation -------------------------------------------------------------------------

  /** The renames of the loop, from number k down. */
  function Shifted(d: Files, k: nat): Files
    decreases k
  {
    if k == 0 then d else Shifted(Renamed(d, Numbered(k - 1), Numbered(k)), k - 1)
  }

  function Rotated(d: Files, maxfiles: nat): Files
    requires maxfiles >= 1
  {
    Renamed(Shifted(d, maxfiles - 1), Current, Numbered(1))[Current := ""]
  }

  /** The file that a rotation replaces: the one of the highest number, if something takes that number. */
  function Replaced(d: Files, last: nat): string {
    if last <= 1 || Numbered(last - 1) in d then Content(d, Numbered(last)) else ""
  }

  lemma {:induction false} ShiftedKeeps(d: Files, k: nat, last: nat)
    requires k < last && Numbers(d, last) && Current in d && (k >= 1 ==> Numbered(k) !in d)
    ensures var r := Shifted(d, k);
            && Numbers(r, last) && Current in r && r[Current] == d[Current] && Old(r, last) == Old(d, last)
            && (k >= 1 ==> Numbered(1) !in r)
    decreases k
  {
    if k >= 1 {
      var d' := Renamed(d, Numbered(k - 1), Numbered(k));
      if k >= 2 {
        ShiftKeeps(d, k, last);
      } else {
        assert d' == d;
      }
      ShiftedKeeps(d', k - 1, last);
    }
  }

  lemma ReplacedOldest(d: Files, last: nat)
    requires last >= 2 && Numbered(last) in d && Numbered(last - 1) in d
    ensures Old(d, last) == d[Numbered(last)] + Old(Renamed(d, Numbered(last - 1), Numbered(last)), last)
  {
    var d' := Renamed(d, Numbered(last - 1), Numbered(last));
    OldDependsOn(d, d', last - 2);
    assert Old(d', last) == d[Numbered(last - 1)] + ("" + Old(d, last - 2));
    assert Old(d, last) == d[Numbered(last)] + (d[Numbered(last - 1)] + Old(d, last - 2));
  }

  /** The first rename, the only one that can replace a file. */
  lemma ReplacedFirst(d: Files, last: nat)
    requires last >= 2 && Numbers(d, last) && Current in d
    ensures var d' := Renamed(d, Numbered(last - 1), Numbered(last));
            && Numbers(d', last) && Current in d' && d'[Current] == d[Current] && Numbered(last - 1) !in d'
            && Old(d, last) == Replaced(d, last) + Old(d', last)
  {
    if Numbered(last) !in d {
      ShiftKeeps(d, last, last);
      assert Replaced(d, last) == "";
    } else if Numbered(last - 1) in d {
      ReplacedOldest(d, last);
    } else {
      assert Replaced(d, last) == "";
    }
  }

  /** With a single number there is nothing to shift. */
  lemma FewAreNotShifted(d: Files, maxfiles: nat)
    requires 1 <= maxfiles <= 2 && Numbers(d, 1) && Current in d
    ensures Shifted(d, maxfiles - 1) == d
    ensures Old(Renamed(d, Current, Numbered(1)), 1) == d[Current] && Old(d, 1) == Content(d, Numbered(1))
  {
    var t := Renamed(d, Current, Numbered(1));
    assert Numbered(0) !in d;
    assert Shifted(d, 1) == Shifted(Renamed(d, Numbered(0), Numbered(1)), 0);
    assert Old(d, 1) == Content(d, Numbered(1)) + Old(d, 0) == Content(d, Numbered(1));
    assert Old(t, 1) == d[Current] + Old(t, 0) == d[Current];
  }

  /** Retiring and starting a file, after the shift. */
  lemma RetireAndStart(s: Files, last: nat)
    requires last >= 1 && Numbers(s, last) && Current in s
    ensures var t := Renamed(s, Current, Numbered(1));
            var r := t[Current := ""];
            && Numbers(r, last) && Current in r && r[Current] == ""
            && Numbered(1) in r && r[Numbered(1)] == s[Current]
            && Chain(r, last) == Old(t, last)
  {
    var t := Renamed(s, Current, Numbered(1));
    OldDependsOn(t, t[Current := ""], last);
    assert Chain(t[Current := ""], last) == Old(t, last) + "";
  }

  /** With two numbers or more, what was the chain is the replaced file and what the shift leaves. */
  lemma ShiftAll(d: Files, last: nat)
    requires last >= 2 && Numbers(d, last) && Current in d
    ensures var s := Shifted(d, last);
            && Numbers(s, last) && Current in s && s[Current] == d[Current] && Numbered(1) !in s
            && Old(d, last) == Replaced(d, last) + Old(s, last)
  {
    ReplacedFirst(d, last);
    ShiftedKeeps(Renamed(d, Numbered(last - 1), Numbered(last)), last - 1, last);
  }

  lemma RotationWithOneNumber(d: Files, maxfiles: nat)
    requires 1 <= maxfiles <= 2 && Numbers(d, 1) && Current in d
    ensures var r := Rotated(d, maxfiles);
            && Numbers(r, 1) && Current in r && r[Current] == "" && Numbered(1) in r && r[Numbered(1)] == d[Current]
            && Chain(d, 1) == Replaced(d, 1) + Chain(r, 1)
  {
    FewAreNotShifted(d, maxfiles);
    RetireAndStart(d, 1);
  }

  lemma RotationWithMore(d: Files, last: nat)
    requires last >= 2 && Numbers(d, last) && Current in d
    ensures var r := Rotated(d, last + 1);
            && Numbers(r, last) && Current in r && r[Current] == "" && Numbered(1) in r && r[Numbered(1)] == d[Current]
            && Chain(d, last) == Replaced(d, last) + Chain(r, last)
  {
    var s := Shifted(d, last);
    ShiftAll(d, last);
    RetireAndStart(s, last);
    RetireKeeps(s, last);
    Associative(Replaced(d, last), Old(s, last), d[Current]);
  }

  lemma Associative(a: string, b: string, c: string)
    ensures a + b + c == a + (b + c)
  {
  }

  /** A rotation drops nothing but the oldest file, and that one only if its number is taken over. */
  lemma RotationDropsOldest(d: Files, maxfiles: nat)
    requires maxfiles >= 1 && Numbers(d, Last(maxfiles)) && Current in d
    ensures var r, last := Rotated(d, maxfiles), Last(maxfiles);
            && Numbers(r, last) && Current in r && r[Current] == ""
            && Numbered(1) in r && r[Numbered(1)] == d[Current]
            && Chain(d, last) == Replaced(d, last) + Chain(r, last)
  {
    if maxfiles <= 2 {
      RotationWithOneNumber(d, maxfiles);
    } else {
      RotationWithMore(d, maxfiles - 1);
    }
  }

  /** The files after one more entry. */
  function Logged(d: Files, maxsize: nat, maxfiles: nat, output: string): Files
    requires maxfiles >= 1
  {
    var full := maxsize > 0 && |Content(d, Current)| + |output| > maxsize;
    var r := if full then Rotated(d, maxfiles) else d;
    r[Current := Content(r, Current) + output]
  }

  /**
   An entry that fits is appended and nothing else happens; before any other the current
   file is retired, the entry starts a new one, and at most the oldest file is dropped.
   */
  lemma LoggedMeaning(d: Files, maxsize: nat, maxfiles: nat, output: string)
    requires maxfiles >= 1 && Numbers(d, Last(maxfiles)) && Current in d
    ensures var r, last := Logged(d, maxsize, maxfiles, output), Last(maxfiles);
            if maxsize == 0 || |d[Current]| + |output| <= maxsize then
              r == d[Current := d[Current] + output]
            else
              && Numbers(r, last) && Current in r && Numbered(1) in r
              && r[Current] == output && r[Numbered(1)] == d[Current]
              && Chain(d, last) + output == Replaced(d, last) + Chain(r, last)
  {
    var r, last := Logged(d, maxsize, maxfiles, output), Last(maxfiles);
    if maxsize > 0 && |d[Current]| + |output| > maxsize {
      var t := Rotated(d, maxfiles);
      RotationDropsOldest(d, maxfiles);
      assert "" + output == output;
      OldDependsOn(t, r, last);
      assert Old(t, last) + "" == Old(t, last);
      Associative(Replaced(d, last), Chain(t, last), output);
    }
  }

  function LoggedAll(d: Files, maxsize: nat, maxfiles: nat, outputs: seq<string>): Files
    requires maxfiles >= 1
  {
    if outputs == [] then d
    else Logged(LoggedAll(d, maxsize, maxfiles, outputs[..|outputs| - 1]), maxsize, maxfiles, outputs[|outputs| - 1])
  }

  lemma OneMoreLogged(d: Files, maxsize: nat, maxfiles: nat, outputs: seq<string>, i: nat)
    requires maxfiles >= 1 && i < |outputs|
    ensures LoggedAll(d, maxsize, maxfiles, outputs[..i + 1]) ==
            Logged(LoggedAll(d, maxsize, maxfiles, outputs[..i]), maxsize, maxfiles, outputs[i])
    ensures Concat(outputs[..i + 1]) == Concat(outputs[..i]) + outputs[i]
  {
    assert outputs[..i + 1][..i] == outputs[..i];
  }

  /** What is always true of the files: their numbers, and that they end the log. */
  predicate EndsLog(d: Files, last: nat, written: string) {
    Numbers(d, last) && IsSuffix(Chain(d, last), written)
  }

  lemma MoveKeepsEnd(d: Files, k: nat, last: nat, written: string)
    requires EndsLog(d, last, written) && 1 <= k <= last && (Numbered(k) !in d || k == last)
    ensures EndsLog(Renamed(d, Numbered(k - 1), Numbered(k)), last, written)
  {
    var d' := Renamed(d, Numbered(k - 1), Numbered(k));
    if k >= 2 {
      ShiftOne(d, k, last);
      SuffixAppend(Old(d', last), Old(d, last), Content(d, Current));
      SuffixTrans(Chain(d', last), Chain(d, last), written);
    }
  }

  lemma RetireKeepsEnd(d: Files, last: nat, written: string)
    requires EndsLog(d, last, written) && last >= 1 && Current in d && (Numbered(1) !in d || last == 1)
    ensures EndsLog(Renamed(d, Current, Numbered(1)), last, written)
  {
    RetireCurrent(d, last);
    SuffixTrans(Chain(Renamed(d, Current, Numbered(1)), last), Chain(d, last), written);
  }

  lemma AppendKeepsEnd(d: Files, last: nat, written: string, text: string)
    requires EndsLog(d, last, written)
    ensures EndsLog(d[Current := Content(d, Current) + text], last, written + text)
  {
    var d' := d[Current := Content(d, Current) + text];
    OldDependsOn(d, d', last);
    assert Chain(d', last) == Chain(d, last) + text;
    SuffixAppend(Chain(d, last), written, text);
  }

  // ---- how many files ---------------------------------------------------------------------------

  lemma {:induction false} CountFiles(names: set<FileName>, last: nat)
    requires forall f :: f in names ==> f == Current || 1 <= f.n <= last
    ensures |names| <= last + 1
    decreases last
  {
    if last == 0 {
      assert names <= {Current};
      CountSubset(names, {Current});
    } else {
      CountFiles(names - {Numbered(last)}, last - 1);
      assert names <= (names - {Numbered(last)}) + {Numbered(last)};
      CountSubset(names, (names - {Numbered(last)}) + {Numbered(last)});
    }
  }

  lemma {:induction false} CountSubset<T>(a: set<T>, b: set<T>)
    requires a <= b
    ensures |a| <= |b|
    decreases a
  {
    if x :| x in a {
      CountSubset(a - {x}, b - {x});
    }
  }

  function Concat(entries: seq<string>): string {
    if entries == [] then "" else Concat(entries[..|entries| - 1]) + entries[|entries| - 1]
  }

  // ---- the logger ---------------------------------------------------------------------------------

  /** A logger and its files; renaming, opening and writing can fail at any time. */
  class EventLogger {
    const maxsize: nat
    const maxfiles: nat
    var disk: Files
    var filesize: nat
    var streaming: bool
    var broken: bool
    /** Everything that was ever written, the start of the log included. */
    ghost var written: string
    /** Whether the current file was started by a rotation, and what was written to it since. */
    ghost var rotated: bool
    ghost var entries: seq<string>
    /** Whether opening, renaming or writing has ever failed. */
    ghost var troubled: bool

    /** The files are a suffix of the log, there are few enough, and the current one is short enough. */
    ghost predicate Valid()
      reads this
    {
      && maxfiles >= 1 && (broken ==> troubled)
      && EndsLog(disk, Last(maxfiles), written)
      && (streaming ==> Current in disk && filesize == |disk[Current]|)
      && (rotated && maxsize > 0 ==>
            Content(disk, Current) == Concat(entries) && (|Content(disk, Current)| <= maxsize || |entries| <= 1))
    }

    /** Before the first start there may be a log, but no rotated files. */
    constructor (maxsize: nat, maxfiles: nat, current: string)
      requires maxfiles >= 1
      ensures Valid() && written == current && !streaming && !broken && !troubled
    {
      this.maxsize, this.maxfiles := maxsize, maxfiles;
      disk := map[Current := current];
      filesize, streaming, broken := 0, false, false;
      written, rotated, entries, troubled := current, false, [], false;
      new;
      OldDependsOn(disk, map[], Last(maxfiles));
      NoneOld(Last(maxfiles));
      assert Chain(disk, Last(maxfiles)) == current;
    }

    lemma FewFiles()
      requires Valid()
      ensures |disk.Keys| <= if maxfiles <= 2 then 2 else maxfiles
    {
      CountFiles(disk.Keys, Last(maxfiles));
    }

    /** A step that may fail. */
    method Attempt() returns (ok: bool)
      modifies this`troubled
      ensures troubled == (old(troubled) || !ok)
    {
      ok := *;
      troubled := troubled || !ok;
    }

    /** Opens the current file for appending, creating it if it is missing. */
    method Setup()
      requires Valid()
      modifies this
      ensures Valid() && written == old(written) && (old(troubled) ==> troubled)
      ensures streaming <==> !broken
    {
      var ok := Attempt();
      if !ok {
        streaming, broken := false, true;
        return;
      }
      if Current !in disk {
        AppendKeepsEnd(disk, Last(maxfiles), written, "");
        assert written + "" == written && Content(disk, Current) + "" == "";
        disk := disk[Current := ""];
      }
      filesize := |disk[Current]|;
      streaming, broken := true, false;
    }

    /** One rename of the loop. */
    method RotateOne(fileNum: nat) returns (ok: bool)
      requires Valid() && !streaming && 1 <= fileNum < maxfiles
                 && (fileNum == maxfiles - 1 || Numbered(fileNum) !in disk)
      modifies this`disk, this`troubled
      ensures Valid() && (old(troubled) || !ok ==> troubled) && (Current in old(disk) ==> Current in disk)
      ensures ok ==> Numbered(fileNum - 1) !in disk && disk == Renamed(old(disk), Numbered(fileNum - 1), Numbered(fileNum))
      ensures fileNum == 1 ==> disk == old(disk)
    {
      if Numbered(fileNum - 1) in disk {
        ok := Attempt();
        if !ok {
          return;
        }
      }
      assert fileNum <= Last(maxfiles) && (fileNum == maxfiles - 1 ==> fileNum == Last(maxfiles));
      MoveKeepsEnd(disk, fileNum, Last(maxfiles), written);
      disk := Renamed(disk, Numbered(fileNum - 1), Numbered(fileNum));
      ok := true;
    }

    /** Makes room for more bytes by rotating, if the current file would exceed its limit. */
    method RotateLogfiles(nextLen: nat) returns (ok: bool)
      requires Valid() && streaming
      modifies this
      ensures Valid() && written == old(written) && broken == old(broken)
      ensures old(troubled) || !ok ==> troubled
      ensures ok ==> streaming
      ensures ok && maxsize > 0 ==> filesize + nextLen <= maxsize || (filesize == 0 && rotated && entries == [])
      ensures ok && maxsize > 0 && old(filesize) + nextLen > maxsize ==> disk == Rotated(old(disk), maxfiles)
      ensures old(filesize) + nextLen <= maxsize || maxsize == 0 ==>
                ok && disk == old(disk) && rotated == old(rotated) && entries == old(entries)
    {
      if maxsize == 0 {
        return true;
      }
      if filesize + nextLen <= maxsize {
        return true;
      }
      streaming := false;
      var fileNum := maxfiles - 1;
      while fileNum > 0
        invariant 0 <= fileNum <= maxfiles - 1
        invariant Valid() && !streaming && Current in disk && written == old(written) && broken == old(broken)
        invariant old(troubled) ==> troubled
        invariant fileNum == maxfiles - 1 || Numbered(fileNum) !in disk
        invariant fileNum == 0 && maxfiles >= 3 ==> Numbered(1) !in disk
        invariant Shifted(disk, fileNum) == Shifted(old(disk), maxfiles - 1)
      {
        ok := RotateOne(fileNum);
        if !ok {
          return;
        }
        fileNum := fileNum - 1;
      }
      ok := StartFile();
    }

    /** Retires the current file and starts an empty one. */
    method StartFile() returns (ok: bool)
      requires Valid() && !streaming && Current in disk && (Last(maxfiles) == 1 || Numbered(1) !in disk)
      modifies this
      ensures Valid() && written == old(written) && broken == old(broken)
      ensures old(troubled) || !ok ==> troubled
      ensures ok ==> streaming && filesize == 0 && rotated && entries == []
      ensures ok ==> disk == Renamed(old(disk), Current, Numbered(1))[Current := ""]
    {
      ok := Attempt();
      if !ok {
        return;
      }
      RetireKeepsEnd(disk, Last(maxfiles), written);
      disk := Renamed(disk, Current, Numbered(1));
      rotated, entries := true, [];
      ok := Attempt();
      if !ok {
        return;
      }
      AppendKeepsEnd(disk, Last(maxfiles), written, "");
      assert written + "" == written && Content(disk, Current) + "" == "";
      disk := disk[Current := ""];
      filesize := 0;
      streaming := true;
    }

    /** Appends to the current file; a failing write may leave a part behind. */
    method Append(text: string)
      requires Valid() && streaming
      requires maxsize > 0 && rotated ==> filesize + |text| <= maxsize || entries == []
      modifies this
      ensures Valid() && written == old(written) + text && streaming == old(streaming) && broken == old(broken)
      ensures troubled == old(troubled)
      ensures disk == old(disk)[Current := old(disk)[Current] + text]
    {
      AppendKeepsEnd(disk, Last(maxfiles), written, text);
      disk := disk[Current := disk[Current] + text];
      filesize := filesize + |text|;
      written := written + text;
      ConcatSnoc(entries, text);
      entries := entries + [text];
    }

    /** Writes an entry, unless the logger is broken; any failure breaks it. */
    method Write(output: string)
      requires Valid() && (streaming || broken)
      modifies this
      ensures Valid() && (streaming || broken) && (old(troubled) ==> troubled)
      ensures exists k :: 0 <= k <= |output| && written == old(written) + output[..k]
      ensures !broken ==> written == old(written) + output
      ensures !broken ==> disk == Logged(old(disk), maxsize, maxfiles, output)
      ensures old(broken) ==> broken && disk == old(disk)
    {
      assert output[..0] == "" && written + "" == written;
      if broken {
        return;
      }
      var ok := RotateLogfiles(|output|);
      if !ok {
        broken := true;
        return;
      }
      var k: nat :| k <= |output|;
      Append(output[..k]);
      if k < |output| {
        broken, troubled := true, true;
      } else {
        assert output[..k] == output;
      }
    }

    /** One of the entries, after those before it. */
    method WriteNext(outputs: seq<string>, i: nat, ghost d: Files, ghost w: string)
      requires Valid() && (streaming || broken) && i < |outputs|
      requires !broken ==> written == w + Concat(outputs[..i]) && disk == LoggedAll(d, maxsize, maxfiles, outputs[..i])
      modifies this
      ensures Valid() && (streaming || broken) && (old(troubled) ==> troubled)
      ensures !broken ==> written == w + Concat(outputs[..i + 1]) && disk == LoggedAll(d, maxsize, maxfiles, outputs[..i + 1])
    {
      OneMoreLogged(d, maxsize, maxfiles, outputs, i);
      Associative(w, Concat(outputs[..i]), outputs[i]);
      Write(outputs[i]);
    }

    /** Any number of entries: unless something failed, all of them are in the log the files end. */
    method WriteAll(outputs: seq<string>)
      requires Valid() && (streaming || broken)
      modifies this
      ensures Valid() && (streaming || broken) && (old(troubled) ==> troubled)
      ensures !broken ==> written == old(written) + Concat(outputs)
      ensures !broken ==> disk == LoggedAll(old(disk), maxsize, maxfiles, outputs)
    {
      ghost var d, w := disk, written;
      var i := 0;
      assert w == w + Concat(outputs[..0]);
      while i < |outputs|
        invariant 0 <= i <= |outputs|
        invariant Valid() && (streaming || broken) && (old(troubled) ==> troubled)
        invariant !broken ==>
                    written == w + Concat(outputs[..i]) && disk == LoggedAll(d, maxsize, maxfiles, outputs[..i])
      {
        WriteNext(outputs, i, d, w);
        i := i + 1;
      }
      assert outputs[..i] == outputs;
    }
  }

  lemma ConcatSnoc(texts: seq<string>, text: string)
    ensures Concat(texts + [text]) == Concat(texts) + text
  {
    assert (texts + [text])[..|texts|] == texts;
  }

  lemma {:induction false} NoneOld(n: nat)
    ensures Old(map[], n) == ""
  {
    if n > 0 {
      NoneOld(n - 1);
    }
  }
}
