/**
 Key files as GLib keeps them: groups in order, each with keys and raw values. A raw value
 is a sequence of characters and of unescaped list separators.
 */
module KeyFiles {
  import opened Wrappers
  import opened Text

  datatype Token = Ch(c: char) | Separator

  type Value = seq<Token>

  type Keys = map<string, Value>

  // ---- strings -------------------------------------------------------------------------------

  /** A string is stored with its separators unescaped. */
  function OfString(s: string): Value {
    if s == "" then [] else [if s[0] == ';' then Separator else Ch(s[0])] + OfString(s[1..])
  }

  /** Reading a string; an escaped separator is an error. */
  function ToString(v: Value): Option<string> {
    if v == [] then Some("")
    else match ToString(v[1..])
      case None => None
      case Some(s) => if v[0] == Ch(';') then None else Some([if v[0].Separator? then ';' else v[0].c] + s)
  }

  lemma {:induction false} StringRoundTrip(s: string)
    ensures ToString(OfString(s)) == Some(s)
  {
    if s != "" {
      StringRoundTrip(s[1..]);
      assert OfString(s)[1..] == OfString(s[1..]);
      assert s == [s[0]] + s[1..];
    }
  }

  // ---- lists ----------------------------------------------------------------------------------

  function Escaped(s: string): Value {
    if s == "" then [] else [Ch(s[0])] + Escaped(s[1..])
  }

  /** Every element is followed by a separator. */
  function OfList(xs: seq<string>): Value {
    if xs == [] then [] else Escaped(xs[0]) + [Separator] + OfList(xs[1..])
  }

  /** Splits at separators; what follows the last one counts if it is not empty. */
  function ToList(v: Value, piece: string): seq<string> {
    if v == [] then (if piece == "" then [] else [piece])
    else if v[0].Separator? then [piece] + ToList(v[1..], "")
    else ToList(v[1..], piece + [v[0].c])
  }

  lemma {:induction false} ToListOfEscaped(s: string, rest: Value, piece: string)
    ensures ToList(Escaped(s) + [Separator] + rest, piece) == [piece + s] + ToList(rest, "")
    decreases s
  {
    var v := Escaped(s) + [Separator] + rest;
    if s == "" {
      assert v[1..] == rest && piece + s == piece;
    } else {
      assert v[1..] == Escaped(s[1..]) + [Separator] + rest;
      ToListOfEscaped(s[1..], rest, piece + [s[0]]);
      assert piece + [s[0]] + s[1..] == piece + s;
    }
  }

  lemma {:induction false} ListRoundTrip(xs: seq<string>)
    ensures ToList(OfList(xs), "") == xs
  {
    if xs != [] {
      ToListOfEscaped(xs[0], OfList(xs[1..]), "");
      ListRoundTrip(xs[1..]);
      assert "" + xs[0] == xs[0];
    }
  }

  // ---- numbers ---------------------------------------------------------------------------------

  datatype ReadNumber = Missing | Invalid | Number64(n: nat)

  predicate AllDigits(s: string) {
    s != "" && forall i :: 0 <= i < |s| ==> DigitValue(s[i]) < 10
  }

  /** A raw value as text. */
  function RawText(v: Value): string {
    if v == [] then "" else [if v[0].Separator? then ';' else v[0].c] + RawText(v[1..])
  }

  function Unsigned(s: string): string {
    var t := SkipSpace(s);
    if t != "" && (t[0] == '-' || t[0] == '+') then t[1..] else t
  }

  /** The number must be all of the text; too large ones become the largest. */
  function ToNumber(v: Value): ReadNumber {
    var s := RawText(v);
    if AllDigits(Unsigned(s)) then Number64(Strtoull(s, 10).value) else Invalid
  }

  /** A number: white space, maybe a sign, and decimal digits to the end. */
  lemma NumberIff(v: Value)
    ensures ToNumber(v).Number64? <==>
            Unsigned(RawText(v)) != "" && forall c :: c in Unsigned(RawText(v)) ==> c in "0123456789"
    ensures ToNumber(v).Number64? ==> ToNumber(v).n == Strtoull(RawText(v), 10).value
    ensures !ToNumber(v).Missing?
  {
    var s := Unsigned(RawText(v));
    forall c ensures DigitValue(c) < 10 <==> c in "0123456789" {
      DigitTable(c);
    }
    if AllDigits(s) {
      forall c | c in s ensures DigitValue(c) < 10 {
        var i :| 0 <= i < |s| && s[i] == c;
      }
    }
    assert forall i :: 0 <= i < |s| ==> s[i] in s;
  }

  lemma {:induction false} RawOfEscaped(s: string)
    ensures RawText(Escaped(s)) == s
  {
    if s != "" {
      RawOfEscaped(s[1..]);
      assert Escaped(s)[1..] == Escaped(s[1..]);
      assert s == [s[0]] + s[1..];
    }
  }

  function OfNumber(n: nat): Value { Escaped(Print(n, 10)) }

  lemma NumberRoundTrip(n: nat)
    requires n < TWO_64
    ensures ToNumber(OfNumber(n)) == Number64(n)
  {
    var s := Print(n, 10);
    RawOfEscaped(s);
    StrtoullOfPrint(n, 10);
    assert s[0] in s;
    assert forall i :: 0 <= i < |s| ==> s[i] in s;
  }

  // ---- taking keys from a group ---------------------------------------------------------------------

  /** Reads and removes a string; an empty one is removed, but reads as missing. */
  function TakeString(ks: Keys, k: string): (Option<string>, Keys) {
    if k !in ks then (None, ks)
    else match ToString(ks[k])
      case None => (None, ks)
      case Some(s) => (if s == "" then None else Some(s), ks - {k})
  }

  function TakeList(ks: Keys, k: string): (Option<seq<string>>, Keys) {
    (if k in ks then Some(ToList(ks[k], "")) else None, ks - {k})
  }

  function TakeNumber(ks: Keys, k: string): (ReadNumber, Keys) {
    (if k in ks then ToNumber(ks[k]) else Missing, ks - {k})
  }

  // ---- optional keys ----------------------------------------------------------------------------

  function OptString(k: string, v: Option<string>): Keys {
    if v.Some? then map[k := OfString(v.value)] else map[]
  }

  function OptList(k: string, v: Option<seq<string>>): Keys {
    if v.Some? then map[k := OfList(v.value)] else map[]
  }

  function OptNumber(k: string, v: Option<nat>): Keys {
    if v.Some? then map[k := OfNumber(v.value)] else map[]
  }

  predicate NonEmpty(v: Option<string>) { v.Some? ==> v.value != "" }

  lemma TakeOptString(k: string, v: Option<string>, rest: Keys)
    requires NonEmpty(v) && k !in rest
    ensures TakeString(OptString(k, v) + rest, k) == (v, rest)
  {
    if v.Some? {
      StringRoundTrip(v.value);
      assert (OptString(k, v) + rest) - {k} == rest;
    } else {
      assert OptString(k, v) + rest == rest;
    }
  }

  lemma TakeOptList(k: string, v: Option<seq<string>>, rest: Keys)
    requires k !in rest
    ensures TakeList(OptList(k, v) + rest, k) == (v, rest)
  {
    if v.Some? {
      ListRoundTrip(v.value);
    }
    assert (OptList(k, v) + rest) - {k} == rest;
  }

  lemma TakeOptNumber(k: string, v: Option<nat>, rest: Keys)
    requires k !in rest && (v.Some? ==> v.value < TWO_64)
    ensures TakeNumber(OptNumber(k, v) + rest, k) == (if v.Some? then Number64(v.value) else Missing, rest)
  {
    if v.Some? {
      NumberRoundTrip(v.value);
    }
    assert (OptNumber(k, v) + rest) - {k} == rest;
  }

  // ---- whole key files ---------------------------------------------------------------------------

  /** The names of the groups in order, and what they hold. */
  datatype File = File(order: seq<string>, groups: map<string, Keys>)

  const EMPTY := File([], map[])

  function GroupOf(f: File, g: string): Keys {
    if g in f.groups then f.groups[g] else map[]
  }

  /** Setting some keys of a group, which appears with its first key. */
  function WithKeys(f: File, g: string, ks: Keys): File {
    if ks == map[] then f
    else File(if g in f.groups then f.order else f.order + [g], f.groups[g := GroupOf(f, g) + ks])
  }

  lemma WithKeysTwice(f: File, g: string, a: Keys, b: Keys)
    ensures WithKeys(WithKeys(f, g, a), g, b) == WithKeys(f, g, a + b)
  {
    if a == map[] {
      assert a + b == b;
    } else if b == map[] {
      assert a + b == a;
    } else {
      var k :| k in b;
      assert k in a + b;
      assert GroupOf(f, g) + a + b == GroupOf(f, g) + (a + b);
    }
  }

  type Section = (string, Keys)

  function WithSections(f: File, sections: seq<Section>): File
    decreases |sections|
  {
    if sections == [] then f
    else
      var last := sections[|sections| - 1];
      WithKeys(WithSections(f, sections[..|sections| - 1]), last.0, last.1)
  }

  predicate DistinctSections(sections: seq<Section>) {
    forall i, j :: 0 <= i < j < |sections| ==> sections[i].0 != sections[j].0
  }

  function NamesOf(sections: seq<Section>): seq<string> {
    if sections == [] then []
    else
      var last := sections[|sections| - 1];
      NamesOf(sections[..|sections| - 1]) + if last.1 == map[] then [] else [last.0]
  }

  predicate HasSection(sections: seq<Section>, g: string, ks: Keys) {
    exists i :: 0 <= i < |sections| && sections[i] == (g, ks) && ks != map[]
  }

  lemma NoEarlierSection(sections: seq<Section>, front: seq<Section>, name: string)
    requires DistinctSections(sections) && sections != []
    requires front == sections[..|sections| - 1] && name == sections[|sections| - 1].0
    ensures forall ks :: !HasSection(front, name, ks)
  {
    forall i | 0 <= i < |front| ensures front[i].0 != name {
      assert front[i] == sections[i];
    }
  }

  /** A file made of distinct sections has exactly those that are not empty, in their order. */
  lemma {:induction false} SectionsMeaning(sections: seq<Section>, g: string)
    requires DistinctSections(sections)
    ensures WithSections(EMPTY, sections).order == NamesOf(sections)
    ensures g in WithSections(EMPTY, sections).groups ==>
              HasSection(sections, g, WithSections(EMPTY, sections).groups[g])
    ensures forall i :: 0 <= i < |sections| && sections[i].0 == g && sections[i].1 != map[] ==>
                g in WithSections(EMPTY, sections).groups && WithSections(EMPTY, sections).groups[g] == sections[i].1
    decreases |sections|
  {
    if sections != [] {
      var front, last := sections[..|sections| - 1], sections[|sections| - 1];
      SectionsMeaning(front, g);
      SectionsMeaning(front, last.0);
      var f := WithSections(EMPTY, front);
      NoEarlierSection(sections, front, last.0);
      assert last.0 !in f.groups;
      assert map[] + last.1 == last.1;
      if g in WithSections(EMPTY, sections).groups {
        if last.1 != map[] && g == last.0 {
          assert sections[|sections| - 1] == (g, last.1);
        } else {
          var i :| 0 <= i < |front| && front[i] == (g, f.groups[g]) && f.groups[g] != map[];
          assert sections[i] == front[i];
        }
      }
      forall i | 0 <= i < |sections| && sections[i].0 == g && sections[i].1 != map[]
        ensures g in WithSections(EMPTY, sections).groups && WithSections(EMPTY, sections).groups[g] == sections[i].1
      {
        if i < |front| {
          assert front[i] == sections[i];
        }
      }
    }
  }
}
