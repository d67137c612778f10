/**
 The setting that says which bundle formats are accepted: a list of format names, either
 all fixed or all modifying the default with a leading '+' or '-'.
 */
module BundleFormats {
  import opened Wrappers
  import opened Text

  datatype Format = Plain | Verity | Crypt

  datatype Sign = Fixed | Plus | Minus

  datatype Token = Token(sign: Sign, format: Format)

  function FormatOf(name: string): Option<Format> {
    if name == "plain" then Some(Plain)
    else if name == "verity" then Some(Verity)
    else if name == "crypt" then Some(Crypt)
    else None
  }

  function TokenOf(piece: string): Option<Token>
    requires piece != ""
  {
    var sign := if piece[0] == '-' then Minus else if piece[0] == '+' then Plus else Fixed;
    match FormatOf(if sign.Fixed? then piece else piece[1..])
    case None => None
    case Some(f) => Some(Token(sign, f))
  }

  /** A format by its name, after the sign if there is one. */
  lemma TokenIff(piece: string, t: Token)
    requires piece != ""
    ensures TokenOf(piece) == Some(t) <==>
            piece == (match t.sign case Fixed => "" case Plus => "+" case Minus => "-")
                     + (match t.format case Plain => "plain" case Verity => "verity" case Crypt => "crypt")
  {
    var name := match t.format case Plain => "plain" case Verity => "verity" case Crypt => "crypt";
    assert name[0] != '-' && name[0] != '+';
    assert ("+" + name)[1..] == name && ("-" + name)[1..] == name;
    if TokenOf(piece) == Some(t) && !t.sign.Fixed? {
      assert piece == [piece[0]] + piece[1..];
    }
  }

  /** The tokens of a list of pieces, or nothing if one of them is invalid; empty pieces do not count. */
  function Tokens(pieces: seq<string>): Option<seq<Token>>
    decreases |pieces|
  {
    if pieces == [] then Some([])
    else
      var last := pieces[|pieces| - 1];
      match Tokens(pieces[..|pieces| - 1])
      case None => None
      case Some(ts) =>
        if last == "" then Some(ts)
        else match TokenOf(last)
          case None => None
          case Some(t) => Some(ts + [t])
  }

  /** How a format is mentioned last. */
  function LastSign(ts: seq<Token>, f: Format): Option<Sign>
    decreases |ts|
  {
    if ts == [] then None
    else if ts[|ts| - 1].format == f then Some(ts[|ts| - 1].sign)
    else LastSign(ts[..|ts| - 1], f)
  }

  predicate HasFixed(ts: seq<Token>) { exists i :: 0 <= i < |ts| && ts[i].sign.Fixed? }

  predicate HasSigned(ts: seq<Token>) { exists i :: 0 <= i < |ts| && !ts[i].sign.Fixed? }

  /**
   A format is accepted if its last mention does not remove it; one that is never
   mentioned is accepted if the list modifies a default that has it.
   */
  predicate Accepted(initial: set<Format>, ts: seq<Token>, f: Format) {
    match LastSign(ts, f)
    case Some(sign) => !sign.Minus?
    case None => f in initial && !HasFixed(ts)
  }

  /** The prefix of a failed list fails the list. */
  lemma {:induction false} TokensOfPrefix(pieces: seq<string>, i: nat)
    requires i <= |pieces| && Tokens(pieces[..i]).None?
    ensures Tokens(pieces).None?
    decreases |pieces|
  {
    if i == |pieces| {
      assert pieces[..i] == pieces;
    } else {
      assert pieces[..|pieces| - 1][..i] == pieces[..i];
      TokensOfPrefix(pieces[..|pieces| - 1], i);
    }
  }

  lemma AcceptedSnoc(initial: set<Format>, ts: seq<Token>, t: Token, f: Format)
    requires !(HasFixed(ts + [t]) && HasSigned(ts + [t]))
    ensures HasFixed(ts + [t]) == (HasFixed(ts) || t.sign.Fixed?)
              && HasSigned(ts + [t]) == (HasSigned(ts) || !t.sign.Fixed?)
    ensures Accepted(initial, ts + [t], f) ==
            if f == t.format then !t.sign.Minus? else Accepted(initial, ts, f) && !(t.sign.Fixed? && !HasFixed(ts))
  {
    var ts' := ts + [t];
    assert ts'[..|ts|] == ts && ts'[|ts|] == t;
    assert forall k :: 0 <= k < |ts| ==> ts'[k] == ts[k];
    assert HasFixed(ts') == (HasFixed(ts) || t.sign.Fixed?);
    assert LastSign(ts', f) == if f == t.format then Some(t.sign) else LastSign(ts, f);
    assert ts == [] || HasFixed(ts) || HasSigned(ts) by {
      if ts != [] {
        assert ts[0].sign.Fixed? || !ts[0].sign.Fixed?;
      }
    }
    assert HasSigned(ts') == (HasSigned(ts) || !t.sign.Fixed?);
  }

  lemma AcceptedNow(initial: set<Format>, ts: seq<Token>, t: Token, mask: set<Format>)
    requires !(HasFixed(ts) && HasSigned(ts)) ==> forall f :: f in mask <==> Accepted(initial, ts, f)
    ensures HasFixed(ts + [t]) == (HasFixed(ts) || t.sign.Fixed?)
              && HasSigned(ts + [t]) == (HasSigned(ts) || !t.sign.Fixed?)
    ensures var base := if t.sign.Fixed? && !HasFixed(ts) then {} else mask;
            var next := if t.sign.Minus? then base - {t.format} else base + {t.format};
            !(HasFixed(ts + [t]) && HasSigned(ts + [t])) ==> forall f :: f in next <==> Accepted(initial, ts + [t], f)
  {
    Mentions(ts, t);
    if !(HasFixed(ts + [t]) && HasSigned(ts + [t])) {
      forall f: Format ensures Accepted(initial, ts + [t], f) ==
          if f == t.format then !t.sign.Minus? else Accepted(initial, ts, f) && !(t.sign.Fixed? && !HasFixed(ts)) {
        AcceptedSnoc(initial, ts, t, f);
      }
    }
  }

  lemma Mentions(ts: seq<Token>, t: Token)
    ensures HasFixed(ts + [t]) == (HasFixed(ts) || t.sign.Fixed?)
              && HasSigned(ts + [t]) == (HasSigned(ts) || !t.sign.Fixed?)
  {
    var ts' := ts + [t];
    assert ts'[|ts|] == t;
    assert forall k :: 0 <= k < |ts| ==> ts'[k] == ts[k];
  }

  /** One more token: a fixed list starts from nothing. */
  method Take(initial: set<Format>, ghost ts: seq<Token>, t: Token, fixed: bool, modifying: bool, mask: set<Format>)
    returns (fixed': bool, modifying': bool, mask': set<Format>)
    requires fixed == HasFixed(ts) && modifying == HasSigned(ts)
    requires !(fixed && modifying) ==> forall f :: f in mask <==> Accepted(initial, ts, f)
    ensures fixed' == HasFixed(ts + [t]) && modifying' == HasSigned(ts + [t])
    ensures !(fixed' && modifying') ==> forall f :: f in mask' <==> Accepted(initial, ts + [t], f)
  {
    AcceptedNow(initial, ts, t, mask);
    fixed', modifying', mask' := fixed, modifying, mask;
    if !t.sign.Fixed? {
      modifying' := true;
    } else {
      if !fixed {
        mask' := {};
      }
      fixed' := true;
    }
    mask' := if t.sign.Minus? then mask' - {t.format} else mask' + {t.format};
  }

  method ParseBundleFormats(initial: set<Format>, config: string) returns (mask: Option<set<Format>>)
    ensures var pieces := Split(config, ' ');
            match Tokens(pieces)
            case None => mask.None?
            case Some(ts) =>
              && (mask.None? <==> (HasFixed(ts) && HasSigned(ts)) || forall f :: !Accepted(initial, ts, f))
              && (mask.Some? ==> forall f :: f in mask.value <==> Accepted(initial, ts, f))
  {
    var pieces := Split(config, ' ');
    var imask := initial;
    var fixed, modifying := false, false;
    ghost var ts: seq<Token> := [];
    var i := 0;
    while i < |pieces|
      invariant 0 <= i <= |pieces|
      invariant Tokens(pieces[..i]) == Some(ts)
      invariant fixed == HasFixed(ts) && modifying == HasSigned(ts)
      invariant !(fixed && modifying) ==> forall f :: f in imask <==> Accepted(initial, ts, f)
    {
      var piece := pieces[i];
      assert pieces[..i + 1][..i] == pieces[..i];
      if piece != "" {
        var token := TokenOf(piece);
        if token.None? {
          TokensOfPrefix(pieces, i + 1);
          return None;
        }
        fixed, modifying, imask := Take(initial, ts, token.value, fixed, modifying, imask);
        ts := ts + [token.value];
      }
      i := i + 1;
    }
    assert pieces[..i] == pieces;
    if fixed && modifying {
      return None;
    }
    if imask == {} {
      return None;
    }
    mask := Some(imask);
  }
}
