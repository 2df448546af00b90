/**
 The regular-expression matcher of grep.c.

 A C string is a `string`; reading past its last character yields the NUL that the
 source tests for, so `re[1] == '*'` is written `|re| >= 2 && re[1] == '*'`.

 The specification is declarative: a pattern denotes a sequence of atoms, a word
 belongs to the pattern's language when it can be cut into one piece per atom, and
 `match` succeeds when some substring of the text belongs to the language.
 */
module Grep {

  datatype Atom = One(c: char) | Star(c: char) | End

  /** The syntax of a pattern after an optional leading '^'. */
  function Parse(re: string): (atoms: seq<Atom>)
    decreases |re|
  {
    if re == "" then []
    else if |re| >= 2 && re[1] == '*' then [Star(re[0])] + Parse(re[2..])
    else if re == "$" then [End]
    else [One(re[0])] + Parse(re[1..])
  }

  predicate Fits(c: char, x: char) {
    c == '.' || c == x
  }

  predicate PieceOf(a: Atom, piece: string) {
    match a
    case One(c) => |piece| == 1 && Fits(c, piece[0])
    case Star(c) => forall i | 0 <= i < |piece| :: Fits(c, piece[i])
    case End => piece == ""
  }

  function Join(pieces: seq<string>): (w: string) {
    if pieces == [] then "" else pieces[0] + Join(pieces[1..])
  }

  ghost predicate Cuts(atoms: seq<Atom>, pieces: seq<string>) {
    && |pieces| == |atoms|
    && forall i | 0 <= i < |atoms| :: PieceOf(atoms[i], pieces[i])
  }

  /** `w` belongs to the language of `atoms`. */
  ghost predicate InLanguage(atoms: seq<Atom>, w: string) {
    exists pieces: seq<string> :: Cuts(atoms, pieces) && Join(pieces) == w
  }

  /** Some prefix of `text` belongs to the language; a final '$' forces the whole text. */
  ghost predicate MatchesPrefix(atoms: seq<Atom>, text: string) {
    exists j :: 0 <= j <= |text| && InLanguage(atoms, text[..j]) && (End in atoms ==> j == |text|)
  }

  ghost predicate MatchesSomewhere(atoms: seq<Atom>, text: string) {
    exists i :: 0 <= i <= |text| && MatchesPrefix(atoms, text[i..])
  }

  /** What grep promises for a pattern: '^' anchors at the start, otherwise search. */
  ghost predicate Matches(re: string, text: string) {
    if re != "" && re[0] == '^' then MatchesPrefix(Parse(re[1..]), text)
    else MatchesSomewhere(Parse(re), text)
  }

  lemma InLanguageCons(a: Atom, rest: seq<Atom>, u: string, w: string)
    requires PieceOf(a, u) && InLanguage(rest, w)
    ensures InLanguage([a] + rest, u + w)
  {
    var pieces :| Cuts(rest, pieces) && Join(pieces) == w;
    var all := [u] + pieces;
    assert all[1..] == pieces;
    assert Cuts([a] + rest, all) && Join(all) == u + w;
  }

  lemma InLanguageUncons(a: Atom, rest: seq<Atom>, w: string) returns (k: nat)
    requires InLanguage([a] + rest, w)
    ensures k <= |w| && PieceOf(a, w[..k]) && InLanguage(rest, w[k..])
  {
    var pieces :| Cuts([a] + rest, pieces) && Join(pieces) == w;
    k := |pieces[0]|;
    assert w == pieces[0] + Join(pieces[1..]);
    assert w[..k] == pieces[0] && w[k..] == Join(pieces[1..]);
    assert PieceOf(([a] + rest)[0], pieces[0]);
    forall i | 0 <= i < |rest| ensures PieceOf(rest[i], pieces[1..][i]) {
      assert PieceOf(([a] + rest)[i + 1], pieces[i + 1]);
    }
    assert Cuts(rest, pieces[1..]);
  }

  /** Peeling the first atom of a pattern peels a first piece off the text. */
  lemma PrefixCons(a: Atom, rest: seq<Atom>, text: string)
    requires a != End
    ensures MatchesPrefix([a] + rest, text) <==>
            exists k :: 0 <= k <= |text| && PieceOf(a, text[..k]) && MatchesPrefix(rest, text[k..])
  {
    if MatchesPrefix([a] + rest, text) {
      var j :| 0 <= j <= |text| && InLanguage([a] + rest, text[..j]) && (End in [a] + rest ==> j == |text|);
      var k := InLanguageUncons(a, rest, text[..j]);
      assert text[..j][..k] == text[..k] && text[..j][k..] == text[k..][..j - k];
      assert MatchesPrefix(rest, text[k..]);
    }
    if k :| 0 <= k <= |text| && PieceOf(a, text[..k]) && MatchesPrefix(rest, text[k..]) {
      var j :| 0 <= j <= |text[k..]| && InLanguage(rest, text[k..][..j]) && (End in rest ==> j == |text[k..]|);
      InLanguageCons(a, rest, text[..k], text[k..][..j]);
      assert text[..k] + text[k..][..j] == text[..k + j];
    }
  }

  lemma PrefixNil(text: string)
    ensures MatchesPrefix([], text)
  {
    var none: seq<string> := [];
    assert Cuts([], none) && Join(none) == text[..0];
    assert InLanguage([], text[..0]);
  }

  lemma PrefixEnd(text: string)
    ensures MatchesPrefix([End], text) <==> text == ""
  {
    if MatchesPrefix([End], text) {
      var j :| 0 <= j <= |text| && InLanguage([End], text[..j]) && (End in [End] ==> j == |text|);
      var pieces :| Cuts([End], pieces) && Join(pieces) == text[..j];
      assert pieces[1..] == [] && PieceOf([End][0], pieces[0]);
      assert Join(pieces) == "";
      assert [End][0] == End && j == |text|;
    }
    if text == "" {
      var one := [""];
      assert one[1..] == [];
      assert Cuts([End], one) && Join(one) == text[..0];
    }
  }

  lemma PrefixOne(c: char, rest: seq<Atom>, text: string)
    ensures MatchesPrefix([One(c)] + rest, text) <==>
            text != "" && Fits(c, text[0]) && MatchesPrefix(rest, text[1..])
  {
    PrefixCons(One(c), rest, text);
    if text != "" && Fits(c, text[0]) && MatchesPrefix(rest, text[1..]) {
      assert PieceOf(One(c), text[..1]);
    }
  }

  lemma PrefixStar(c: char, rest: seq<Atom>, text: string)
    ensures MatchesPrefix([Star(c)] + rest, text) <==>
            exists k ::
              0 <= k <= |text| && (forall m | 0 <= m < k :: Fits(c, text[m])) && MatchesPrefix(rest, text[k..])
  {
    PrefixCons(Star(c), rest, text);
    if k :| 0 <= k <= |text| && PieceOf(Star(c), text[..k]) && MatchesPrefix(rest, text[k..]) {
      assert forall m | 0 <= m < k :: Fits(c, text[..k][m]);
      assert forall m | 0 <= m < k :: text[..k][m] == text[m];
    }
    if k :| 0 <= k <= |text| && (forall m | 0 <= m < k :: Fits(c, text[m])) && MatchesPrefix(rest, text[k..]) {
      assert PieceOf(Star(c), text[..k]);
    }
  }

  // ---- What particular patterns mean ----

  predicate Plain(w: string) {
    forall j | 0 <= j < |w| :: w[j] != '*' && w[j] != '$' && w[j] != '^'
  }

  /** w stands at position i of the text; '.' stands for any character. */
  predicate Occurs(w: string, text: string, i: nat) {
    i + |w| <= |text| && forall j | 0 <= j < |w| :: w[j] == '.' || w[j] == text[i + j]
  }

  lemma {:induction false} PlainPrefix(w: string, tail: string, text: string)
    requires Plain(w) && (tail == "" || tail == "$")
    ensures MatchesPrefix(Parse(w + tail), text) <==> Occurs(w, text, 0) && (tail == "$" ==> |text| == |w|)
    decreases |w|
  {
    if w == "" {
      assert w + tail == tail;
      PrefixNil(text);
      PrefixEnd(text);
    } else {
      var rest := w[1..] + tail;
      assert (w + tail)[1..] == rest;
      assert Parse(w + tail) == [One(w[0])] + Parse(rest);
      PrefixOne(w[0], Parse(rest), text);
      if text != "" {
        PlainPrefix(w[1..], tail, text[1..]);
        OccursCons(w, text);
      }
    }
  }

  lemma OccursCons(w: string, text: string)
    requires w != "" && text != ""
    ensures Occurs(w, text, 0) <==> (w[0] == '.' || w[0] == text[0]) && Occurs(w[1..], text[1..], 0)
  {
    if (w[0] == '.' || w[0] == text[0]) && Occurs(w[1..], text[1..], 0) {
      forall j | 0 <= j < |w| ensures w[j] == '.' || w[j] == text[j] {
        if j > 0 {
          assert w[1..][j - 1] == w[j] && text[1..][j - 1] == text[j];
        }
      }
    }
  }

  lemma OccursFrom(w: string, text: string, i: nat)
    requires i <= |text|
    ensures Occurs(w, text, i) <==> Occurs(w, text[i..], 0)
  {
    assert forall j | 0 <= j < |text| - i :: text[i..][j] == text[i + j];
  }

  /** A pattern without '*': a line contains it, or starts, ends or begins and ends with it. */
  lemma PlainPattern(w: string, text: string)
    requires Plain(w)
    ensures Matches(w, text) <==> exists i: nat :: Occurs(w, text, i)
    ensures Matches("^" + w, text) <==> Occurs(w, text, 0)
    ensures Matches(w + "$", text) <==> |w| <= |text| && Occurs(w, text, |text| - |w|)
    ensures Matches("^" + w + "$", text) <==> |text| == |w| && Occurs(w, text, 0)
  {
    hide MatchesPrefix, Occurs;
    forall i: nat | i <= |text|
      ensures MatchesPrefix(Parse(w), text[i..]) <==> Occurs(w, text, i)
      ensures MatchesPrefix(Parse(w + "$"), text[i..]) <==> Occurs(w, text, i) && |text| - i == |w|
    {
      assert w + "" == w;
      PlainPrefix(w, "", text[i..]);
      PlainPrefix(w, "$", text[i..]);
      OccursFrom(w, text, i);
    }
    assert text[0..] == text;
    assert ("^" + w)[1..] == w && ("^" + w + "$")[1..] == w + "$";
    PlainAnywhere(w, text);
    PlainAtEnd(w, text);
  }

  lemma PlainAnywhere(w: string, text: string)
    requires Plain(w)
    requires forall i: nat | i <= |text| :: MatchesPrefix(Parse(w), text[i..]) <==> Occurs(w, text, i)
    ensures Matches(w, text) <==> exists i: nat :: Occurs(w, text, i)
  {
    hide MatchesPrefix;
    if i: nat :| Occurs(w, text, i) {
      assert MatchesPrefix(Parse(w), text[i..]);
    }
  }

  lemma PlainAtEnd(w: string, text: string)
    requires Plain(w)
    requires forall i: nat | i <= |text| ::
               MatchesPrefix(Parse(w + "$"), text[i..]) <==> Occurs(w, text, i) && |text| - i == |w|
    ensures Matches(w + "$", text) <==> |w| <= |text| && Occurs(w, text, |text| - |w|)
  {
    hide MatchesPrefix, Occurs;
    if |w| <= |text| && Occurs(w, text, |text| - |w|) {
      assert MatchesPrefix(Parse(w + "$"), text[|text| - |w|..]);
    }
  }

  /** A star behind a character: any number of copies of it, of anything if it is '.', and then the rest. */
  lemma StarredPattern(c: char, rest: string, text: string)
    ensures MatchesPrefix(Parse([c, '*'] + rest), text) <==>
            exists k :: 0 <= k <= |text| && (forall m | 0 <= m < k :: c == '.' || c == text[m])
                        && MatchesPrefix(Parse(rest), text[k..])
  {
    assert ([c, '*'] + rest)[2..] == rest;
    PrefixStar(c, Parse(rest), text);
  }

  /** matchhere: the pattern matches at the beginning of the text. */
  method MatchHere(re: string, text: string) returns (r: bool)
    ensures r <==> MatchesPrefix(Parse(re), text)
    decreases |re|, 0
  {
    if re == "" {
      PrefixNil(text);
      return true;
    }
    if |re| >= 2 && re[1] == '*' {
      r := MatchStar(re[0], re[2..], text);
      return;
    }
    if re == "$" {
      PrefixEnd(text);
      return text == "";
    }
    PrefixOne(re[0], Parse(re[1..]), text);
    if text != "" && Fits(re[0], text[0]) {
      r := MatchHere(re[1..], text[1..]);
      return;
    }
    return false;
  }

  /** matchstar: zero or more instances of c, then the rest of the pattern. */
  method MatchStar(c: char, re: string, text: string) returns (r: bool)
    ensures r <==> MatchesPrefix([Star(c)] + Parse(re), text)
    decreases |re|, 1
  {
    PrefixStar(c, Parse(re), text);
    var i := 0;
    while true
      invariant 0 <= i <= |text|
      invariant forall m | 0 <= m < i :: Fits(c, text[m])
      invariant forall m | 0 <= m < i :: !MatchesPrefix(Parse(re), text[m..])
      decreases |text| - i
    {
      var here := MatchHere(re, text[i..]);
      if here {
        return true;
      }
      if i == |text| || !Fits(c, text[i]) {
        return false;
      }
      i := i + 1;
    }
  }

  /** match: search for the pattern anywhere, or only at the start after '^'. */
  method Match(re: string, text: string) returns (r: bool)
    ensures r <==> Matches(re, text)
  {
    if re != "" && re[0] == '^' {
      r := MatchHere(re[1..], text);
      return;
    }
    var i := 0;
    while true
      invariant 0 <= i <= |text|
      invariant forall m | 0 <= m < i :: !MatchesPrefix(Parse(re), text[m..])
      decreases |text| - i
    {
      var here := MatchHere(re, text[i..]);
      if here {
        return true;
      }
      if i == |text| {
        return false;
      }
      i := i + 1;
    }
  }
}
