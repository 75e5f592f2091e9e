/** The regular-expression matcher of grep (user/grep.c): literal characters, `.`, `*`, and
    `^` and `$` at the ends. */
module Matcher {
  import opened CStrings

  // ----- what a pattern means

  datatype Item = One(c: char) | Star(c: char)

  /** What matchhere looks for: items in a row, and then perhaps the end of the text. */
  datatype Pattern = Pattern(items: seq<Item>, end: bool)

  function Parse(re: CString): (p: Pattern) {
    if re == [] then Pattern([], false)
    else if |re| >= 2 && re[1] == '*' then
      var rest := Parse(re[2..]);
      Pattern([Star(re[0])] + rest.items, rest.end)
    else if re == "$" then Pattern([], true)
    else
      var rest := Parse(re[1..]);
      Pattern([One(re[0])] + rest.items, rest.end)
  }

  predicate CharFits(c: char, t: char) {
    c == '.' || c == t
  }

  /** The strings that one item stands for. */
  predicate Fits(item: Item, s: string) {
    (item.One? ==> |s| == 1) && forall i | 0 <= i < |s| :: CharFits(item.c, s[i])
  }

  function Join(pieces: seq<string>): (s: string) {
    if pieces == [] then [] else pieces[0] + Join(pieces[1..])
  }

  /** `pieces` are consecutive parts of the front of `text`, one for each item. */
  ghost predicate Splits(p: Pattern, text: string, pieces: seq<string>) {
    && |pieces| == |p.items|
    && (forall k | 0 <= k < |pieces| :: Fits(p.items[k], pieces[k]))
    && if p.end then Join(pieces) == text else Join(pieces) <= text
  }

  ghost predicate Here(p: Pattern, text: string) {
    exists pieces :: Splits(p, text, pieces)
  }

  /** A match somewhere in the text, or at its start if the pattern begins with `^`. */
  ghost predicate Matches(re: CString, text: string) {
    if |re| > 0 && re[0] == '^' then Here(Parse(re[1..]), text)
    else exists i :: 0 <= i <= |text| && Here(Parse(re), text[i..])
  }

  // ----- splits item by item

  lemma HereNone(end: bool, text: string)
    ensures Here(Pattern([], end), text) <==> !end || text == []
  {
    if !end || text == [] {
      assert Splits(Pattern([], end), text, []);
    }
  }

  lemma HereOne(c: char, rest: Pattern, text: string)
    ensures Here(Pattern([One(c)] + rest.items, rest.end), text)
        <==> text != [] && (c == '.' || c == text[0]) && Here(rest, text[1..])
  {
    var p := Pattern([One(c)] + rest.items, rest.end);
    if Here(p, text) {
      var pieces :| Splits(p, text, pieces);
      SplitFirst(p, text, pieces);
      assert p.items[0] == One(c) && pieces[0] == [text[0]];
    }
    if text != [] && CharFits(c, text[0]) && Here(rest, text[1..]) {
      var pieces :| Splits(rest, text[1..], pieces);
      SplitMore(One(c), rest, text, 1, pieces);
    }
  }

  lemma HereStar(c: char, rest: Pattern, text: string)
    ensures Here(Pattern([Star(c)] + rest.items, rest.end), text) <==>
            exists k :: 0 <= k <= |text| && Fits(Star(c), text[..k]) && Here(rest, text[k..])
    ensures forall s: string :: Fits(Star(c), s) <==> c == '.' || forall i | 0 <= i < |s| :: s[i] == c
  {
    var p := Pattern([Star(c)] + rest.items, rest.end);
    if Here(p, text) {
      var pieces :| Splits(p, text, pieces);
      SplitFirst(p, text, pieces);
      assert p.items[0] == Star(c);
    }
    if k :| 0 <= k <= |text| && Fits(Star(c), text[..k]) && Here(rest, text[k..]) {
      var pieces :| Splits(rest, text[k..], pieces);
      SplitMore(Star(c), rest, text, k, pieces);
    }
  }

  /** The first piece is the front of the text; the others split what follows. */
  lemma SplitFirst(p: Pattern, text: string, pieces: seq<string>)
    requires Splits(p, text, pieces) && p.items != []
    ensures var k := |pieces[0]|;
            && k <= |text| && text[..k] == pieces[0] && Fits(p.items[0], text[..k])
            && Splits(Pattern(p.items[1..], p.end), text[k..], pieces[1..]) &&
              Here(Pattern(p.items[1..], p.end), text[k..])
  {
    var k := |pieces[0]|;
    var tail := Join(pieces[1..]);
    assert Join(pieces) == pieces[0] + tail && Join(pieces) <= text;
    assert text[..k] == pieces[0];
    assert text[k..][..|tail|] == tail;
    assert p.end ==> text[k..] == tail;
    assert Splits(Pattern(p.items[1..], p.end), text[k..], pieces[1..]);
  }

  lemma SplitMore(item: Item, rest: Pattern, text: string, k: nat, pieces: seq<string>)
    requires k <= |text| && Fits(item, text[..k]) && Splits(rest, text[k..], pieces)
    ensures Here(Pattern([item] + rest.items, rest.end), text)
  {
    var all := [text[..k]] + pieces;
    assert all[1..] == pieces;
    assert text == text[..k] + text[k..];
    assert Splits(Pattern([item] + rest.items, rest.end), text, all);
  }

  // ----- how patterns are written

  function Show(p: Pattern): (re: string)
    decreases |p.items|
  {
    if p.items == [] then if p.end then "$" else ""
    else
      var first := p.items[0];
      (if first.One? then [first.c] else [first.c, '*']) + Show(Pattern(p.items[1..], p.end))
  }

  /** No character is followed by a star that is not its own, and no `$` stands at the end that
      is not the end. */
  predicate Canonical(p: Pattern)
    decreases |p.items|
  {
    if p.items == [] then true
    else if |p.items| == 1 then p.end || p.items[0] != One('$')
    else (p.items[0].One? ==> p.items[1].c != '*') && Canonical(Pattern(p.items[1..], p.end))
  }

  lemma {:induction false} ShowParse(re: CString)
    ensures Show(Parse(re)) == re && Canonical(Parse(re))
    decreases |re|
  {
    if |re| >= 2 && re[1] == '*' {
      ShowParse(re[2..]);
      var p := Parse(re);
      assert p.items[1..] == Parse(re[2..]).items;
      assert re == [re[0], '*'] + re[2..];
    } else if re != [] && re != "$" {
      ShowParse(re[1..]);
      var p, rest := Parse(re), Parse(re[1..]);
      assert p.items[1..] == rest.items;
      assert re == [re[0]] + re[1..];
      if rest.items != [] {
        assert Show(rest)[0] == rest.items[0].c;
      }
    }
  }

  /** A pattern is read as it was written if and only if it is canonical. */
  lemma ParseShow(p: Pattern)
    requires NUL !in Show(p)
    ensures Parse(Show(p)) == p <==> Canonical(p)
  {
    ShowParse(Show(p));
    if Canonical(p) {
      ShowInjective(p, Parse(Show(p)));
    }
  }

  lemma {:induction false} ShowInjective(p: Pattern, q: Pattern)
    requires Canonical(p) && Canonical(q) && Show(p) == Show(q)
    ensures p == q
    decreases |p.items|
  {
    if p.items == [] || q.items == [] {
      ShortPattern(p);
      ShortPattern(q);
    } else {
      var p', q' := Pattern(p.items[1..], p.end), Pattern(q.items[1..], q.end);
      FirstShown(p);
      FirstShown(q);
      ShowInjective(p', q');
      assert p.items == [p.items[0]] + p'.items && q.items == [q.items[0]] + q'.items;
    }
  }

  lemma ShortPattern(p: Pattern)
    requires Canonical(p)
    ensures Show(p) == "" <==> p.items == [] && !p.end
    ensures Show(p) == "$" <==> p.items == [] && p.end
  {
    if p.items != [] {
      var rest := Pattern(p.items[1..], p.end);
      assert |Show(p)| >= 1 + |Show(rest)| && Show(p)[0] == p.items[0].c;
      if rest.items != [] || p.end {
        assert |Show(rest)| >= 1;
      }
    }
  }

  /** The first item can be told from the first two characters. */
  lemma FirstShown(p: Pattern)
    requires Canonical(p) && p.items != []
    ensures var re, rest := Show(p), Pattern(p.items[1..], p.end);
            && re != [] && re[0] == p.items[0].c && Canonical(rest)
            && (p.items[0].Star? <==> |re| >= 2 && re[1] == '*')
            && re[if p.items[0].Star? then 2 else 1..] == Show(rest)
  {
    var rest := Pattern(p.items[1..], p.end);
    if rest.items != [] {
      assert Show(rest)[0] == rest.items[0].c == p.items[1].c;
    }
  }

  // ----- the matcher

  method Match(re: CString, text: CString) returns (found: bool)
    ensures found <==> Matches(re, text)
  {
    if CharAt(re, 0) == '^' {
      found := MatchHere(re[1..], text);
      return;
    }
    var t: CString := text;
    ghost var i := 0;
    while true
      invariant 0 <= i <= |text| && t == text[i..] && forall k | 0 <= k < i :: !Here(Parse(re), text[k..])
      decreases |t|
    {
      found := MatchHere(re, t);
      if found {
        return;
      }
      if CharAt(t, 0) == NUL {
        break;
      }
      t, i := t[1..], i + 1;
    }
  }

  method MatchHere(re: CString, text: CString) returns (found: bool)
    ensures found <==> Here(Parse(re), text)
    decreases |re|, 0
  {
    if CharAt(re, 0) == NUL {
      HereNone(false, text);
      return true;
    }
    if CharAt(re, 1) == '*' {
      HereStar(re[0], Parse(re[2..]), text);
      found := MatchStar(re[0], re[2..], text);
      return;
    }
    if CharAt(re, 0) == '$' && CharAt(re, 1) == NUL {
      HereNone(true, text);
      return CharAt(text, 0) == NUL;
    }
    HereOne(re[0], Parse(re[1..]), text);
    if CharAt(text, 0) != NUL && (re[0] == '.' || re[0] == text[0]) {
      found := MatchHere(re[1..], text[1..]);
      return;
    }
    found := false;
  }

  method MatchStar(c: char, re: CString, text: CString) returns (found: bool)
    ensures found <==> exists k :: 0 <= k <= |text| && Fits(Star(c), text[..k]) && Here(Parse(re), text[k..])
    decreases |re|, 1
  {
    var t: CString := text;
    ghost var i := 0;
    while true
      invariant 0 <= i <= |text| && t == text[i..] && Fits(Star(c), text[..i])
      invariant forall k | 0 <= k < i :: !Here(Parse(re), text[k..])
      decreases |t|
    {
      found := MatchHere(re, t);
      if found {
        return;
      }
      if !(CharAt(t, 0) != NUL && (t[0] == c || c == '.')) {
        break;
      }
      t, i := t[1..], i + 1;
    }
    forall k | i < k <= |text|
      ensures !Fits(Star(c), text[..k])
    {
      assert text[..k][i] == t[0];
    }
  }
}
