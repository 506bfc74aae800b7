/** The pattern matcher of grep.c, against the language a pattern denotes. */
module Grep {

  /** A pattern: characters, starred characters, an end that may be anchored. */
  datatype Pat = Done | AtEnd | One(c: char, rest: Pat) | Star(c: char, rest: Pat)

  /** How a pattern is read, without its leading '^'. A '*' that follows nothing, a '$' before the end
      and a '^' behind the beginning stand for themselves; "$*" and "**" are starred characters. */
  function Parse(re: string): Pat {
    if re == "" then Done
    else if |re| > 1 && re[1] == '*' then Star(re[0], Parse(re[2..]))
    else if re == "$" then AtEnd
    else One(re[0], Parse(re[1..]))
  }

  /** A pattern as it is written. */
  function Show(p: Pat): string {
    match p
    case Done => ""
    case AtEnd => "$"
    case One(c, r) => [c] + Show(r)
    case Star(c, r) => [c, '*'] + Show(r)
  }

  /** What is written for p starts with a star. */
  predicate StarsFirst(p: Pat) {
    (p.One? || p.Star?) && p.c == '*'
  }

  /** What can be written: a single character before a star would be starred, and a single '$' at the end
      would be the anchor. */
  predicate Written(p: Pat) {
    match p
    case Done => true
    case AtEnd => true
    case One(c, r) => Written(r) && !StarsFirst(r) && !(c == '$' && r == Done)
    case Star(_, r) => Written(r)
  }

  /** What is written is read back. */
  lemma {:induction false} ParseShow(p: Pat)
    requires Written(p)
    ensures Parse(Show(p)) == p
  {
    match p
    case Done =>
    case AtEnd =>
    case One(c, r) =>
      ParseShow(r);
      ShowFirst(r);
      assert Show(p)[1..] == Show(r);
    case Star(c, r) =>
      ParseShow(r);
      assert Show(p)[2..] == Show(r);
  }

  lemma {:induction false} ShowFirst(p: Pat)
    ensures Show(p) == "" <==> p == Done
    ensures Show(p) != "" ==> (Show(p)[0] == '*' <==> StarsFirst(p))
  {
  }

  /** Every string is written for exactly one pattern, the one it is read as. */
  lemma {:induction false} ShowParse(re: string)
    ensures Show(Parse(re)) == re && Written(Parse(re))
    ensures forall p :: Written(p) && Show(p) == re ==> p == Parse(re)
  {
    if re != "" {
      if |re| > 1 && re[1] == '*' {
        ShowParse(re[2..]);
      } else if re != "$" {
        ShowParse(re[1..]);
        ShowFirst(Parse(re[1..]));
      }
    }
    forall p | Written(p) && Show(p) == re
      ensures p == Parse(re)
    {
      ParseShow(p);
    }
  }

  predicate Fits(c: char, x: char) {
    c == '.' || c == x
  }

  predicate Run(c: char, s: string) {
    forall i :: 0 <= i < |s| ==> Fits(c, s[i])
  }

  /** The strings a pattern denotes. */
  ghost predicate Lang(p: Pat, s: string) {
    match p
    case Done => s == ""
    case AtEnd => s == ""
    case One(c, r) => s != "" && Fits(c, s[0]) && Lang(r, s[1..])
    case Star(c, r) => exists n :: 0 <= n <= |s| && Run(c, s[..n]) && Lang(r, s[n..])
  }

  predicate Anchored(p: Pat) {
    match p
    case Done => false
    case AtEnd => true
    case One(_, r) => Anchored(r)
    case Star(_, r) => Anchored(r)
  }

  /** The pattern matches the first k characters of the text, all of it if it is anchored. */
  ghost predicate MatchesTo(p: Pat, text: string, k: nat) {
    k <= |text| && Lang(p, text[..k]) && (Anchored(p) ==> k == |text|)
  }

  ghost predicate Accepts(p: Pat, text: string) {
    exists k :: MatchesTo(p, text, k)
  }

  // ------------------------------------------------------------------ one step of a pattern

  lemma {:induction false} AcceptsDone(text: string)
    ensures Accepts(Done, text)
  {
    assert MatchesTo(Done, text, 0);
  }

  lemma {:induction false} AcceptsEnd(text: string)
    ensures Accepts(AtEnd, text) <==> text == ""
  {
    if text == "" {
      assert MatchesTo(AtEnd, text, 0);
    }
  }

  lemma {:induction false} AcceptsOne(c: char, r: Pat, text: string)
    ensures Accepts(One(c, r), text) <==> text != "" && Fits(c, text[0]) && Accepts(r, text[1..])
  {
    if k: nat :| MatchesTo(One(c, r), text, k) {
      assert text[..k][1..] == text[1..][..k - 1];
      assert MatchesTo(r, text[1..], k - 1);
    }
    if text != "" && Fits(c, text[0]) {
      if k: nat :| MatchesTo(r, text[1..], k) {
        assert text[..k + 1][1..] == text[1..][..k];
        assert MatchesTo(One(c, r), text, k + 1);
      }
    }
  }

  /** After n characters that fit c, the rest of the pattern matches. */
  ghost predicate StarTo(c: char, r: Pat, text: string, n: nat) {
    n <= |text| && Run(c, text[..n]) && Accepts(r, text[n..])
  }

  lemma {:induction false} AcceptsStar(c: char, r: Pat, text: string)
    ensures Accepts(Star(c, r), text) <==> exists n :: StarTo(c, r, text, n)
  {
    if k: nat :| MatchesTo(Star(c, r), text, k) {
      var s := text[..k];
      var n :| 0 <= n <= |s| && Run(c, s[..n]) && Lang(r, s[n..]);
      assert s[..n] == text[..n] && s[n..] == text[n..][..k - n];
      assert MatchesTo(r, text[n..], k - n);
      assert StarTo(c, r, text, n);
    }
    if n: nat :| StarTo(c, r, text, n) {
      var k: nat :| MatchesTo(r, text[n..], k);
      var s := text[..n + k];
      assert s[..n] == text[..n] && s[n..] == text[n..][..k];
      assert MatchesTo(Star(c, r), text, n + k);
    }
  }

  // ------------------------------------------------------------------ the code

  /** matchhere, for the pattern that re is written for. */
  method MatchHere(re: string, text: string) returns (r: bool)
    ensures r <==> Accepts(Parse(re), text)
    ensures forall p :: Written(p) && Show(p) == re ==> (r <==> Accepts(p, text))
    decreases |re|, 0
  {
    hide Accepts;
    ShowParse(re);
    AcceptsDone(text);
    if re == "" {
      return true;
    }
    if |re| > 1 && re[1] == '*' {
      r := MatchStar(re[0], re[2..], text);
      return;
    }
    AcceptsEnd(text);
    if re == "$" {
      return text == "";
    }
    AcceptsOne(re[0], Parse(re[1..]), text);
    if text != "" && (re[0] == '.' || re[0] == text[0]) {
      r := MatchHere(re[1..], text[1..]);
      return;
    }
    return false;
  }

  /** matchstar: c* and then re. */
  method MatchStar(c: char, re: string, text: string) returns (r: bool)
    ensures r <==> Accepts(Star(c, Parse(re)), text)
    decreases |re|, 1
  {
    hide Accepts;
    AcceptsStar(c, Parse(re), text);
    var n := 0;
    while true
      invariant n <= |text| && Run(c, text[..n])
      invariant forall m :: 0 <= m < n ==> !Accepts(Parse(re), text[m..])
      decreases |text| - n
    {
      var here := MatchHere(re, text[n..]);
      if here {
        assert StarTo(c, Parse(re), text, n);
        return true;
      }
      if n == |text| || !(text[n] == c || c == '.') {
        NoMoreStar(c, Parse(re), text, n);
        return false;
      }
      assert text[..n + 1] == text[..n] + [text[n]];
      n := n + 1;
    }
  }

  lemma {:induction false} NoMoreStar(c: char, r: Pat, text: string, n: nat)
    requires n <= |text| && (n == |text| || !Fits(c, text[n]))
    requires forall m :: 0 <= m <= n ==> !Accepts(r, text[m..])
    ensures !exists m :: StarTo(c, r, text, m)
  {
    forall m: nat
      ensures !StarTo(c, r, text, m)
    {
      if n < m <= |text| {
        assert text[..m][n] == text[n];
      }
    }
  }

  /** match: the pattern matches somewhere in the text; at its beginning, if it starts with '^'. */
  method Match(re: string, text: string) returns (r: bool)
    ensures r <==> if re != "" && re[0] == '^' then Accepts(Parse(re[1..]), text)
                   else exists i :: 0 <= i <= |text| && Accepts(Parse(re), text[i..])
  {
    hide Accepts;
    if re != "" && re[0] == '^' {
      r := MatchHere(re[1..], text);
      return;
    }
    var i := 0;
    while true
      invariant i <= |text| && forall j :: 0 <= j < i ==> !Accepts(Parse(re), text[j..])
      decreases |text| - i
    {
      r := MatchHere(re, text[i..]);
      if r {
        return;
      }
      if i == |text| {
        return false;
      }
      i := i + 1;
    }
  }
}
