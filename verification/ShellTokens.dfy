/** The tokens of a line of sh.c: what gettoken and peek see, and how a line is made of them. */
module ShellTokens {
  import opened Shell

  /** A word, or an operator by the kind that gettoken gives it: '+' is ">>". */
  datatype Tok = Sym(kind: char) | Wd(text: string)

  ghost predicate GoodWord(w: string) {
    w != "" && forall i :: 0 <= i < |w| ==> IsWordChar(w[i]) && w[i] != '\0'
  }

  ghost predicate GoodTok(t: Tok) {
    match t
    case Sym(kind) => IsSymbol(kind) || kind == '+'
    case Wd(text) => GoodWord(text)
  }

  ghost predicate GoodToks(toks: seq<Tok>) {
    forall k :: 0 <= k < |toks| ==> GoodTok(toks[k])
  }

  function TokOf(line: string, t: Token): Tok
    requires t.q <= t.eq <= |line|
  {
    if t.kind == 'a' then Wd(line[t.q..t.eq]) else Sym(t.kind)
  }

  /** The tokens from position s on. */
  ghost function Toks(line: string, s: nat): seq<Tok>
    requires IsLine(line) && s <= |line|
    decreases |line| - s
  {
    var t := GetToken(line, s);
    if t.kind == '\0' then [] else [TokOf(line, t)] + Toks(line, t.next)
  }

  // ------------------------------------------------------------------ gettoken and peek

  lemma {:induction false} SkipTwice(line: string, s: nat)
    requires s <= |line|
    ensures Skip(line, Skip(line, s)) == Skip(line, s)
  {
    var r := Skip(line, s);
    assert r == |line| || !IsSpace(line[r]);
  }

  lemma {:induction false} SkipToks(line: string, s: nat)
    requires IsLine(line) && s <= |line|
    ensures Toks(line, Skip(line, s)) == Toks(line, s)
  {
    SkipTwice(line, s);
    assert GetToken(line, Skip(line, s)) == GetToken(line, s);
  }

  /** The character an operator starts with. */
  function First(kind: char): char {
    if kind == '+' then '>' else kind
  }

  predicate StartsIn(toks: seq<Tok>, chars: set<char>) {
    toks != [] && toks[0].Sym? && First(toks[0].kind) in chars
  }

  ghost predicate Symbols(chars: set<char>) {
    forall c :: c in chars ==> IsSymbol(c)
  }

  /** peek looks at the next token. */
  lemma {:induction false} PeekToks(line: string, s: nat, chars: set<char>)
    requires IsLine(line) && s <= |line| && Symbols(chars)
    ensures Peek(line, s, chars) <==> StartsIn(Toks(line, s), chars)
  {
    var c := At(line, Skip(line, s));
    assert c == 'a' ==> !IsSymbol(c);
  }

  /** gettoken reads the next token. */
  lemma {:induction false} NextTok(line: string, s: nat)
    requires IsLine(line) && s <= |line|
    ensures var t, toks := GetToken(line, s), Toks(line, s);
            && (t.kind == '\0' <==> toks == [])
            && (toks == [] ==> Toks(line, t.next) == [] && t.next == |line|)
            && (toks != [] ==>
                  && toks[0] == TokOf(line, t) && Toks(line, t.next) == toks[1..] && t.next > s
                  && (t.kind == 'a' <==> toks[0].Wd?) && (toks[0].Sym? ==> t.kind == toks[0].kind)
                  && (t.kind == 'a' ==> IsWord(line, Span(t.q, t.eq)) && line[t.q..t.eq] == toks[0].text))
  {
    var t := GetToken(line, s);
    if t.kind == '\0' {
      SkipTwice(line, s);
    }
  }

  // ------------------------------------------------------------------ lines made of tokens

  ghost predicate Blank(gap: string) {
    forall i :: 0 <= i < |gap| ==> IsSpace(gap[i])
  }

  function Spelling(t: Tok): string {
    match t
    case Sym(kind) => if kind == '+' then ">>" else [kind]
    case Wd(text) => text
  }

  /** Two tokens that would run together without a gap. */
  predicate Touch(a: Tok, b: Tok) {
    (a.Wd? && b.Wd?) || (a == Sym('>') && b.Sym? && First(b.kind) == '>')
  }

  /** A gap before each token and one at the end. */
  ghost predicate Gaps(toks: seq<Tok>, gaps: seq<string>) {
    && |gaps| == |toks| + 1 && (forall k :: 0 <= k < |gaps| ==> Blank(gaps[k]))
    && (forall k :: 0 < k < |toks| && gaps[k] == "" ==> !Touch(toks[k - 1], toks[k]))
  }

  function Spaced(toks: seq<Tok>, gaps: seq<string>): string
    requires |gaps| == |toks| + 1
  {
    if toks == [] then gaps[0] else gaps[0] + Spelling(toks[0]) + Spaced(toks[1..], gaps[1..])
  }

  lemma {:induction false} GapsRest(toks: seq<Tok>, gaps: seq<string>)
    requires Gaps(toks, gaps) && toks != []
    ensures Gaps(toks[1..], gaps[1..]) && Blank(gaps[0])
    ensures |toks| > 1 && gaps[1] == "" ==> !Touch(toks[0], toks[1])
  {
    var q, g := toks[1..], gaps[1..];
    forall k | 0 < k < |q| && g[k] == ""
      ensures !Touch(q[k - 1], q[k])
    {
      assert gaps[k + 1] == "" && q[k - 1] == toks[(k + 1) - 1] && q[k] == toks[k + 1];
    }
  }

  /** The first character of a spaced line. */
  lemma {:induction false} Opening(toks: seq<Tok>, gaps: seq<string>)
    requires Gaps(toks, gaps) && GoodToks(toks)
    ensures var str := Spaced(toks, gaps);
            && (toks == [] ==> str == gaps[0])
            && (gaps[0] != "" ==> |str| > 0 && IsSpace(str[0]))
            && (toks != [] && gaps[0] == "" ==> |str| > 0 && str[0] == Spelling(toks[0])[0])
  {
    assert Blank(gaps[0]);
    if toks != [] {
      assert GoodTok(toks[0]);
    }
  }

  /** White space up to r is skipped. */
  lemma {:induction false} SkipsTo(line: string, s: nat, r: nat)
    requires s <= r <= |line| && (forall i :: s <= i < r ==> IsSpace(line[i])) && (r < |line| ==> !IsSpace(line[r]))
    ensures Skip(line, s) == r
    decreases r - s
  {
    if s < r {
      SkipsTo(line, s + 1, r);
    }
  }

  lemma {:induction false} EndsAt(line: string, s: nat, r: nat)
    requires s <= r <= |line| && (forall i :: s <= i < r ==> IsWordChar(line[i]))
    requires (r < |line| ==> !IsWordChar(line[r]))
    ensures WordEnd(line, s) == r
    decreases r - s
  {
    if s < r {
      EndsAt(line, s + 1, r);
    }
  }

  /** gettoken at a gap and a token that ends where it is spelled to end. */
  lemma {:induction false} TokenAt(line: string, s: nat, q: nat, t: Tok)
    requires IsLine(line) && s <= q <= |line| && GoodTok(t) && (forall i :: s <= i < q ==> IsSpace(line[i]))
    requires var e := q + |Spelling(t)|;
             && e <= |line| && line[q..e] == Spelling(t)
             && (e < |line| && t.Wd? ==> !IsWordChar(line[e])) && (e < |line| && t == Sym('>') ==> line[e] != '>')
    ensures var e, k := q + |Spelling(t)|, GetToken(line, s);
            k.q == q && k.eq == e && k.next == Skip(line, e) && k.kind != '\0' && TokOf(line, k) == t
  {
    var e := q + |Spelling(t)|;
    assert forall i :: q <= i < e ==> line[i] == line[q..e][i - q];
    SkipsTo(line, s, q);
    if t.Wd? {
      EndsAt(line, q, e);
    }
  }

  /** A line of these tokens, however they are spaced, has these tokens. */
  lemma {:induction false} SpacedToks(pre: string, toks: seq<Tok>, gaps: seq<string>)
    requires GoodToks(toks) && Gaps(toks, gaps) && IsLine(pre + Spaced(toks, gaps))
    ensures Toks(pre + Spaced(toks, gaps), |pre|) == toks
    decreases |toks|
  {
    hide GetToken, Toks, Touch, GoodTok;
    var line := pre + Spaced(toks, gaps);
    if toks == [] {
      assert forall i :: |pre| <= i < |line| ==> line[i] == gaps[0][i - |pre|];
      assert Blank(gaps[0]);
      SkipsTo(line, |pre|, |line|);
      NoToks(line, |pre|);
    } else {
      GapsRest(toks, gaps);
      var rest := Spaced(toks[1..], gaps[1..]);
      var q := |pre| + |gaps[0]|;
      var e := q + |Spelling(toks[0])|;
      FirstToken(pre, toks, gaps);
      assert line == line[..e] + rest;
      assert GoodToks(toks[1..]);
      SpacedToks(line[..e], toks[1..], gaps[1..]);
      SkipToks(line, e);
      NextTok(line, |pre|);
    }
  }

  lemma {:induction false} NoToks(line: string, s: nat)
    requires IsLine(line) && s <= |line| && Skip(line, s) == |line|
    ensures Toks(line, s) == []
  {
  }

  lemma {:induction false} FirstPart(pre: string, toks: seq<Tok>, gaps: seq<string>)
    requires toks != [] && |gaps| == |toks| + 1 && Blank(gaps[0])
    ensures var line := pre + Spaced(toks, gaps);
            var q := |pre| + |gaps[0]|;
            var e := q + |Spelling(toks[0])|;
            && e <= |line| && (forall i :: |pre| <= i < q ==> IsSpace(line[i])) && line[q..e] == Spelling(toks[0])
            && line[e..] == Spaced(toks[1..], gaps[1..])
  {
    hide Spelling;
    var line := pre + Spaced(toks, gaps);
    var q := |pre| + |gaps[0]|;
    assert line == pre + gaps[0] + Spelling(toks[0]) + Spaced(toks[1..], gaps[1..]);
    forall i | |pre| <= i < q
      ensures IsSpace(line[i])
    {
      assert line[i] == gaps[0][i - |pre|];
    }
  }

  /** What follows the first token does not run into it. */
  lemma {:induction false} NextApart(toks: seq<Tok>, gaps: seq<string>, rest: string)
    requires toks != [] && GoodToks(toks) && Gaps(toks, gaps) && rest == Spaced(toks[1..], gaps[1..])
    ensures GoodTok(toks[0]) && Blank(gaps[0])
    ensures rest != "" ==> (toks[0].Wd? ==> !IsWordChar(rest[0])) && (toks[0] == Sym('>') ==> rest[0] != '>')
  {
    hide Spaced, Spelling, Touch;
    GapsRest(toks, gaps);
    assert GoodToks(toks[1..]);
    Opening(toks[1..], gaps[1..]);
    if |toks| > 1 && gaps[1] == "" {
      Apart(toks[0], toks[1]);
    }
  }

  lemma {:induction false} Apart(a: Tok, b: Tok)
    requires GoodTok(b) && !Touch(a, b)
    ensures var c := Spelling(b)[0]; (a.Wd? ==> !IsWordChar(c)) && (a == Sym('>') ==> c != '>')
  {
  }

  lemma {:induction false} FirstToken(pre: string, toks: seq<Tok>, gaps: seq<string>)
    requires toks != [] && GoodToks(toks) && Gaps(toks, gaps) && IsLine(pre + Spaced(toks, gaps))
    ensures var line := pre + Spaced(toks, gaps);
            var e, k := |pre| + |gaps[0]| + |Spelling(toks[0])|, GetToken(line, |pre|);
            && e <= |line| && line[e..] == Spaced(toks[1..], gaps[1..])
            && k.eq == e && k.next == Skip(line, e) && k.kind != '\0' && TokOf(line, k) == toks[0]
  {
    hide GetToken, Spaced, GoodToks, Blank, GoodTok, Spelling, Skip, Touch, TokOf, IsWordChar;
    var line := pre + Spaced(toks, gaps);
    var q := |pre| + |gaps[0]|;
    var e := q + |Spelling(toks[0])|;
    NextApart(toks, gaps, Spaced(toks[1..], gaps[1..]));
    FirstPart(pre, toks, gaps);
    assert e < |line| ==> line[e] == line[e..][0];
    TokenAt(line, |pre|, q, toks[0]);
  }

  lemma {:induction false} SkipsBlank(line: string, s: nat)
    requires s <= |line|
    ensures Blank(line[s..Skip(line, s)])
    decreases |line| - s
  {
    if s < |line| && IsSpace(line[s]) {
      SkipsBlank(line, s + 1);
      assert line[s..Skip(line, s)] == [line[s]] + line[s + 1..Skip(line, s)];
    }
  }

  lemma {:induction false} SpelledThere(line: string, s: nat)
    requires IsLine(line) && s <= |line| && GetToken(line, s).kind != '\0'
    ensures var k := GetToken(line, s);
            var a := TokOf(line, k);
            && GoodTok(a) && line[k.q..k.eq] == Spelling(a) && k.q == Skip(line, s)
            && (k.eq < |line| ==> (a.Wd? ==> !IsWordChar(line[k.eq])) && (a == Sym('>') ==> line[k.eq] != '>'))
  {
  }

  /** A token of a line is spelled there, and ends only where it must. */
  lemma {:induction false} TokenIs(line: string, s: nat)
    requires IsLine(line) && s <= |line| && Toks(line, s) != []
    ensures var k, a := GetToken(line, s), Toks(line, s)[0];
            && Toks(line, s) == [a] + Toks(line, k.eq) && k.eq > s
            && GoodTok(a) && Blank(line[s..k.q]) && line[k.q..k.eq] == Spelling(a)
            && (k.eq < |line| ==> (a.Wd? ==> !IsWordChar(line[k.eq])) && (a == Sym('>') ==> line[k.eq] != '>'))
  {
    hide GoodTok, Spelling;
    SkipsBlank(line, s);
    assert GetToken(line, s).next == Skip(line, GetToken(line, s).eq);
    SkipToks(line, GetToken(line, s).eq);
    SpelledThere(line, s);
  }

  lemma {:induction false} GapsCons(toks: seq<Tok>, gaps: seq<string>)
    requires toks != [] && |gaps| == |toks| + 1 && Gaps(toks[1..], gaps[1..]) && Blank(gaps[0])
    requires |toks| > 1 && gaps[1] == "" ==> !Touch(toks[0], toks[1])
    ensures Gaps(toks, gaps)
  {
    var q, g := toks[1..], gaps[1..];
    forall k | 0 < k < |toks| && gaps[k] == ""
      ensures !Touch(toks[k - 1], toks[k])
    {
      assert k > 1 ==> g[k - 1] == "" && !Touch(q[(k - 1) - 1], q[k - 1]);
    }
    assert forall k :: 0 < k < |gaps| ==> gaps[k] == g[k - 1];
  }

  /** Every line is made of its tokens. */
  lemma {:induction false} LineIsSpaced(line: string, s: nat) returns (gaps: seq<string>)
    requires IsLine(line) && s <= |line|
    ensures GoodToks(Toks(line, s)) && Gaps(Toks(line, s), gaps) && line[s..] == Spaced(Toks(line, s), gaps)
    decreases |line| - s
  {
    hide GetToken, Toks, GoodTok;
    NextTok(line, s);
    var toks := Toks(line, s);
    if toks == [] {
      gaps := [line[s..]];
      RestBlank(line, s);
    } else {
      TokenIs(line, s);
      var k := GetToken(line, s);
      var more := LineIsSpaced(line, k.eq);
      gaps := [line[s..k.q]] + more;
      assert toks[1..] == Toks(line, k.eq) && gaps[1..] == more;
      assert line[s..] == line[s..k.q] + line[k.q..k.eq] + line[k.eq..];
      if |toks| > 1 && gaps[1] == "" {
        Opening(toks[1..], more);
        assert GoodTok(toks[1]);
        Untouched(toks[0], toks[1], line[k.eq]);
      }
      GapsCons(toks, gaps);
    }
  }

  lemma {:induction false} Untouched(a: Tok, b: Tok, c: char)
    requires GoodTok(b) && c == Spelling(b)[0] && (a.Wd? ==> !IsWordChar(c)) && (a == Sym('>') ==> c != '>')
    ensures !Touch(a, b)
  {
    if b.Wd? {
      assert IsWordChar(b.text[0]);
    } else if First(b.kind) == '>' {
      assert Spelling(b)[0] == '>';
    }
  }

  lemma {:induction false} RestBlank(line: string, s: nat)
    requires IsLine(line) && s <= |line| && Toks(line, s) == []
    ensures Blank(line[s..])
  {
    SkipsBlank(line, s);
    assert line[s..Skip(line, s)] == line[s..];
  }
}
