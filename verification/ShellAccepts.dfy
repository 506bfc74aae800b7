/** The parser of sh.c accepts exactly the lines of its grammar, and builds the tree that they mean. */
module ShellAccepts {
  import opened Shell
  import opened ShellTokens
  import opened ShellGrammar

  // ------------------------------------------------------------------ every line of the grammar is read

  /** The tokens of f come next, and what follows ends it. */
  ghost predicate Next(line: string, s: nat, f: Form, n: nat, rest: seq<Tok>) {
    IsLine(line) && s <= |line| && Fits(f, n) && Ends(rest, n) && Toks(line, s) == FormToks(f) + rest
  }

  lemma {:induction false} SimpleToks(line: string, s: nat, items: seq<Item>, rest: seq<Tok>)
    requires IsLine(line) && s <= |line| && Ends(rest, 0) && Toks(line, s) == ItemToks(items) + rest
    ensures if |WordsOf(items)| < MAXARGS then Got(line, ParseExec(line, s), rest, Meaning(Simple(items)))
            else ParseExec(line, s) == Panic("too many args")
  {
    hide Toks, Got, ParseArgs, ParseRedirs, Peek;
    PeekToks(line, s, {'('});
    assert items == [] ==> ItemToks(items) + rest == rest;
    ContinueToks(line, s, [], [], items, rest);
    assert Texts(line, []) + WordsOf(items) == WordsOf(items);
  }

  /** One operator token. */
  lemma {:induction false} Symbol(line: string, s: nat, kind: char, rest: seq<Tok>)
    requires IsLine(line) && s <= |line| && IsSymbol(kind) && Toks(line, s) == [Sym(kind)] + rest
    ensures Peek(line, s, {kind}) && Toks(line, GetToken(line, s).next) == rest && GetToken(line, s).next > s
  {
    hide GetToken, Toks, Peek;
    PeekToks(line, s, {kind});
    NextTok(line, s);
  }

  /** Some other token, or none. */
  lemma {:induction false} Other(line: string, s: nat, kind: char, n: nat)
    requires IsLine(line) && s <= |line| && IsSymbol(kind) && kind !in Stops(n) && Ends(Toks(line, s), n)
    ensures !Peek(line, s, {kind}) && Toks(line, Skip(line, s)) == Toks(line, s)
  {
    hide GetToken, Toks, Peek, Skip;
    PeekToks(line, s, {kind});
    SkipToks(line, s);
  }

  lemma {:induction false} GroupToks(line: string, s: nat, t: Tree, files: seq<Item>, rest: seq<Tok>)
    requires IsLine(line) && s <= |line| && Peek(line, s, {'('}) && OnlyFiles(files) && Ends(rest, 0)
    requires Got(line, ParseLine(line, GetToken(line, s).next), [Sym(')')] + (ItemToks(files) + rest), t)
    ensures Got(line, ParseExec(line, s), rest, Redirected(t, files))
  {
    hide ParseLine, ParseRedirs, Peek, Toks, GetToken, Wrap, Inside, Redirected, ItemToks, Ends;
    var inner := ParseLine(line, GetToken(line, s).next);
    Symbol(line, inner.pos, ')', ItemToks(files) + rest);
    var e := GetToken(line, inner.pos).next;
    NoRedirect(rest);
    RedirToks(line, e, files, rest, [], t);
    ReadWrap(line, inner.cmd, ParseRedirs(line, [], e).rs);
    InsideNone(line, t);
  }

  lemma {:induction false} InsideNone(line: string, t: Tree)
    ensures Inside(line, t, []) == t
  {
  }

  lemma {:induction false} NoRedirect(rest: seq<Tok>)
    requires Ends(rest, 0)
    ensures !StartsIn(rest, {'<', '>'})
  {
  }

  lemma {:induction false} ExecToks(line: string, s: nat, f: Form, rest: seq<Tok>)
    requires Next(line, s, f, 0, rest)
    ensures Got(line, ParseExec(line, s), rest, Meaning(f))
    decreases f, 0
  {
    hide ParseLine, ParseExec, Peek, Toks, GetToken, Got, ItemToks, WordsOf;
    if f.Simple? {
      SimpleToks(line, s, f.items, rest);
    } else {
      var more := [Sym(')')] + (ItemToks(f.files) + rest);
      assert FormToks(f) + rest == [Sym('(')] + (FormToks(f.inner) + more);
      Symbol(line, s, '(', FormToks(f.inner) + more);
      LineToks(line, GetToken(line, s).next, f.inner, more);
      GroupToks(line, s, Meaning(f.inner), f.files, rest);
    }
  }

  lemma {:induction false} PipeToks(line: string, s: nat, f: Form, rest: seq<Tok>)
    requires Next(line, s, f, 1, rest)
    ensures Got(line, ParsePipe(line, s), rest, Meaning(f))
    decreases f, 1
  {
    hide ParseExec, Peek, Toks, GetToken, FormToks, Skip;
    if f.Pipeline? {
      var more := [Sym('|')] + (FormToks(f.right) + rest);
      PipelineToks(f, rest);
      ExecToks(line, s, f.left, more);
      var left := ParseExec(line, s);
      Symbol(line, left.pos, '|', FormToks(f.right) + rest);
      PipeToks(line, GetToken(line, left.pos).next, f.right, rest);
    } else {
      ExecToks(line, s, f, rest);
      Other(line, ParseExec(line, s).pos, '|', 1);
    }
  }

  lemma {:induction false} PipelineToks(f: Form, rest: seq<Tok>)
    ensures f.Pipeline? ==> FormToks(f) + rest == FormToks(f.left) + ([Sym('|')] + (FormToks(f.right) + rest))
    ensures f.Semi? ==> FormToks(f) + rest == FormToks(f.left) + ([Sym(';')] + (FormToks(f.right) + rest))
    ensures f.Amp? ==> FormToks(f) + rest == FormToks(f.form) + ([Sym('&')] + rest)
  {
  }

  // ------------------------------------------------------------------ ampersands

  function Amps(k: nat): seq<Tok> {
    if k == 0 then [] else [Sym('&')] + Amps(k - 1)
  }

  function Behinds(t: Tree, k: nat): Tree
    decreases k
  {
    if k == 0 then t else Behinds(Behind(t), k - 1)
  }

  /** The loop of parseline takes every ampersand. */
  lemma {:induction false} AmpToks(line: string, c: Cmd, s: nat, k: nat, rest: seq<Tok>)
    requires IsLine(line) && s <= |line| && AllWords(line, c) && Ends(rest, 2) && Toks(line, s) == Amps(k) + rest
    ensures Got(line, ParseBacks(line, c, s), rest, Behinds(Read(line, c), k))
    decreases k
  {
    hide Peek, Toks, GetToken, Skip;
    if k == 0 {
      assert Toks(line, s) == rest;
      assert Stops(2) == {')', ';'};
      Other(line, s, '&', 2);
    } else {
      assert Amps(k) + rest == [Sym('&')] + (Amps(k - 1) + rest);
      Symbol(line, s, '&', Amps(k - 1) + rest);
      AmpToks(line, Back(c), GetToken(line, s).next, k - 1, rest);
    }
  }

  /** A pipeline and the ampersands behind it. */
  ghost function Backed(line: string, s: nat): (r: Result)
    requires IsLine(line) && s <= |line|
    ensures r.Ok? ==> s <= r.pos <= |line| && AllWords(line, r.cmd)
  {
    var first := ParsePipe(line, s);
    if first.Panic? then first else ParseBacks(line, first.cmd, first.pos)
  }

  lemma {:induction false} BackToks(line: string, s: nat, f: Form, k: nat, rest: seq<Tok>)
    requires IsLine(line) && s <= |line| && Fits(f, 2) && Ends(rest, 2)
    requires Toks(line, s) == FormToks(f) + (Amps(k) + rest)
    ensures Got(line, Backed(line, s), rest, Behinds(Meaning(f), k))
    decreases f, 2
  {
    hide ParsePipe, ParseBacks, Toks, FormToks;
    if f.Amp? {
      PipelineToks(f, Amps(k) + rest);
      assert Amps(k + 1) + rest == [Sym('&')] + (Amps(k) + rest);
      BackToks(line, s, f.form, k + 1, rest);
    } else {
      assert k == 0 ==> Amps(k) + rest == rest;
      PipeToks(line, s, f, Amps(k) + rest);
      var first := ParsePipe(line, s);
      AmpToks(line, first.cmd, first.pos, k, rest);
    }
  }

  lemma {:induction false} LineToks(line: string, s: nat, f: Form, rest: seq<Tok>)
    requires Next(line, s, f, 3, rest)
    ensures Got(line, ParseLine(line, s), rest, Meaning(f))
    decreases f, 3
  {
    hide ParsePipe, Peek, Toks, GetToken, FormToks, Skip, ParseBacks;
    if f.Semi? {
      var more := [Sym(';')] + (FormToks(f.right) + rest);
      PipelineToks(f, rest);
      assert Amps(0) + more == more;
      BackToks(line, s, f.left, 0, more);
      var left := Backed(line, s);
      Symbol(line, left.pos, ';', FormToks(f.right) + rest);
      LineToks(line, GetToken(line, left.pos).next, f.right, rest);
    } else {
      assert Amps(0) + rest == rest;
      BackToks(line, s, f, 0, rest);
      Other(line, Backed(line, s).pos, ';', 3);
    }
  }

  // ------------------------------------------------------------------ and nothing else

  /** What has been read is f of the grammar. */
  ghost predicate From(line: string, s: nat, f: Form, n: nat, r: Result) {
    && IsLine(line) && s <= |line| && r.Ok? && r.pos <= |line| && AllWords(line, r.cmd) && Fits(f, n)
    && Toks(line, s) == FormToks(f) + Toks(line, r.pos) && Read(line, r.cmd) == Meaning(f)
  }

  /** What more redirections do to any tree. */
  ghost predicate Adds(line: string, rs: seq<Redirection>, items: seq<Item>, more: seq<Redirection>) {
    && AllFiles(line, rs) && AllFiles(line, more)
    && forall t :: Inside(line, t, more) == Redirected(Inside(line, t, rs), items)
  }

  /** A sign and a file name. */
  lemma {:induction false} FileItem(line: string, s: nat) returns (i: Item)
    requires IsLine(line) && s <= |line| && Peek(line, s, {'<', '>'})
    requires GetToken(line, GetToken(line, s).next).kind == 'a'
    ensures var w, e := NextFile(line, s), BehindFile(line, s);
            && !i.Word? && s < e <= |line| && IsWord(line, w.file)
            && Text(line, w.file) == i.text && w.out == i.Out()
            && Toks(line, s) == [Sym(SignKind(i)), Wd(i.text)] + Toks(line, e)
  {
    hide GetToken, Toks, IsWord, Peek;
    PeekToks(line, s, {'<', '>'});
    NextTok(line, s);
    var tok := GetToken(line, s);
    NextTok(line, tok.next);
    var text := Toks(line, tok.next)[0].text;
    i := if tok.kind == '<' then Input(text) else if tok.kind == '+' then Append(text) else Output(text);
  }

  lemma {:induction false} RedirForm(line: string, rs: seq<Redirection>, s: nat) returns (items: seq<Item>)
    requires IsLine(line) && s <= |line| && AllFiles(line, rs) && ParseRedirs(line, rs, s).Files?
    ensures var r := ParseRedirs(line, rs, s);
            OnlyFiles(items) && Toks(line, s) == ItemToks(items) + Toks(line, r.pos) && Adds(line, rs, items, r.rs)
    decreases |line| - s
  {
    hide GetToken, Toks, IsWord, Peek, SignKind, Skip, Inside, AllFiles;
    if Peek(line, s, {'<', '>'}) {
      var i := FileItem(line, s);
      var w, e := NextFile(line, s), BehindFile(line, s);
      InsideSnoc(line, Words([]), rs, w);
      forall t
        ensures Inside(line, t, rs + [w]) == File(Inside(line, t, rs), i.text, i.Out())
      {
        InsideSnoc(line, t, rs, w);
      }
      var rest := RedirForm(line, rs + [w], e);
      items := [i] + rest;
      assert items[1..] == rest;
    } else {
      items := [];
      SkipToks(line, s);
      assert ItemToks([]) + Toks(line, s) == Toks(line, s);
    }
  }

  lemma {:induction false} ArgsForm(line: string, args: seq<Span>, rs: seq<Redirection>, s: nat)
    returns (items: seq<Item>)
    requires IsLine(line) && s <= |line| && |args| < MAXARGS && AreWords(line, args) && AllFiles(line, rs)
    requires ParseArgs(line, args, rs, s).Ok?
    ensures var r := ParseArgs(line, args, rs, s);
            && |args| + |WordsOf(items)| < MAXARGS && AllWords(line, r.cmd)
            && Toks(line, s) == ItemToks(items) + Toks(line, r.pos) && Read(line, r.cmd) == Whole(line, args, rs, items)
    decreases |line| - s
  {
    hide GetToken, Toks, IsWord, Peek, Skip, Inside, AllFiles, AreWords, ParseRedirs, Texts, ItemToks, WordsOf, Whole,
         Adds, Read, Text, ParseArgs;
    var tok := GetToken(line, s);
    if Peek(line, s, {'|', ')', '&', ';'}) || tok.kind == '\0' {
      items := [];
      ArgsStop(line, args, rs, s);
    } else {
      ArgsGo(line, args, rs, s);
      var w := Span(tok.q, tok.eq);
      var a := RedirForm(line, rs, tok.next);
      var more := ParseRedirs(line, rs, tok.next);
      AddsFiles(line, rs, a, more.rs);
      var b := ArgsForm(line, args + [w], more.rs, more.pos);
      items := [Word(Text(line, w))] + (a + b);
      ArgsCons(line, args, rs, w, a, more.rs, b);
      var rest := Toks(line, ParseArgs(line, args, rs, s).pos);
      ItemToksApp(a, b);
      WordFirst(items, rest);
      assert items[1..] == a + b;
      assert ItemToks(a) + ItemToks(b) + rest == ItemToks(a) + (ItemToks(b) + rest);
    }
  }

  lemma {:induction false} AddsFiles(line: string, rs: seq<Redirection>, items: seq<Item>, more: seq<Redirection>)
    requires Adds(line, rs, items, more)
    ensures AllFiles(line, more)
  {
  }

  /** The loop of parseexec ends here. */
  lemma {:induction false} ArgsStop(line: string, args: seq<Span>, rs: seq<Redirection>, s: nat)
    requires IsLine(line) && s <= |line| && |args| < MAXARGS && AreWords(line, args) && AllFiles(line, rs)
    requires Peek(line, s, {'|', ')', '&', ';'}) || GetToken(line, s).kind == '\0'
    ensures var r := ParseArgs(line, args, rs, s);
            && r.Ok? && WordsOf([]) == [] && AllWords(line, r.cmd)
            && Toks(line, s) == ItemToks([]) + Toks(line, r.pos) && Read(line, r.cmd) == Whole(line, args, rs, [])
  {
    hide GetToken, Toks, IsWord, Peek, Skip, Inside, Texts, Wrap;
    NextTok(line, s);
    SkipToks(line, s);
    NoItems(line, args, rs, s);
  }

  /** It goes on with a word. */
  lemma {:induction false} ArgsGo(line: string, args: seq<Span>, rs: seq<Redirection>, s: nat)
    requires IsLine(line) && s <= |line| && |args| < MAXARGS && AreWords(line, args)
    requires !Peek(line, s, {'|', ')', '&', ';'}) && GetToken(line, s).kind != '\0' && ParseArgs(line, args, rs, s).Ok?
    ensures var tok := GetToken(line, s);
            var w := Span(tok.q, tok.eq);
            var more := ParseRedirs(line, rs, tok.next);
            && tok.next > s && |args| + 1 < MAXARGS && IsWord(line, w) && AreWords(line, args + [w])
            && Toks(line, s) == [Wd(Text(line, w))] + Toks(line, tok.next)
            && more.Files? && ParseArgs(line, args, rs, s) == ParseArgs(line, args + [w], more.rs, more.pos)
  {
    hide GetToken, Toks, IsWord, Peek, Skip, Wrap, ParseRedirs, Texts;
    NextTok(line, s);
    var tok := GetToken(line, s);
    TextsSnoc(line, args, Span(tok.q, tok.eq));
  }

  lemma {:induction false} NoItems(line: string, args: seq<Span>, rs: seq<Redirection>, s: nat)
    requires IsLine(line) && s <= |line| && |args| < MAXARGS && AreWords(line, args) && AllFiles(line, rs)
    ensures WordsOf([]) == [] && AllWords(line, Wrap(Exec(args), rs))
    ensures ItemToks([]) + Toks(line, s) == Toks(line, s)
    ensures Read(line, Wrap(Exec(args), rs)) == Whole(line, args, rs, [])
  {
    hide IsWord, Wrap, Inside, Toks;
    ReadWrap(line, Exec(args), rs);
    assert Texts(line, args) + [] == Texts(line, args);
  }

  /** A word, the redirections behind it and the rest of the command. */
  lemma {:induction false} ArgsCons(line: string, args: seq<Span>, rs: seq<Redirection>, w: Span, a: seq<Item>,
                                    more: seq<Redirection>, b: seq<Item>)
    requires AreWords(line, args) && IsWord(line, w) && AreWords(line, args + [w]) && OnlyFiles(a)
    requires Adds(line, rs, a, more)
    ensures var items := [Word(Text(line, w))] + (a + b);
            && |WordsOf(items)| == 1 + |WordsOf(b)|
            && Whole(line, args, rs, items) == Whole(line, args + [w], more, b)
  {
    hide Inside, Text, Texts, AreWords, AllFiles, WordsOf, Redirected;
    var items := [Word(Text(line, w))] + (a + b);
    assert items[1..] == a + b;
    WordFirst(items, []);
    WordsOfApp(a, b);
    NoWords(a);
    assert [] + WordsOf(b) == WordsOf(b);
    WholeWord(line, args, rs, items, w);
    var t := Words(Texts(line, args + [w]) + WordsOf(b));
    RedirectedApp(Inside(line, t, rs), a, b);
  }

  lemma {:induction false} ExecForm(line: string, s: nat) returns (f: Form)
    requires IsLine(line) && s <= |line| && ParseExec(line, s).Ok?
    ensures From(line, s, f, 0, ParseExec(line, s))
    decreases |line| - s, 1
  {
    if Peek(line, s, {'('}) {
      f := BlockForm(line, s);
    } else {
      f := CommandForm(line, s);
    }
  }

  lemma {:induction false} CommandForm(line: string, s: nat) returns (f: Form)
    requires IsLine(line) && s <= |line| && ParseExec(line, s).Ok? && !Peek(line, s, {'('})
    ensures From(line, s, f, 0, ParseExec(line, s))
  {
    hide GetToken, Toks, Peek, Redirected, ParseRedirs, ParseArgs, WordsOf, ItemToks;
    var a := RedirForm(line, [], s);
    var more := ParseRedirs(line, [], s);
    var b := ArgsForm(line, [], more.rs, more.pos);
    f := Simple(a + b);
    ItemToksApp(a, b);
    WordsOfApp(a, b);
    NoWords(a);
    assert [] + WordsOf(b) == WordsOf(b);
    var t := Words(WordsOf(b));
    assert Texts(line, []) + WordsOf(b) == WordsOf(b);
    RedirectedApp(t, a, b);
    InsideNone(line, t);
  }

  lemma {:induction false} BlockForm(line: string, s: nat) returns (f: Form)
    requires IsLine(line) && s <= |line| && ParseExec(line, s).Ok? && Peek(line, s, {'('})
    ensures From(line, s, f, 0, ParseExec(line, s))
    decreases |line| - s, 0
  {
    hide GetToken, Toks, Peek, Redirected, ParseRedirs, ItemToks, ParseLine, Wrap, Inside, Skip;
    AtSymbol(line, s, '(');
    var e := GetToken(line, s).next;
    var g := LineForm(line, e);
    var inner := ParseLine(line, e);
    AtSymbol(line, inner.pos, ')');
    var e2 := GetToken(line, inner.pos).next;
    var files := RedirForm(line, [], e2);
    f := Group(g, files);
    var more := ParseRedirs(line, [], e2);
    ReadWrap(line, inner.cmd, more.rs);
    InsideNone(line, Meaning(g));
    var last := ItemToks(files) + Toks(line, more.pos);
    assert FormToks(f) + Toks(line, more.pos) == [Sym('(')] + (FormToks(g) + ([Sym(')')] + last));
  }

  lemma {:induction false} AtSymbol(line: string, s: nat, kind: char)
    requires IsLine(line) && s <= |line| && IsSymbol(kind) && kind != '>' && Peek(line, s, {kind})
    ensures s < GetToken(line, s).next && Toks(line, s) == [Sym(kind)] + Toks(line, GetToken(line, s).next)
  {
    hide GetToken, Toks, Peek;
    PeekToks(line, s, {kind});
    NextTok(line, s);
  }

  lemma {:induction false} PipeForm(line: string, s: nat) returns (f: Form)
    requires IsLine(line) && s <= |line| && ParsePipe(line, s).Ok?
    ensures From(line, s, f, 1, ParsePipe(line, s))
    decreases |line| - s, 2
  {
    hide GetToken, Toks, Peek, Skip, ParseExec, FormToks;
    var g := ExecForm(line, s);
    var left := ParseExec(line, s);
    if Peek(line, left.pos, {'|'}) {
      AtSymbol(line, left.pos, '|');
      var h := PipeForm(line, GetToken(line, left.pos).next);
      f := Pipeline(g, h);
      PipelineToks(f, Toks(line, ParsePipe(line, s).pos));
    } else {
      f := g;
      SkipToks(line, left.pos);
    }
  }

  lemma {:induction false} FitsMore(f: Form, n: nat, m: nat)
    requires Fits(f, n) && n <= m
    ensures Fits(f, m)
  {
  }

  lemma {:induction false} BacksForm(line: string, c: Cmd, s: nat, g: Form) returns (f: Form)
    requires IsLine(line) && s <= |line| && AllWords(line, c) && Fits(g, 2) && Meaning(g) == Read(line, c)
    ensures var r := ParseBacks(line, c, s);
            && Fits(f, 2) && FormToks(f) + Toks(line, r.pos) == FormToks(g) + Toks(line, s)
            && Meaning(f) == Read(line, r.cmd)
    decreases |line| - s
  {
    hide GetToken, Toks, Peek, Skip, FormToks;
    if Peek(line, s, {'&'}) {
      AtSymbol(line, s, '&');
      f := BacksForm(line, Back(c), GetToken(line, s).next, Amp(g));
      PipelineToks(Amp(g), Toks(line, GetToken(line, s).next));
    } else {
      f := g;
      SkipToks(line, s);
    }
  }

  lemma {:induction false} LineForm(line: string, s: nat) returns (f: Form)
    requires IsLine(line) && s <= |line| && ParseLine(line, s).Ok?
    ensures From(line, s, f, 3, ParseLine(line, s))
    decreases |line| - s, 3
  {
    hide GetToken, Toks, Peek, Skip, ParsePipe, ParseBacks, FormToks;
    var first := ParsePipe(line, s);
    var p := PipeForm(line, s);
    FitsMore(p, 1, 2);
    var g := BacksForm(line, first.cmd, first.pos, p);
    var left := ParseBacks(line, first.cmd, first.pos);
    if Peek(line, left.pos, {';'}) {
      AtSymbol(line, left.pos, ';');
      var h := LineForm(line, GetToken(line, left.pos).next);
      f := Semi(g, h);
      PipelineToks(f, Toks(line, ParseLine(line, s).pos));
    } else {
      f := g;
      FitsMore(g, 2, 3);
      SkipToks(line, left.pos);
    }
  }

  // ------------------------------------------------------------------ whole lines

  lemma {:induction false} AllRead(line: string, s: nat)
    requires IsLine(line) && s <= |line|
    ensures Skip(line, s) == |line| <==> Toks(line, s) == []
  {
  }

  /** A line of the grammar is parsed to what it means. */
  lemma {:induction false} Accepted(line: string, f: Form)
    requires IsLine(line) && Fits(f, 3) && Toks(line, 0) == FormToks(f)
    ensures ParseCmd(line).Ok? && Read(line, ParseCmd(line).cmd) == Meaning(f)
  {
    hide Toks, ParseLine, FormToks;
    assert FormToks(f) + [] == FormToks(f);
    LineToks(line, 0, f, []);
    AllRead(line, ParseLine(line, 0).pos);
  }

  /** A simple command, with its words and redirections in any order, is read exactly if it has fewer than
      MAXARGS words. */
  lemma {:induction false} SimpleCommand(line: string, items: seq<Item>)
    requires IsLine(line) && Toks(line, 0) == ItemToks(items)
    ensures if |WordsOf(items)| < MAXARGS
            then ParseCmd(line).Ok? && Read(line, ParseCmd(line).cmd) == Redirected(Words(WordsOf(items)), items)
            else ParseCmd(line) == Panic("too many args")
  {
    hide Toks, ParseExec, ItemToks, WordsOf, Redirected;
    if |WordsOf(items)| < MAXARGS {
      Accepted(line, Simple(items));
    } else {
      assert ItemToks(items) + [] == ItemToks(items);
      SimpleToks(line, 0, items, []);
      assert ParsePipe(line, 0) == Panic("too many args");
      assert ParseLine(line, 0) == Panic("too many args");
    }
  }

  /** parsecmd accepts exactly the lines of the grammar, and builds what they mean. */
  lemma {:induction false} Grammar(line: string)
    requires IsLine(line)
    ensures ParseCmd(line).Ok? <==> exists f :: Fits(f, 3) && Toks(line, 0) == FormToks(f)
    ensures forall f :: Fits(f, 3) && Toks(line, 0) == FormToks(f) ==>
                          ParseCmd(line).Ok? && Read(line, ParseCmd(line).cmd) == Meaning(f)
  {
    hide Toks, ParseLine, FormToks;
    forall f | Fits(f, 3) && Toks(line, 0) == FormToks(f)
      ensures ParseCmd(line).Ok? && Read(line, ParseCmd(line).cmd) == Meaning(f)
    {
      Accepted(line, f);
    }
    if ParseCmd(line).Ok? {
      var f := LineForm(line, 0);
      AllRead(line, ParseLine(line, 0).pos);
      assert FormToks(f) + [] == FormToks(f);
    }
  }
}
