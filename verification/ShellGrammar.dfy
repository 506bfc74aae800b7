/** The grammar of sh.c: lists of backgrounded pipelines of simple commands and blocks. */
module ShellGrammar {
  import opened Shell
  import opened ShellTokens

  /** A command tree with its words as strings. */
  datatype Tree =
    | Words(words: seq<string>)
    | File(tree: Tree, file: string, out: bool)
    | Piped(left: Tree, right: Tree)
    | Then(left: Tree, right: Tree)
    | Behind(tree: Tree)

  function Text(line: string, w: Span): string
    requires w.q <= w.eq <= |line|
  {
    line[w.q..w.eq]
  }

  ghost predicate AreWords(line: string, ws: seq<Span>) {
    forall k :: 0 <= k < |ws| ==> IsWord(line, ws[k])
  }

  ghost function Texts(line: string, ws: seq<Span>): (r: seq<string>)
    requires AreWords(line, ws)
    ensures |r| == |ws|
  {
    if ws == [] then []
    else
      assert IsWord(line, ws[0]);
      [Text(line, ws[0])] + Texts(line, ws[1..])
  }

  /** The tree that a parsed command denotes. */
  ghost function Read(line: string, c: Cmd): Tree
    requires AllWords(line, c)
  {
    match c
    case Exec(args) => Words(Texts(line, args))
    case Redir(d, file, out) => File(Read(line, d), Text(line, file), out)
    case Pipe(l, r) => Piped(Read(line, l), Read(line, r))
    case List(l, r) => Then(Read(line, l), Read(line, r))
    case Back(d) => Behind(Read(line, d))
  }

  // ------------------------------------------------------------------ the grammar

  /** The parts of a simple command, in the order they are written. */
  datatype Item = Word(text: string) | Input(text: string) | Output(text: string) | Append(text: string) {
    /** A redirection of the output: `>` or `>>`. */
    predicate Out() {
      Output? || Append?
    }
  }

  /** What a line says, parenthesis by parenthesis. */
  datatype Form =
    | Simple(items: seq<Item>)
    | Group(inner: Form, files: seq<Item>)
    | Pipeline(left: Form, right: Form)
    | Amp(form: Form)
    | Semi(left: Form, right: Form)

  function WordOf(i: Item): seq<string> {
    if i.Word? then [i.text] else []
  }

  function WordsOf(items: seq<Item>): seq<string> {
    if items == [] then [] else WordOf(items[0]) + WordsOf(items[1..])
  }

  ghost predicate OnlyFiles(items: seq<Item>) {
    forall k :: 0 <= k < |items| ==> !items[k].Word?
  }

  /** Where the grammar wants a command (0), a pipeline (1), a background command (2) or a line (3). A simple
      command has fewer than MAXARGS words. */
  ghost predicate Fits(f: Form, n: nat) {
    match f
    case Simple(items) => |WordsOf(items)| < MAXARGS
    case Group(inner, files) => Fits(inner, 3) && OnlyFiles(files)
    case Pipeline(l, r) => n >= 1 && Fits(l, 0) && Fits(r, 1)
    case Amp(u) => n >= 2 && Fits(u, 2)
    case Semi(l, r) => n >= 3 && Fits(l, 2) && Fits(r, 3)
  }

  function SignKind(i: Item): char {
    if i.Input? then '<' else if i.Append? then '+' else '>'
  }

  function ItemTok(i: Item): seq<Tok> {
    if i.Word? then [Wd(i.text)] else [Sym(SignKind(i)), Wd(i.text)]
  }

  function ItemToks(items: seq<Item>): seq<Tok> {
    if items == [] then [] else ItemTok(items[0]) + ItemToks(items[1..])
  }

  function FormToks(f: Form): seq<Tok> {
    match f
    case Simple(items) => ItemToks(items)
    case Group(inner, files) => [Sym('(')] + FormToks(inner) + [Sym(')')] + ItemToks(files)
    case Pipeline(l, r) => FormToks(l) + [Sym('|')] + FormToks(r)
    case Amp(u) => FormToks(u) + [Sym('&')]
    case Semi(l, r) => FormToks(l) + [Sym(';')] + FormToks(r)
  }

  /** t with the redirections of the items around it, the first one innermost. */
  function Redirected(t: Tree, items: seq<Item>): Tree
    decreases |items|
  {
    if items == [] then t
    else Redirected(if items[0].Word? then t else File(t, items[0].text, items[0].Out()), items[1..])
  }

  /** A simple command: all its words, inside all its redirections. */
  function Meaning(f: Form): Tree {
    match f
    case Simple(items) => Redirected(Words(WordsOf(items)), items)
    case Group(inner, files) => Redirected(Meaning(inner), files)
    case Pipeline(l, r) => Piped(Meaning(l), Meaning(r))
    case Amp(u) => Behind(Meaning(u))
    case Semi(l, r) => Then(Meaning(l), Meaning(r))
  }

  lemma {:induction false} ItemToksApp(a: seq<Item>, b: seq<Item>)
    ensures ItemToks(a + b) == ItemToks(a) + ItemToks(b)
  {
    hide ItemTok;
    if a == [] {
      assert a + b == b;
    } else {
      ItemToksApp(a[1..], b);
      assert (a + b)[1..] == a[1..] + b;
      var h, x, y := ItemTok(a[0]), ItemToks(a[1..]), ItemToks(b);
      assert h + (x + y) == h + x + y;
    }
  }

  lemma {:induction false} WordsOfApp(a: seq<Item>, b: seq<Item>)
    ensures WordsOf(a + b) == WordsOf(a) + WordsOf(b)
  {
    hide WordOf;
    if a == [] {
      assert a + b == b;
    } else {
      WordsOfApp(a[1..], b);
      assert (a + b)[1..] == a[1..] + b;
      var h, x, y := WordOf(a[0]), WordsOf(a[1..]), WordsOf(b);
      assert h + (x + y) == h + x + y;
    }
  }

  lemma {:induction false} RedirectedApp(t: Tree, a: seq<Item>, b: seq<Item>)
    ensures Redirected(t, a + b) == Redirected(Redirected(t, a), b)
    decreases |a|
  {
    if a == [] {
      assert a + b == b;
    } else {
      RedirectedApp(if a[0].Word? then t else File(t, a[0].text, a[0].Out()), a[1..], b);
      assert (a + b)[1..] == a[1..] + b;
    }
  }

  lemma {:induction false} NoWords(items: seq<Item>)
    requires OnlyFiles(items)
    ensures WordsOf(items) == []
  {
    if items != [] {
      assert forall k :: 0 <= k < |items[1..]| ==> items[1..][k] == items[k + 1];
      NoWords(items[1..]);
    }
  }

  // ------------------------------------------------------------------ what is left behind

  /** The operators that may follow what the grammar calls n. */
  function Stops(n: nat): set<char> {
    if n == 0 then {')', '|', '&', ';'} else if n == 1 then {')', '&', ';'} else if n == 2 then {')', ';'} else {')'}
  }

  predicate Ends(rest: seq<Tok>, n: nat) {
    rest == [] || StartsIn(rest, Stops(n))
  }

  /** The parser has read t, and these tokens are left. */
  ghost predicate Got(line: string, r: Result, rest: seq<Tok>, t: Tree)
    requires IsLine(line)
  {
    r.Ok? && r.pos <= |line| && AllWords(line, r.cmd) && Read(line, r.cmd) == t && Toks(line, r.pos) == rest
  }

  // ------------------------------------------------------------------ redirections

  /** t inside redirections of the line. */
  ghost function Inside(line: string, t: Tree, rs: seq<Redirection>): Tree
    requires AllFiles(line, rs)
  {
    if rs == [] then t
    else
      var n := |rs| - 1;
      assert IsWord(line, rs[n].file);
      File(Inside(line, t, rs[..n]), Text(line, rs[n].file), rs[n].out)
  }

  lemma {:induction false} InsideSnoc(line: string, t: Tree, rs: seq<Redirection>, r: Redirection)
    requires AllFiles(line, rs) && IsWord(line, r.file)
    ensures AllFiles(line, rs + [r])
    ensures Inside(line, t, rs + [r]) == File(Inside(line, t, rs), Text(line, r.file), r.out)
  {
    assert (rs + [r])[..|rs|] == rs;
  }

  lemma {:induction false} ReadWrap(line: string, c: Cmd, rs: seq<Redirection>)
    requires AllWords(line, c) && AllFiles(line, rs)
    ensures AllWords(line, Wrap(c, rs)) && Read(line, Wrap(c, rs)) == Inside(line, Read(line, c), rs)
  {
    hide IsWord;
    if rs != [] {
      ReadWrap(line, c, rs[..|rs| - 1]);
    }
  }

  /** The redirection that parseredirs reads next. */
  ghost function NextFile(line: string, s: nat): Redirection
    requires s <= |line|
  {
    var tok := GetToken(line, s);
    var file := GetToken(line, tok.next);
    Redirection(Span(file.q, file.eq), tok.kind != '<')
  }

  ghost function BehindFile(line: string, s: nat): nat
    requires s <= |line|
  {
    GetToken(line, GetToken(line, s).next).next
  }

  /** One turn of parseredirs. */
  lemma {:induction false} OneRedir(line: string, s: nat, items: seq<Item>, rest: seq<Tok>, rs: seq<Redirection>)
    requires IsLine(line) && s <= |line| && items != [] && !items[0].Word?
    requires Toks(line, s) == ItemToks(items) + rest
    ensures var w, e := NextFile(line, s), BehindFile(line, s);
            && e <= |line| && IsWord(line, w.file) && Text(line, w.file) == items[0].text && w.out == items[0].Out()
            && Toks(line, e) == ItemToks(items[1..]) + rest
            && ParseRedirs(line, rs, s) == ParseRedirs(line, rs + [w], e)
  {
    hide GetToken, Peek, Skip, IsWord, Toks, ItemToks;
    FileFirst(items, rest);
    NextTok(line, s);
    NextTok(line, GetToken(line, s).next);
    PeekToks(line, s, {'<', '>'});
  }

  lemma {:induction false} FileFirst(items: seq<Item>, rest: seq<Tok>)
    requires items != [] && !items[0].Word?
    ensures ItemToks(items) + rest ==
            [Sym(SignKind(items[0]))] + ([Wd(items[0].text)] + (ItemToks(items[1..]) + rest))
  {
  }

  /** parseredirs reads the redirections that come next. */
  lemma {:induction false} RedirToks(line: string, s: nat, items: seq<Item>, rest: seq<Tok>, rs: seq<Redirection>,
                                     t: Tree)
    requires IsLine(line) && s <= |line| && OnlyFiles(items) && !StartsIn(rest, {'<', '>'}) && AllFiles(line, rs)
    requires Toks(line, s) == ItemToks(items) + rest
    ensures var r := ParseRedirs(line, rs, s);
            && r.Files? && r.pos <= |line| && Toks(line, r.pos) == rest && AllFiles(line, r.rs)
            && Inside(line, t, r.rs) == Redirected(Inside(line, t, rs), items)
    decreases |items|
  {
    hide GetToken, Peek, Skip, Inside, IsWord, Toks, SignKind, NextFile, BehindFile;
    if items == [] {
      PeekToks(line, s, {'<', '>'});
      assert Toks(line, s) == rest;
      SkipToks(line, s);
    } else {
      OneRedir(line, s, items, rest, rs);
      var w := NextFile(line, s);
      InsideSnoc(line, t, rs, w);
      assert forall k :: 0 <= k < |items[1..]| ==> items[1..][k] == items[k + 1];
      RedirToks(line, BehindFile(line, s), items[1..], rest, rs + [w], t);
    }
  }

  // ------------------------------------------------------------------ simple commands

  /** The rest of a simple command: redirections, then words with redirections behind each. */
  function Continue(line: string, args: seq<Span>, rs: seq<Redirection>, s: nat): Result
    requires IsLine(line) && s <= |line| && |args| < MAXARGS
  {
    var more := ParseRedirs(line, rs, s);
    if more.NoFile? then Panic("missing file for redirection") else ParseArgs(line, args, more.rs, more.pos)
  }

  lemma {:induction false} TextsSnoc(line: string, ws: seq<Span>, w: Span)
    requires AreWords(line, ws) && IsWord(line, w)
    ensures AreWords(line, ws + [w]) && Texts(line, ws + [w]) == Texts(line, ws) + [Text(line, w)]
  {
    hide IsWord, Text;
    if ws == [] {
      assert [w][1..] == [];
    } else {
      TextsSnoc(line, ws[1..], w);
      assert (ws + [w])[1..] == ws[1..] + [w];
    }
  }

  /** How many redirections come before the next word. */
  function Leading(items: seq<Item>): (n: nat)
    ensures n <= |items| && OnlyFiles(items[..n]) && (n < |items| ==> items[n].Word?)
  {
    if items == [] || items[0].Word? then 0
    else
      var n := Leading(items[1..]) + 1;
      assert forall k :: 1 <= k < n ==> items[..n][k] == items[1..][..n - 1][k - 1];
      n
  }

  /** A command so far, and the items that are still to come. */
  ghost predicate SoFar(line: string, s: nat, args: seq<Span>, rs: seq<Redirection>, items: seq<Item>, rest: seq<Tok>) {
    && IsLine(line) && s <= |line| && |args| < MAXARGS && Ends(rest, 0) && AreWords(line, args) && AllFiles(line, rs)
    && Toks(line, s) == ItemToks(items) + rest
  }

  ghost function Whole(line: string, args: seq<Span>, rs: seq<Redirection>, items: seq<Item>): Tree
    requires AreWords(line, args) && AllFiles(line, rs)
  {
    Redirected(Inside(line, Words(Texts(line, args) + WordsOf(items)), rs), items)
  }

  /** Words up to MAXARGS - 1 are taken, one more is refused. */
  ghost predicate Taken(line: string, r: Result, args: seq<Span>, rs: seq<Redirection>, items: seq<Item>,
      rest: seq<Tok>)
    requires IsLine(line) && AreWords(line, args) && AllFiles(line, rs)
  {
    if |args| + |WordsOf(items)| < MAXARGS then Got(line, r, rest, Whole(line, args, rs, items))
    else r == Panic("too many args")
  }

  /** From the beginning of parseexec, or from behind a word, on. */
  lemma {:induction false} ContinueToks(line: string, s: nat, args: seq<Span>, rs: seq<Redirection>,
                                        items: seq<Item>, rest: seq<Tok>)
    requires SoFar(line, s, args, rs, items, rest)
    ensures Taken(line, Continue(line, args, rs, s), args, rs, items, rest)
    decreases |items|, 1
  {
    hide ParseArgs, ParseRedirs, Toks, ItemToks, Redirected, Inside, IsWord, WordsOf, Texts, Got, AllFiles, AreWords,
         Leading;
    var n := Leading(items);
    var a, b := items[..n], items[n..];
    assert items == a + b;
    ItemToksApp(a, b);
    WordsOfApp(a, b);
    NoWords(a);
    assert ItemToks(a) + ItemToks(b) + rest == ItemToks(a) + (ItemToks(b) + rest);
    NotRedirects(b, rest);
    var t := Words(Texts(line, args) + WordsOf(items));
    RedirToks(line, s, a, ItemToks(b) + rest, rs, t);
    RedirectedApp(Inside(line, t, rs), a, b);
    var more := ParseRedirs(line, rs, s);
    assert [] + WordsOf(b) == WordsOf(b);
    ArgsToks(line, more.pos, args, more.rs, b, rest);
  }

  lemma {:induction false} NotRedirects(items: seq<Item>, rest: seq<Tok>)
    requires Ends(rest, 0) && (items != [] ==> items[0].Word?)
    ensures !StartsIn(ItemToks(items) + rest, {'<', '>'})
  {
    assert items == [] ==> ItemToks(items) + rest == rest;
  }

  /** From the test of parseexec's loop on. */
  lemma {:induction false} ArgsToks(line: string, s: nat, args: seq<Span>, rs: seq<Redirection>, items: seq<Item>,
                                    rest: seq<Tok>)
    requires SoFar(line, s, args, rs, items, rest) && (items != [] ==> items[0].Word?)
    ensures Taken(line, ParseArgs(line, args, rs, s), args, rs, items, rest)
    decreases |items|, 0
  {
    hide ParseArgs, Toks, ItemToks, Redirected, Inside, IsWord, WordsOf, Texts, Got, Continue, GetToken, Text, Whole,
         AllFiles, AreWords, SoFar;
    if items == [] {
      ArgsEnd(line, s, args, rs, rest);
    } else {
      ArgsWord(line, s, args, rs, items, rest);
      if |args| + 1 < MAXARGS {
        var tok := GetToken(line, s);
        ContinueToks(line, tok.next, args + [Span(tok.q, tok.eq)], rs, items[1..], rest);
      }
    }
  }

  lemma {:induction false} ArgsEnd(line: string, s: nat, args: seq<Span>, rs: seq<Redirection>, rest: seq<Tok>)
    requires SoFar(line, s, args, rs, [], rest)
    ensures Taken(line, ParseArgs(line, args, rs, s), args, rs, [], rest)
  {
    hide Peek, Skip, GetToken, Toks, Inside, IsWord, Texts, Wrap, ParseRedirs;
    assert Toks(line, s) == rest;
    PeekToks(line, s, {'|', ')', '&', ';'});
    NextTok(line, s);
    SkipToks(line, s);
    ReadWrap(line, Exec(args), rs);
    assert Texts(line, args) + [] == Texts(line, args);
  }

  lemma {:induction false} ArgsWord(line: string, s: nat, args: seq<Span>, rs: seq<Redirection>, items: seq<Item>,
                                    rest: seq<Tok>)
    requires SoFar(line, s, args, rs, items, rest) && items != [] && items[0].Word?
    ensures var tok := GetToken(line, s);
            var more := args + [Span(tok.q, tok.eq)];
            && |WordsOf(items)| == 1 + |WordsOf(items[1..])|
            && if |more| < MAXARGS then
                 && SoFar(line, tok.next, more, rs, items[1..], rest)
                 && Whole(line, more, rs, items[1..]) == Whole(line, args, rs, items)
                 && ParseArgs(line, args, rs, s) == Continue(line, more, rs, tok.next)
               else ParseArgs(line, args, rs, s) == Panic("too many args")
  {
    hide Peek, Skip, GetToken, Toks, Inside, IsWord, Texts, Wrap, ParseRedirs, AllFiles, Redirected, ItemToks,
         WordsOf, AreWords, Ends;
    WordFirst(items, rest);
    PeekToks(line, s, {'|', ')', '&', ';'});
    NextTok(line, s);
    var tok := GetToken(line, s);
    var w := Span(tok.q, tok.eq);
    TextsSnoc(line, args, w);
    WholeWord(line, args, rs, items, w);
  }

  lemma {:induction false} WordFirst(items: seq<Item>, rest: seq<Tok>)
    requires items != [] && items[0].Word?
    ensures ItemToks(items) + rest == [Wd(items[0].text)] + (ItemToks(items[1..]) + rest)
    ensures WordsOf(items) == [items[0].text] + WordsOf(items[1..])
  {
  }

  lemma {:induction false} WordInside(t: Tree, items: seq<Item>)
    requires items != [] && items[0].Word?
    ensures Redirected(t, items) == Redirected(t, items[1..])
  {
  }

  lemma {:induction false} WholeWord(line: string, args: seq<Span>, rs: seq<Redirection>, items: seq<Item>, w: Span)
    requires AreWords(line, args) && AllFiles(line, rs) && items != [] && items[0].Word?
    requires IsWord(line, w) && Text(line, w) == items[0].text && AreWords(line, args + [w])
    ensures Whole(line, args + [w], rs, items[1..]) == Whole(line, args, rs, items)
  {
    hide Inside, IsWord, Texts, Text, AllFiles, AreWords, WordsOf, Redirected;
    TextsSnoc(line, args, w);
    WordFirst(items, []);
    WordInside(Inside(line, Words(Texts(line, args) + WordsOf(items)), rs), items);
    assert Texts(line, args) + [items[0].text] + WordsOf(items[1..]) == Texts(line, args) + WordsOf(items);
  }
}
