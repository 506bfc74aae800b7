/** Command trees as lines: printed with parentheses only where the grammar of sh.c needs them, they are parsed
    to the same tree. */
module ShellPrint {
  import opened Shell
  import opened ShellTokens
  import opened ShellGrammar
  import opened ShellAccepts

  /** Trees that a line can denote: at most MAXARGS - 1 words, made of word characters. */
  ghost predicate Good(t: Tree) {
    match t
    case Words(ws) => |ws| < MAXARGS && forall k :: 0 <= k < |ws| ==> GoodWord(ws[k])
    case File(u, file, _) => Good(u) && GoodWord(file)
    case Piped(l, r) => Good(l) && Good(r)
    case Then(l, r) => Good(l) && Good(r)
    case Behind(u) => Good(u)
  }

  /** How loosely a tree binds. */
  function Level(t: Tree): nat {
    match t
    case Words(_) => 0
    case File(_, _, _) => 0
    case Piped(_, _) => 1
    case Behind(_) => 2
    case Then(_, _) => 3
  }

  /** What the redirections are around. */
  function Core(t: Tree): (c: Tree)
    ensures !c.File? && (c == t || c < t)
  {
    if t.File? then Core(t.tree) else t
  }

  /** The redirections, the innermost one first. */
  function FilesOf(t: Tree): seq<Item> {
    if t.File? then FilesOf(t.tree) + [if t.out then Output(t.file) else Input(t.file)] else []
  }

  function Plain(ws: seq<string>): (r: seq<Item>)
    ensures |r| == |ws| && forall k :: 0 <= k < |ws| ==> r[k] == Word(ws[k])
  {
    if ws == [] then [] else [Word(ws[0])] + Plain(ws[1..])
  }

  /** A tree where the grammar wants level n: in parentheses exactly if it binds more loosely. */
  function FormAt(t: Tree, n: nat): Form
    decreases t, 2
  {
    if 1 <= Level(t) <= n then Bare(t) else Command(t)
  }

  function Command(t: Tree): Form
    decreases t, 1
  {
    var c := Core(t);
    if c.Words? then Simple(Plain(c.words) + FilesOf(t)) else Group(Bare(c), FilesOf(t))
  }

  function Bare(t: Tree): Form
    decreases t, 0
  {
    match t
    case Piped(l, r) => Pipeline(FormAt(l, 0), FormAt(r, 1))
    case Behind(u) => Amp(FormAt(u, 2))
    case Then(l, r) => Semi(FormAt(l, 2), FormAt(r, 3))
    case _ => Simple([])
  }

  function Print(t: Tree): seq<Tok> {
    FormToks(FormAt(t, 3))
  }

  // ------------------------------------------------------------------ the form means the tree

  lemma {:induction false} CoreFiles(t: Tree)
    ensures Redirected(Core(t), FilesOf(t)) == t && OnlyFiles(FilesOf(t))
  {
    if t.File? {
      CoreFiles(t.tree);
      RedirectedApp(Core(t), FilesOf(t.tree), [if t.out then Output(t.file) else Input(t.file)]);
    }
  }

  lemma {:induction false} PlainIs(ws: seq<string>, t: Tree)
    ensures WordsOf(Plain(ws)) == ws && Redirected(t, Plain(ws)) == t
  {
    if ws != [] {
      PlainIs(ws[1..], t);
      assert Plain(ws)[1..] == Plain(ws[1..]);
    }
  }

  lemma {:induction false} SimpleMeans(ws: seq<string>, files: seq<Item>)
    requires OnlyFiles(files)
    ensures var f := Simple(Plain(ws) + files); Meaning(f) == Redirected(Words(ws), files) && WordsOf(f.items) == ws
  {
    hide WordsOf, Redirected;
    PlainIs(ws, Words(ws));
    WordsOfApp(Plain(ws), files);
    NoWords(files);
    RedirectedApp(Words(ws), Plain(ws), files);
    assert ws + [] == ws;
  }

  lemma {:induction false} FormMeans(t: Tree, n: nat)
    ensures Meaning(FormAt(t, n)) == t
    decreases t, 2
  {
    if 1 <= Level(t) <= n {
      BareMeans(t);
    } else {
      CoreFiles(t);
      var c := Core(t);
      if c.Words? {
        SimpleMeans(c.words, FilesOf(t));
      } else {
        BareMeans(c);
      }
    }
  }

  lemma {:induction false} BareMeans(t: Tree)
    requires Level(t) >= 1
    ensures Meaning(Bare(t)) == t
    decreases t, 0
  {
    match t
    case Piped(l, r) => FormMeans(l, 0); FormMeans(r, 1);
    case Behind(u) => FormMeans(u, 2);
    case Then(l, r) => FormMeans(l, 2); FormMeans(r, 3);
  }

  ghost predicate GoodItems(items: seq<Item>) {
    forall k :: 0 <= k < |items| ==> GoodWord(items[k].text)
  }

  lemma {:induction false} ItemsGood(items: seq<Item>)
    requires GoodItems(items)
    ensures GoodToks(ItemToks(items))
  {
    if items != [] {
      assert GoodWord(items[0].text);
      ItemsGood(items[1..]);
    }
  }

  lemma {:induction false} CoreGood(t: Tree)
    requires Good(t)
    ensures Good(Core(t)) && GoodItems(FilesOf(t))
  {
    if t.File? {
      CoreGood(t.tree);
    }
  }

  lemma {:induction false} FormFits(t: Tree, n: nat)
    requires Good(t)
    ensures Fits(FormAt(t, n), n) && GoodToks(FormToks(FormAt(t, n)))
    decreases t, 2
  {
    hide WordsOf, ItemToks, GoodWord, GoodTok;
    if 1 <= Level(t) <= n {
      BareFits(t);
      FitsMore(Bare(t), Level(t), n);
    } else {
      CoreFiles(t);
      CoreGood(t);
      var c, files := Core(t), FilesOf(t);
      if c.Words? {
        SimpleMeans(c.words, files);
        ItemsGood(Plain(c.words) + files);
      } else {
        BareFits(c);
        FitsMore(Bare(c), Level(c), 3);
        ItemsGood(files);
        assert GoodTok(Sym('(')) && GoodTok(Sym(')')) by { Operators(); }
      }
    }
  }

  lemma {:induction false} Operators()
    ensures forall c :: c in {'(', ')', '|', '&', ';'} ==> GoodTok(Sym(c))
  {
  }

  lemma {:induction false} BareFits(t: Tree)
    requires Level(t) >= 1 && Good(t)
    ensures Fits(Bare(t), Level(t)) && GoodToks(FormToks(Bare(t)))
    decreases t, 0
  {
    hide WordsOf, ItemToks, GoodWord, GoodTok;
    Operators();
    match t
    case Piped(l, r) => FormFits(l, 0); FormFits(r, 1);
    case Behind(u) => FormFits(u, 2);
    case Then(l, r) => FormFits(l, 2); FormFits(r, 3);
  }

  // ------------------------------------------------------------------ lines

  lemma {:induction false} SpacedLine(toks: seq<Tok>, gaps: seq<string>)
    requires GoodToks(toks) && Gaps(toks, gaps)
    ensures IsLine(Spaced(toks, gaps))
  {
    hide Touch;
    assert Blank(gaps[0]);
    if toks != [] {
      GapsRest(toks, gaps);
      assert GoodToks(toks[1..]);
      SpacedLine(toks[1..], gaps[1..]);
      assert GoodTok(toks[0]);
      assert IsLine(Spelling(toks[0])) && IsLine(gaps[0]);
    }
  }

  /** A line is parsed to t. */
  ghost predicate Parses(line: string, t: Tree) {
    IsLine(line) && ParseCmd(line).Ok? && Read(line, ParseCmd(line).cmd) == t
  }

  /** Printed with the fewest parentheses and any spacing, every tree is parsed to itself. */
  lemma {:induction false} RoundTrip(t: Tree, gaps: seq<string>)
    requires Good(t) && Gaps(Print(t), gaps)
    ensures Parses(Spaced(Print(t), gaps), t)
  {
    hide ParseCmd, Toks, Spaced, FormAt;
    FormFits(t, 3);
    FormMeans(t, 3);
    var line := Spaced(Print(t), gaps);
    SpacedLine(Print(t), gaps);
    assert "" + line == line;
    SpacedToks("", Print(t), gaps);
    Accepted(line, FormAt(t, 3));
  }

  /** The lines that parsecmd accepts are the forms of the grammar, spelled with any spacing. */
  lemma {:induction false} Language(line: string)
    requires IsLine(line)
    ensures ParseCmd(line).Ok? <==> exists f, gaps :: Spells(line, f, gaps)
  {
    hide ParseCmd, Toks, Spaced, Gaps, FormToks;
    if ParseCmd(line).Ok? {
      Grammar(line);
      var f :| Fits(f, 3) && Toks(line, 0) == FormToks(f);
      var gaps := LineIsSpaced(line, 0);
      assert line[0..] == line;
      assert Spells(line, f, gaps);
    }
    forall f, gaps | Spells(line, f, gaps)
      ensures ParseCmd(line).Ok?
    {
      assert "" + line == line;
      SpacedToks("", FormToks(f), gaps);
      Accepted(line, f);
    }
  }

  ghost predicate Spells(line: string, f: Form, gaps: seq<string>) {
    Fits(f, 3) && GoodToks(FormToks(f)) && Gaps(FormToks(f), gaps) && line == Spaced(FormToks(f), gaps)
  }

  // ------------------------------------------------------------------ the fewest parentheses

  function Blocks(f: Form): nat {
    match f
    case Simple(_) => 0
    case Group(inner, _) => 1 + Blocks(inner)
    case Pipeline(l, r) => Blocks(l) + Blocks(r)
    case Amp(u) => Blocks(u)
    case Semi(l, r) => Blocks(l) + Blocks(r)
  }

  lemma {:induction false} CoreInside(t: Tree, files: seq<Item>)
    ensures var u := Redirected(t, files); Core(u) == Core(t) && (u == t || u.File?) && (t.File? ==> u.File?)
    decreases |files|
  {
    if files != [] {
      CoreInside(if files[0].Word? then t else File(t, files[0].text, files[0].Out()), files[1..]);
    }
  }

  /** The number of parentheses: none around a simple command, one more where the tree binds too loosely. */
  lemma {:induction false} BlocksAt(t: Tree, n: nat)
    ensures var c := Core(t);
            Blocks(FormAt(t, n)) ==
              if c.Words? then 0 else if t.File? || Level(t) > n then 1 + Blocks(Bare(c)) else Blocks(Bare(c))
  {
  }

  /** No form of the grammar says the same with fewer parentheses. */
  lemma {:induction false} FewestBlocks(f: Form, n: nat)
    requires Fits(f, n) && n <= 3
    ensures Blocks(FormAt(Meaning(f), n)) <= Blocks(f)
  {
    hide FormAt, Redirected, WordsOf;
    BlocksAt(Meaning(f), n);
    match f
    case Simple(items) => CoreInside(Words(WordsOf(items)), items);
    case Group(inner, files) =>
      FewestBlocks(inner, 3);
      BlocksAt(Meaning(inner), 3);
      CoreInside(Meaning(inner), files);
    case Pipeline(l, r) => FewestBlocks(l, 0); FewestBlocks(r, 1);
    case Amp(u) => FewestBlocks(u, 2);
    case Semi(l, r) => FewestBlocks(l, 2); FewestBlocks(r, 3);
  }

  // ------------------------------------------------------------------ pipelines, lists and ampersands

  /** Tokens of the trees with an operator between them. */
  function Joined(ts: seq<Tree>, op: char, n: nat): seq<Tok>
    requires ts != []
  {
    FormToks(FormAt(ts[0], n)) + if |ts| == 1 then [] else [Sym(op)] + Joined(ts[1..], op, n)
  }

  function PipeOf(ts: seq<Tree>): Tree
    requires ts != []
  {
    if |ts| == 1 then ts[0] else Piped(ts[0], PipeOf(ts[1..]))
  }

  function ListOf(ts: seq<Tree>): Tree
    requires ts != []
  {
    if |ts| == 1 then ts[0] else Then(ts[0], ListOf(ts[1..]))
  }

  ghost predicate AllGood(ts: seq<Tree>) {
    forall k :: 0 <= k < |ts| ==> Good(ts[k])
  }

  lemma {:induction false} PipeJoined(ts: seq<Tree>)
    requires AllGood(ts) && ts != [] && !ts[|ts| - 1].Piped?
    ensures Good(PipeOf(ts)) && FormToks(FormAt(PipeOf(ts), 1)) == Joined(ts, '|', 0)
  {
    hide Good, Command;
    if |ts| == 1 {
      assert Good(ts[0]);
      assert FormToks(FormAt(ts[0], 0)) + [] == FormToks(FormAt(ts[0], 0));
    } else {
      PipeJoined(ts[1..]);
      GoodPair(ts[0], PipeOf(ts[1..]));
      JoinedCons(ts, '|', 0);
    }
  }

  lemma {:induction false} GoodPair(l: Tree, r: Tree)
    requires Good(l) && Good(r)
    ensures Good(Piped(l, r)) && Good(Then(l, r))
  {
  }

  lemma {:induction false} JoinedCons(ts: seq<Tree>, op: char, n: nat)
    requires |ts| > 1
    ensures Joined(ts, op, n) == FormToks(FormAt(ts[0], n)) + [Sym(op)] + Joined(ts[1..], op, n)
  {
    var a, c := FormToks(FormAt(ts[0], n)), Joined(ts[1..], op, n);
    assert a + ([Sym(op)] + c) == a + [Sym(op)] + c;
  }

  lemma {:induction false} ListJoined(ts: seq<Tree>)
    requires AllGood(ts) && ts != [] && !ts[|ts| - 1].Then?
    ensures Good(ListOf(ts)) && Print(ListOf(ts)) == Joined(ts, ';', 2)
  {
    hide Good, Command;
    if |ts| == 1 {
      assert Good(ts[0]);
      assert FormToks(FormAt(ts[0], 2)) + [] == FormToks(FormAt(ts[0], 2));
    } else {
      ListJoined(ts[1..]);
      GoodPair(ts[0], ListOf(ts[1..]));
      assert FormAt(ListOf(ts), 3) == Semi(FormAt(ts[0], 2), FormAt(ListOf(ts[1..]), 3));
      JoinedCons(ts, ';', 2);
    }
  }

  /** The tokens of a printed tree are parsed to it. */
  lemma {:induction false} PrintParses(line: string, t: Tree)
    requires IsLine(line) && Good(t) && Toks(line, 0) == Print(t)
    ensures Parses(line, t)
  {
    hide ParseCmd, Toks, FormAt, FormToks;
    FormFits(t, 3);
    FormMeans(t, 3);
    Accepted(line, FormAt(t, 3));
  }

  /** c1 | ... | cn is c1 | (c2 | (... | cn)), for every n. */
  lemma {:induction false} PipelineNests(line: string, ts: seq<Tree>)
    requires IsLine(line) && AllGood(ts) && |ts| >= 2 && !ts[|ts| - 1].Piped? && Toks(line, 0) == Joined(ts, '|', 0)
    ensures Parses(line, PipeOf(ts))
  {
    hide ParseCmd, Toks, Parses;
    PipeJoined(ts);
    PrintParses(line, PipeOf(ts));
  }

  /** p1 ; ... ; pn is p1 ; (p2 ; (... ; pn)), where each may be in the background. */
  lemma {:induction false} ListNests(line: string, ts: seq<Tree>)
    requires IsLine(line) && AllGood(ts) && ts != [] && !ts[|ts| - 1].Then? && Toks(line, 0) == Joined(ts, ';', 2)
    ensures Parses(line, ListOf(ts))
  {
    hide ParseCmd, Toks, Parses;
    ListJoined(ts);
    PrintParses(line, ListOf(ts));
  }

  /** p & ... & is p, put into the background once for each ampersand. */
  lemma {:induction false} AmpsNest(t: Tree, k: nat)
    requires Good(t)
    ensures Good(Behinds(t, k))
    ensures FormToks(FormAt(Behinds(t, k), 2)) == FormToks(FormAt(t, 2)) + Amps(k)
    decreases k
  {
    hide Command;
    if k == 0 {
      assert FormToks(FormAt(t, 2)) + [] == FormToks(FormAt(t, 2));
    } else {
      AmpsNest(Behind(t), k - 1);
      assert FormToks(FormAt(t, 2)) + [Sym('&')] + Amps(k - 1) == FormToks(FormAt(t, 2)) + ([Sym('&')] + Amps(k - 1));
    }
  }

  // ------------------------------------------------------------------ >>

  /** Every >> as a >. */
  function Truncating(toks: seq<Tok>): (r: seq<Tok>)
    ensures |r| == |toks| && forall k :: 0 <= k < |r| ==> r[k] == if toks[k] == Sym('+') then Sym('>') else toks[k]
  {
    seq(|toks|, k requires 0 <= k < |toks| => if toks[k] == Sym('+') then Sym('>') else toks[k])
  }

  function CutItems(items: seq<Item>): seq<Item> {
    if items == [] then []
    else [if items[0].Append? then Output(items[0].text) else items[0]] + CutItems(items[1..])
  }

  function Cut(f: Form): Form {
    match f
    case Simple(items) => Simple(CutItems(items))
    case Group(inner, files) => Group(Cut(inner), CutItems(files))
    case Pipeline(l, r) => Pipeline(Cut(l), Cut(r))
    case Amp(u) => Amp(Cut(u))
    case Semi(l, r) => Semi(Cut(l), Cut(r))
  }

  lemma {:induction false} TruncatingApp(a: seq<Tok>, b: seq<Tok>)
    ensures Truncating(a + b) == Truncating(a) + Truncating(b)
  {
  }

  lemma {:induction false} CutItemsSame(items: seq<Item>, t: Tree)
    ensures WordsOf(CutItems(items)) == WordsOf(items) && Redirected(t, CutItems(items)) == Redirected(t, items)
    ensures OnlyFiles(items) ==> OnlyFiles(CutItems(items))
    decreases |items|
  {
    if items != [] {
      var rest := items[1..];
      assert OnlyFiles(items) ==> forall k :: 0 <= k < |rest| ==> rest[k] == items[k + 1];
      CutItemsSame(rest, if items[0].Word? then t else File(t, items[0].text, items[0].Out()));
      assert CutItems(items)[1..] == CutItems(rest);
    }
  }

  lemma {:induction false} CutItemsToks(items: seq<Item>)
    ensures ItemToks(CutItems(items)) == Truncating(ItemToks(items))
  {
    hide Truncating;
    if items == [] {
      assert Truncating([]) == [];
    } else {
      CutItemsToks(items[1..]);
      assert CutItems(items)[1..] == CutItems(items[1..]);
      TruncatingApp(ItemTok(items[0]), ItemToks(items[1..]));
      assert ItemTok(CutItems(items)[0]) == Truncating(ItemTok(items[0]));
    }
  }

  lemma {:induction false} CutSame(f: Form, n: nat)
    requires Fits(f, n)
    ensures Fits(Cut(f), n) && Meaning(Cut(f)) == Meaning(f)
  {
    hide WordsOf, Redirected, CutItems, OnlyFiles;
    match f
    case Simple(items) => CutItemsSame(items, Words(WordsOf(items)));
    case Group(inner, files) => CutSame(inner, 3); CutItemsSame(files, Meaning(inner));
    case Pipeline(l, r) => CutSame(l, 0); CutSame(r, 1);
    case Amp(u) => CutSame(u, 2);
    case Semi(l, r) => CutSame(l, 2); CutSame(r, 3);
  }

  lemma {:induction false} CutToks(f: Form)
    ensures FormToks(Cut(f)) == Truncating(FormToks(f))
  {
    hide ItemToks, CutItems;
    match f
    case Simple(items) => CutItemsToks(items);
    case Group(inner, files) => CutToks(inner); CutItemsToks(files);
    case Pipeline(l, r) => CutToks(l); CutToks(r);
    case Amp(u) => CutToks(u);
    case Semi(l, r) => CutToks(l); CutToks(r);
  }

  /** `>>` does not append: a line that is accepted means the same with `>` in the place of each `>>`. */
  lemma {:induction false} AppendIsOutput(line: string, other: string)
    requires IsLine(line) && IsLine(other) && ParseCmd(line).Ok? && Toks(other, 0) == Truncating(Toks(line, 0))
    ensures Parses(other, Read(line, ParseCmd(line).cmd))
  {
    hide ParseCmd, Toks, Truncating, FormToks;
    Grammar(line);
    var f :| Fits(f, 3) && Toks(line, 0) == FormToks(f);
    CutSame(f, 3);
    CutToks(f);
    Accepted(other, Cut(f));
  }
}
