/** The command language of sh.c: tokens, the recursive-descent parser as functions of the line and a
    position, and the trees it builds. */
module Shell {

  const MAXARGS := 10

  predicate IsSpace(c: char) {
    c == ' ' || c == '\t' || c == '\r' || c == '\n' || c == (11 as char)
  }

  predicate IsSymbol(c: char) {
    c == '<' || c == '|' || c == '>' || c == '&' || c == ';' || c == '(' || c == ')'
  }

  predicate IsWordChar(c: char) {
    !IsSpace(c) && !IsSymbol(c)
  }

  /** A line in memory: no NUL inside, one behind. */
  ghost predicate IsLine(line: string) {
    forall i :: 0 <= i < |line| ==> line[i] != '\0'
  }

  function At(line: string, i: nat): char {
    if i < |line| then line[i] else '\0'
  }

  // ------------------------------------------------------------------ tokens

  /** The first position from s on that is not white space. */
  function Skip(line: string, s: nat): (r: nat)
    requires s <= |line|
    ensures s <= r <= |line| && (r < |line| ==> !IsSpace(line[r]))
    ensures s == |line| || !IsSpace(line[s]) ==> r == s
    decreases |line| - s
  {
    if s < |line| && IsSpace(line[s]) then Skip(line, s + 1) else s
  }

  function WordEnd(line: string, s: nat): (r: nat)
    requires s <= |line|
    ensures s <= r <= |line| && (forall i :: s <= i < r ==> IsWordChar(line[i]))
    ensures r < |line| ==> !IsWordChar(line[r])
    decreases |line| - s
  {
    if s < |line| && IsWordChar(line[s]) then WordEnd(line, s + 1) else s
  }

  /** kind is the character, '+' for ">>", 'a' for a word, NUL for the end of the line. */
  datatype Token = Token(kind: char, q: nat, eq: nat, next: nat)

  /** gettoken. */
  function GetToken(line: string, s: nat): (t: Token)
    requires s <= |line|
    ensures s <= t.q <= t.eq <= t.next <= |line| && (t.next < |line| ==> !IsSpace(line[t.next]))
    ensures t.kind != '\0' && IsLine(line) ==> t.q < t.eq
  {
    var q := Skip(line, s);
    var c := At(line, q);
    if c == '\0' then Token(c, q, q, Skip(line, q))
    else if c == '>' then
      if At(line, q + 1) == '>' then Token('+', q, q + 2, Skip(line, q + 2)) else Token(c, q, q + 1, Skip(line, q + 1))
    else if IsSymbol(c) then Token(c, q, q + 1, Skip(line, q + 1))
    else
      var e := WordEnd(line, q);
      Token('a', q, e, Skip(line, e))
  }

  // ------------------------------------------------------------------ trees

  /** A word of the line: q and eq of gettoken. */
  datatype Span = Span(q: nat, eq: nat)

  datatype Cmd =
    | Exec(args: seq<Span>)
    | Redir(cmd: Cmd, file: Span, out: bool)      // out: written to, created if missing, fd 1; else read from, fd 0
    | Pipe(left: Cmd, right: Cmd)
    | List(left: Cmd, right: Cmd)
    | Back(cmd: Cmd)

  /** The span is a maximal run of word characters. */
  ghost predicate IsWord(line: string, w: Span) {
    && w.q < w.eq <= |line| && (forall i :: w.q <= i < w.eq ==> IsWordChar(line[i]))
    && (w.eq < |line| ==> !IsWordChar(line[w.eq]))
  }

  ghost predicate AllWords(line: string, c: Cmd) {
    match c
    case Exec(args) => |args| < MAXARGS && forall k :: 0 <= k < |args| ==> IsWord(line, args[k])
    case Redir(d, file, _) => AllWords(line, d) && IsWord(line, file)
    case Pipe(l, r) => AllWords(line, l) && AllWords(line, r)
    case List(l, r) => AllWords(line, l) && AllWords(line, r)
    case Back(d) => AllWords(line, d)
  }

  /** Redirections, innermost first. */
  datatype Redirection = Redirection(file: Span, out: bool)

  function Wrap(c: Cmd, rs: seq<Redirection>): Cmd {
    if rs == [] then c else Redir(Wrap(c, rs[..|rs| - 1]), rs[|rs| - 1].file, rs[|rs| - 1].out)
  }

  ghost predicate AllFiles(line: string, rs: seq<Redirection>) {
    forall k :: 0 <= k < |rs| ==> IsWord(line, rs[k].file)
  }

  lemma {:induction false} WrapWords(line: string, c: Cmd, rs: seq<Redirection>)
    requires AllWords(line, c) && AllFiles(line, rs)
    ensures AllWords(line, Wrap(c, rs))
  {
    if rs != [] {
      WrapWords(line, c, rs[..|rs| - 1]);
    }
  }

  // ------------------------------------------------------------------ the parser

  datatype Result = Ok(cmd: Cmd, pos: nat) | Panic(why: string)

  datatype Redirs = Files(rs: seq<Redirection>, pos: nat) | NoFile

  predicate Peek(line: string, s: nat, toks: set<char>)
    requires s <= |line|
  {
    var c := At(line, Skip(line, s));
    c != '\0' && c in toks
  }

  /** parseredirs, with the redirections found so far. */
  function ParseRedirs(line: string, rs: seq<Redirection>, s: nat): (r: Redirs)
    requires IsLine(line) && s <= |line|
    ensures r.Files? ==> s <= r.pos <= |line| && (AllFiles(line, rs) ==> AllFiles(line, r.rs))
    decreases |line| - s
  {
    if Peek(line, s, {'<', '>'}) then
      var tok := GetToken(line, s);
      var file := GetToken(line, tok.next);
      if file.kind != 'a' then NoFile
      else
        ParseRedirs(line, rs + [Redirection(Span(file.q, file.eq), tok.kind != '<')], file.next)
    else Files(rs, Skip(line, s))
  }

  /** The loop of parseexec, with the words and redirections found so far. */
  function ParseArgs(line: string, args: seq<Span>, rs: seq<Redirection>, s: nat): (r: Result)
    requires IsLine(line) && s <= |line| && |args| < MAXARGS
    ensures r.Ok? ==> s <= r.pos <= |line|
    ensures r.Ok? && AllWords(line, Exec(args)) && AllFiles(line, rs) ==> AllWords(line, r.cmd)
    decreases |line| - s
  {
    WrapArgs(line, args, rs);
    if Peek(line, s, {'|', ')', '&', ';'}) then Ok(Wrap(Exec(args), rs), Skip(line, s))
    else
      var tok := GetToken(line, s);
      if tok.kind == '\0' then Ok(Wrap(Exec(args), rs), tok.next)
      else if tok.kind != 'a' then Panic("syntax")
      else if |args| + 1 >= MAXARGS then Panic("too many args")
      else
        var more := ParseRedirs(line, rs, tok.next);
        if more.NoFile? then Panic("missing file for redirection")
        else ParseArgs(line, args + [Span(tok.q, tok.eq)], more.rs, more.pos)
  }

  lemma {:induction false} WrapArgs(line: string, args: seq<Span>, rs: seq<Redirection>)
    ensures AllWords(line, Exec(args)) && AllFiles(line, rs) ==> AllWords(line, Wrap(Exec(args), rs))
  {
    if AllWords(line, Exec(args)) && AllFiles(line, rs) {
      WrapWords(line, Exec(args), rs);
    }
  }

  function ParseExec(line: string, s: nat): (r: Result)
    requires IsLine(line) && s <= |line|
    ensures r.Ok? ==> s <= r.pos <= |line| && AllWords(line, r.cmd)
    decreases |line| - s, 1
  {
    if Peek(line, s, {'('}) then ParseBlock(line, s)
    else
      var first := ParseRedirs(line, [], s);
      if first.NoFile? then Panic("missing file for redirection") else ParseArgs(line, [], first.rs, first.pos)
  }

  /** parseblock, at a parenthesis. */
  function ParseBlock(line: string, s: nat): (r: Result)
    requires IsLine(line) && s <= |line| && Peek(line, s, {'('})
    ensures r.Ok? ==> s <= r.pos <= |line| && AllWords(line, r.cmd)
    decreases |line| - s, 0
  {
    var inner := ParseLine(line, GetToken(line, s).next);
    if inner.Panic? then inner
    else if !Peek(line, inner.pos, {')'}) then Panic("syntax - missing )")
    else
      var more := ParseRedirs(line, [], GetToken(line, inner.pos).next);
      if more.NoFile? then Panic("missing file for redirection")
      else
        WrapWords(line, inner.cmd, more.rs);
        Ok(Wrap(inner.cmd, more.rs), more.pos)
  }

  function ParsePipe(line: string, s: nat): (r: Result)
    requires IsLine(line) && s <= |line|
    ensures r.Ok? ==> s <= r.pos <= |line| && AllWords(line, r.cmd)
    decreases |line| - s, 2
  {
    var left := ParseExec(line, s);
    if left.Panic? then left
    else if Peek(line, left.pos, {'|'}) then
      var right := ParsePipe(line, GetToken(line, left.pos).next);
      if right.Panic? then right else Ok(Pipe(left.cmd, right.cmd), right.pos)
    else Ok(left.cmd, Skip(line, left.pos))
  }

  /** The loop of parseline. */
  function ParseBacks(line: string, c: Cmd, s: nat): (r: Result)
    requires IsLine(line) && s <= |line| && AllWords(line, c)
    ensures r.Ok? && s <= r.pos <= |line| && AllWords(line, r.cmd)
    decreases |line| - s
  {
    if Peek(line, s, {'&'}) then ParseBacks(line, Back(c), GetToken(line, s).next) else Ok(c, Skip(line, s))
  }

  function ParseLine(line: string, s: nat): (r: Result)
    requires IsLine(line) && s <= |line|
    ensures r.Ok? ==> s <= r.pos <= |line| && AllWords(line, r.cmd)
    decreases |line| - s, 3
  {
    var first := ParsePipe(line, s);
    if first.Panic? then first
    else
      var left := ParseBacks(line, first.cmd, first.pos);
      if Peek(line, left.pos, {';'}) then
        var right := ParseLine(line, GetToken(line, left.pos).next);
        if right.Panic? then right else Ok(List(left.cmd, right.cmd), right.pos)
      else Ok(left.cmd, Skip(line, left.pos))
  }

  /** parsecmd, without nulterminate. */
  function ParseCmd(line: string): (r: Result)
    requires IsLine(line)
    ensures r.Ok? ==> AllWords(line, r.cmd)
  {
    var r := ParseLine(line, 0);
    if r.Panic? then r else if Skip(line, r.pos) != |line| then Panic("syntax") else r
  }
}
