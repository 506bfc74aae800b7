/** The code of sh.c's parser: a cursor that moves along the line, and NULs written behind the words.
    A panic of the shell is a Panic result. */
module ShellCode {
  import opened Shell

  /** White space skipped before a token does not matter. */
  lemma {:induction false} SkipTwice(line: string, s: nat)
    requires s <= |line|
    ensures Skip(line, Skip(line, s)) == Skip(line, s) && GetToken(line, Skip(line, s)) == GetToken(line, s)
  {
  }

  lemma {:induction false} PeekTwice(line: string, s: nat, toks: set<char>)
    requires s <= |line|
    ensures Peek(line, Skip(line, s), toks) == Peek(line, s, toks)
  {
  }

  lemma {:induction false} Consumes(line: string, s: nat, toks: set<char>)
    requires IsLine(line) && s <= |line| && Peek(line, s, toks)
    ensures GetToken(line, s).next > s
  {
  }

  lemma {:induction false} RedirsSkip(line: string, rs: seq<Redirection>, s: nat)
    requires IsLine(line) && s <= |line|
    ensures ParseRedirs(line, rs, Skip(line, s)) == ParseRedirs(line, rs, s)
  {
    hide GetToken, Peek, Skip;
    SkipTwice(line, s);
    PeekTwice(line, s, {'<', '>'});
  }

  class Parser {
    const line: string
    var ps: nat

    ghost predicate Valid()
      reads this
    {
      IsLine(line) && ps <= |line|
    }

    constructor (line: string)
      requires IsLine(line)
      ensures Valid() && this.line == line && ps == 0
    {
      this.line := line;
      ps := 0;
    }

    /** The loop that starts and ends gettoken, and starts peek. */
    method SkipSpace(s: nat) returns (r: nat)
      requires s <= |line|
      ensures r == Skip(line, s)
    {
      r := s;
      while r < |line| && IsSpace(line[r])
        invariant s <= r <= |line| && Skip(line, r) == Skip(line, s)
      {
        r := r + 1;
      }
    }

    /** gettoken. */
    method GetToken() returns (kind: char, q: nat, eq: nat)
      requires Valid()
      modifies this
      ensures Valid() && Token(kind, q, eq, ps) == Shell.GetToken(line, old(ps))
    {
      var s := SkipSpace(ps);
      q := s;
      kind := At(line, s);
      if kind == '\0' {
      } else if kind == '>' {
        s := s + 1;
        if At(line, s) == '>' {
          kind := '+';
          s := s + 1;
        }
      } else if IsSymbol(kind) {
        s := s + 1;
      } else {
        kind := 'a';
        while s < |line| && !IsSpace(line[s]) && !IsSymbol(line[s])
          invariant q <= s <= |line| && WordEnd(line, s) == WordEnd(line, q)
        {
          s := s + 1;
        }
      }
      eq := s;
      ps := SkipSpace(s);
    }

    /** peek. */
    method Peek(toks: set<char>) returns (r: bool)
      requires Valid()
      modifies this
      ensures Valid() && ps == Skip(line, old(ps)) && r == Shell.Peek(line, old(ps), toks)
    {
      ps := SkipSpace(ps);
      r := At(line, ps) != '\0' && At(line, ps) in toks;
    }

    /** parseredirs, on the redirections a command has already. */
    method ParseRedirs(rs: seq<Redirection>) returns (r: Redirs)
      requires Valid()
      modifies this
      ensures Valid() && r == Shell.ParseRedirs(line, rs, old(ps)) && (r.Files? ==> r.pos == ps >= old(ps))
    {
      hide Shell.GetToken, Skip, Shell.Peek;
      var now := rs;
      ghost var s := ps;
      var more := Peek({'<', '>'});
      SkipTwice(line, s);
      PeekTwice(line, s, {'<', '>'});
      RedirsSkip(line, rs, s);
      while more
        invariant Valid() && ps >= old(ps) && more == Shell.Peek(line, ps, {'<', '>'}) && Skip(line, ps) == ps
        invariant Shell.ParseRedirs(line, now, ps) == Shell.ParseRedirs(line, rs, old(ps))
        decreases |line| - ps
      {
        var tok, q, eq := GetToken();
        var kind;
        kind, q, eq := GetToken();
        if kind != 'a' {
          return NoFile;
        }
        now := now + [Redirection(Span(q, eq), tok != '<')];
        ghost var t := ps;
        more := Peek({'<', '>'});
        SkipTwice(line, t);
        PeekTwice(line, t, {'<', '>'});
        RedirsSkip(line, now, t);
      }
      return Files(now, ps);
    }

    /** The loop of parseexec. */
    method ParseArgs(first: seq<Redirection>) returns (r: Result)
      requires Valid()
      modifies this
      ensures Valid() && r == Shell.ParseArgs(line, [], first, old(ps)) && (r.Ok? ==> r.pos == ps >= old(ps))
    {
      hide Shell.GetToken, Skip, Shell.Peek, Shell.ParseRedirs;
      var args: seq<Span>, rs := [], first;
      ghost var s := ps;
      var stop := Peek({'|', ')', '&', ';'});
      SkipTwice(line, s);
      PeekTwice(line, s, {'|', ')', '&', ';'});
      ArgsSkip(line, args, rs, s);
      while !stop
        invariant Valid() && ps >= old(ps) && |args| < MAXARGS && Skip(line, ps) == ps
        invariant stop == Shell.Peek(line, ps, {'|', ')', '&', ';'})
        invariant Shell.ParseArgs(line, args, rs, ps) == Shell.ParseArgs(line, [], first, old(ps))
        decreases |line| - ps
      {
        var tok, q, eq := GetToken();
        if tok == '\0' {
          break;
        }
        if tok != 'a' {
          return Panic("syntax");
        }
        args := args + [Span(q, eq)];
        if |args| >= MAXARGS {
          return Panic("too many args");
        }
        var more := ParseRedirs(rs);
        if more.NoFile? {
          return Panic("missing file for redirection");
        }
        rs := more.rs;
        ghost var t := ps;
        stop := Peek({'|', ')', '&', ';'});
        SkipTwice(line, t);
        PeekTwice(line, t, {'|', ')', '&', ';'});
        ArgsSkip(line, args, rs, t);
      }
      return Ok(Wrap(Exec(args), rs), ps);
    }

    /** parseexec. */
    method ParseExec() returns (r: Result)
      requires Valid()
      modifies this
      ensures Valid() && r == Shell.ParseExec(line, old(ps)) && (r.Ok? ==> r.pos == ps)
      decreases |line| - ps, 1
    {
      hide Shell.GetToken, Skip, Shell.ParseRedirs, Shell.ParseArgs, Shell.ParseBlock;
      ghost var s := ps;
      var block := Peek({'('});
      if block {
        BlockSkip(line, s);
        r := ParseBlock();
      } else {
        RedirsSkip(line, [], s);
        var first := ParseRedirs([]);
        if first.NoFile? {
          return Panic("missing file for redirection");
        }
        r := ParseArgs(first.rs);
      }
    }

    /** parseblock, called at a parenthesis. */
    method ParseBlock() returns (r: Result)
      requires Valid() && Shell.Peek(line, ps, {'('})
      modifies this
      ensures Valid() && r == Shell.ParseBlock(line, old(ps)) && (r.Ok? ==> r.pos == ps)
      decreases |line| - ps, 0
    {
      hide Shell.ParseRedirs, Shell.ParseLine;
      ghost var s := ps;
      var open := Peek({'('});
      SkipTwice(line, s);
      var tok, q, eq := GetToken();
      r := ParseLine();
      if r.Panic? {
        return;
      }
      s := ps;
      var close := Peek({')'});
      if !close {
        return Panic("syntax - missing )");
      }
      SkipTwice(line, s);
      tok, q, eq := GetToken();
      var more := ParseRedirs([]);
      if more.NoFile? {
        return Panic("missing file for redirection");
      }
      return Ok(Wrap(r.cmd, more.rs), ps);
    }

    /** parsepipe. */
    method ParsePipe() returns (r: Result)
      requires Valid()
      modifies this
      ensures Valid() && r == Shell.ParsePipe(line, old(ps)) && (r.Ok? ==> r.pos == ps)
      decreases |line| - ps, 2
    {
      hide Shell.ParseExec;
      r := ParseExec();
      if r.Panic? {
        return;
      }
      ghost var s := ps;
      var bar := Peek({'|'});
      if !bar {
        return Ok(r.cmd, ps);
      }
      SkipTwice(line, s);
      var tok, q, eq := GetToken();
      var right := ParsePipe();
      if right.Panic? {
        return right;
      }
      return Ok(Pipe(r.cmd, right.cmd), ps);
    }

    /** The loop of parseline. */
    method ParseBacks(cmd: Cmd) returns (r: Cmd)
      requires Valid() && AllWords(line, cmd)
      modifies this
      ensures Valid() && Ok(r, ps) == Shell.ParseBacks(line, cmd, old(ps))
    {
      hide Shell.GetToken, Skip, Shell.Peek;
      r := cmd;
      ghost var s := ps;
      var more := Peek({'&'});
      SkipTwice(line, s);
      PeekTwice(line, s, {'&'});
      while more
        invariant Valid() && AllWords(line, r) && more == Shell.Peek(line, ps, {'&'}) && Skip(line, ps) == ps
        invariant Shell.ParseBacks(line, r, ps) == Shell.ParseBacks(line, cmd, old(ps))
        decreases |line| - ps
      {
        Consumes(line, ps, {'&'});
        var tok, q, eq := GetToken();
        r := Back(r);
        ghost var t := ps;
        more := Peek({'&'});
        SkipTwice(line, t);
        PeekTwice(line, t, {'&'});
      }
    }

    /** parseline. */
    method ParseLine() returns (r: Result)
      requires Valid()
      modifies this
      ensures Valid() && r == Shell.ParseLine(line, old(ps)) && (r.Ok? ==> r.pos == ps)
      decreases |line| - ps, 3
    {
      hide Shell.ParsePipe, Shell.ParseBacks;
      r := ParsePipe();
      if r.Panic? {
        return;
      }
      var left := ParseBacks(r.cmd);
      ghost var s := ps;
      var semi := Peek({';'});
      if !semi {
        return Ok(left, ps);
      }
      SkipTwice(line, s);
      var tok, q, eq := GetToken();
      var right := ParseLine();
      if right.Panic? {
        return right;
      }
      return Ok(List(left, right.cmd), ps);
    }

    /** parsecmd, up to nulterminate. */
    method ParseCmd() returns (r: Result)
      requires Valid() && ps == 0
      modifies this
      ensures r == Shell.ParseCmd(line)
    {
      hide Shell.ParseLine;
      r := ParseLine();
      if r.Panic? {
        return;
      }
      var none := Peek({});
      if ps != |line| {
        return Panic("syntax");
      }
    }
  }

  lemma {:induction false} ArgsSkip(line: string, args: seq<Span>, rs: seq<Redirection>, s: nat)
    requires IsLine(line) && s <= |line| && |args| < MAXARGS
    ensures Shell.ParseArgs(line, args, rs, Skip(line, s)) == Shell.ParseArgs(line, args, rs, s)
  {
    hide Shell.GetToken, Shell.Peek, Skip, Shell.ParseRedirs;
    SkipTwice(line, s);
    PeekTwice(line, s, {'|', ')', '&', ';'});
  }

  lemma {:induction false} BlockSkip(line: string, s: nat)
    requires IsLine(line) && s <= |line| && Shell.Peek(line, s, {'('})
    ensures Shell.Peek(line, Skip(line, s), {'('}) && Shell.ParseBlock(line, Skip(line, s)) == Shell.ParseBlock(line, s)
  {
    hide Shell.GetToken, Skip, Shell.ParseRedirs, Shell.ParseLine;
    SkipTwice(line, s);
  }

  // ------------------------------------------------------------------ nulterminate

  /** One of the words of the command. */
  predicate HasWord(c: Cmd, w: Span) {
    match c
    case Exec(args) => w in args
    case Redir(d, file, _) => w == file || HasWord(d, w)
    case Pipe(l, r) => HasWord(l, w) || HasWord(r, w)
    case List(l, r) => HasWord(l, w) || HasWord(r, w)
    case Back(d) => HasWord(d, w)
  }

  lemma {:induction false} HasWordIs(line: string, c: Cmd, w: Span)
    requires AllWords(line, c) && HasWord(c, w)
    ensures IsWord(line, w)
  {
    match c
    case Exec(args) =>
    case Redir(d, file, _) => if w != file { HasWordIs(line, d, w); }
    case Pipe(l, r) => if HasWord(l, w) { HasWordIs(line, l, w); } else { HasWordIs(line, r, w); }
    case List(l, r) => if HasWord(l, w) { HasWordIs(line, l, w); } else { HasWordIs(line, r, w); }
    case Back(d) => HasWordIs(line, d, w);
  }

  /** Position i is behind one of the words. */
  ghost predicate IsEnd(c: Cmd, i: int) {
    exists w :: HasWord(c, w) && w.eq == i
  }

  /** What nulterminate does to the line. */
  method NulTerminate(buf: array<char>, c: Cmd, ghost line: string)
    requires AllWords(line, c) && buf.Length == |line| + 1
    modifies buf
    ensures forall i :: 0 <= i < buf.Length ==> buf[i] == if IsEnd(c, i) then '\0' else old(buf[i])
    decreases c
  {
    match c
    case Exec(args) =>
      for k := 0 to |args|
        invariant forall i :: 0 <= i < buf.Length ==>
                    buf[i] == if exists j :: 0 <= j < k && args[j].eq == i then '\0' else old(buf[i])
      {
        assert IsWord(line, args[k]);
        buf[args[k].eq] := '\0';
      }
      ExecEnds(args, buf.Length);
    case Redir(d, file, out) =>
      NulTerminate(buf, d, line);
      RedirEnds(d, file, out, buf.Length);
      buf[file.eq] := '\0';
    case Pipe(l, r) =>
      NulTerminate(buf, l, line);
      NulTerminate(buf, r, line);
      BothEnds(c, l, r, buf.Length);
    case List(l, r) =>
      NulTerminate(buf, l, line);
      NulTerminate(buf, r, line);
      BothEnds(c, l, r, buf.Length);
    case Back(d) =>
      NulTerminate(buf, d, line);
      BackEnds(d, buf.Length);
  }

  lemma {:induction false} ExecEnds(args: seq<Span>, n: nat)
    ensures forall i :: 0 <= i < n ==> (IsEnd(Exec(args), i) <==> exists j :: 0 <= j < |args| && args[j].eq == i)
  {
    forall i | 0 <= i < n
      ensures IsEnd(Exec(args), i) <==> exists j :: 0 <= j < |args| && args[j].eq == i
    {
      if j :| 0 <= j < |args| && args[j].eq == i {
        assert HasWord(Exec(args), args[j]);
      }
    }
  }

  lemma {:induction false} RedirEnds(d: Cmd, file: Span, out: bool, n: nat)
    ensures forall i :: 0 <= i < n ==> (IsEnd(Redir(d, file, out), i) <==> i == file.eq || IsEnd(d, i))
  {
    forall i | 0 <= i < n
      ensures IsEnd(Redir(d, file, out), i) <==> i == file.eq || IsEnd(d, i)
    {
      assert HasWord(Redir(d, file, out), file);
      if w :| HasWord(d, w) && w.eq == i {
        assert HasWord(Redir(d, file, out), w);
      }
    }
  }

  lemma {:induction false} BothEnds(c: Cmd, l: Cmd, r: Cmd, n: nat)
    requires c == Pipe(l, r) || c == List(l, r)
    ensures forall i :: 0 <= i < n ==> (IsEnd(c, i) <==> IsEnd(l, i) || IsEnd(r, i))
  {
    forall i | 0 <= i < n
      ensures IsEnd(c, i) <==> IsEnd(l, i) || IsEnd(r, i)
    {
      if w :| HasWord(l, w) && w.eq == i {
        assert HasWord(c, w);
      }
      if w :| HasWord(r, w) && w.eq == i {
        assert HasWord(c, w);
      }
    }
  }

  lemma {:induction false} BackEnds(d: Cmd, n: nat)
    ensures forall i :: 0 <= i < n ==> (IsEnd(Back(d), i) <==> IsEnd(d, i))
  {
    forall i | 0 <= i < n
      ensures IsEnd(Back(d), i) <==> IsEnd(d, i)
    {
      if w :| HasWord(d, w) && w.eq == i {
        assert HasWord(Back(d), w);
      }
    }
  }

  /** The string at p: everything up to the next NUL. */
  function CString(buf: seq<char>, p: nat): string
    requires p <= |buf|
    decreases |buf| - p
  {
    if p == |buf| || buf[p] == '\0' then "" else [buf[p]] + CString(buf, p + 1)
  }

  lemma {:induction false} CStringIs(buf: seq<char>, p: nat, e: nat)
    requires p <= e < |buf| && buf[e] == '\0' && forall i :: p <= i < e ==> buf[i] != '\0'
    ensures CString(buf, p) == buf[p..e]
    decreases e - p
  {
    if p < e {
      CStringIs(buf, p + 1, e);
    }
  }

  /** After nulterminate each word of the command is a C string: no NUL falls inside any of them. */
  lemma {:induction false} Terminated(line: string, c: Cmd, buf: seq<char>, w: Span)
    requires IsLine(line) && AllWords(line, c) && HasWord(c, w) && |buf| == |line| + 1
    requires forall i :: 0 <= i < |buf| ==> buf[i] == if IsEnd(c, i) then '\0' else At(line, i)
    ensures w.q < w.eq <= |line| && CString(buf, w.q) == line[w.q..w.eq]
  {
    HasWordIs(line, c, w);
    assert IsEnd(c, w.eq);
    forall i | w.q <= i < w.eq
      ensures !IsEnd(c, i)
    {
      NoEndInside(line, c, w, i);
    }
    CStringIs(buf, w.q, w.eq);
    assert buf[w.q..w.eq] == line[w.q..w.eq];
  }

  lemma {:induction false} NoEndInside(line: string, c: Cmd, w: Span, i: nat)
    requires AllWords(line, c) && IsWord(line, w) && w.q <= i < w.eq
    ensures !IsEnd(c, i)
  {
    forall v | HasWord(c, v)
      ensures v.eq != i
    {
      HasWordIs(line, c, v);
    }
  }
}
