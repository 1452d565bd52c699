/** The recursive-descent parser of sh.c and nulterminate, which writes into the shared command buffer. */
module ShellParse {
  import opened ShellLex
  import opened ShellTree
  import opened ShellGrammar
  import opened ShellDecide

  // ---------------------------------------------------------------------------------------------
  // What a parse tree says about the text
  // ---------------------------------------------------------------------------------------------

  function SpanToken(s: Span): Token
  {
    Word(s.from, s.to)
  }

  function ArgTokens(args: seq<Span>): multiset<Token>
  {
    if args == [] then multiset{} else ArgTokens(args[..|args| - 1]) + multiset{SpanToken(args[|args| - 1])}
  }

  function RedirTokens(r: Redirection): multiset<Token>
  {
    multiset{Op(if r.fd == 0 then '<' else '>'), SpanToken(r.file)}
  }

  /** The tokens a tree stands for. */
  function Tokens(c: Cmd): multiset<Token>
  {
    match c
    case Exec(args) => ArgTokens(args)
    case Redir(c, r) => Tokens(c) + RedirTokens(r)
    case Pipe(l, r) => Tokens(l) + multiset{Op('|')} + Tokens(r)
    case List(l, r) => Tokens(l) + multiset{Op(';')} + Tokens(r)
    case Back(c) => Tokens(c) + multiset{Op('&')}
  }

  /** A word of the text between positions a and b. */
  ghost predicate SpanOk(t: seq<char>, s: Span, a: int, b: int)
  {
    a <= s.from && s.to <= b && IsWord(t, s.from, s.to)
  }

  /** Standard input from a file opened for reading, or standard output to one opened for writing or created. */
  predicate ModeOk(r: Redirection)
  {
    (r.fd == 0 && r.mode == 0) || (r.fd == 1 && r.mode == 0x001 + 0x200)
  }

  /** Arguments in the order of the text. */
  ghost predicate ArgsOk(t: seq<char>, args: seq<Span>, a: int, b: int)
  {
    && |args| < MAXARGS
    && (forall i :: 0 <= i < |args| ==> SpanOk(t, args[i], a, b))
    && (forall i, j :: 0 <= i < j < |args| ==> args[i].to <= args[j].from)
  }

  /**
    Every string of the tree is a word between a and b, the left of a pipe or list is left of the right, and of two
    redirections of a command the outer one, which the shell opens first, is right of the inner one.
  */
  ghost predicate CmdOk(t: seq<char>, c: Cmd, a: int, b: int)
  {
    match c
    case Exec(args) => ArgsOk(t, args, a, b)
    case Redir(c, r) =>
      && CmdOk(t, c, a, b) && SpanOk(t, r.file, a, b) && ModeOk(r)
      && (c.Redir? ==> c.r.file.to <= r.file.from)
    case Pipe(l, r) => exists m :: a <= m <= b && CmdOk(t, l, a, m) && CmdOk(t, r, m, b)
    case List(l, r) => exists m :: a <= m <= b && CmdOk(t, l, a, m) && CmdOk(t, r, m, b)
    case Back(c) => CmdOk(t, c, a, b)
  }

  lemma {:induction false} CmdWiden(t: seq<char>, c: Cmd, a: int, b: int, a': int, b': int)
    requires CmdOk(t, c, a, b) && a' <= a && b <= b'
    ensures CmdOk(t, c, a', b')
    decreases c
  {
    match c
    case Exec(args) =>
      forall i | 0 <= i < |args|
        ensures SpanOk(t, args[i], a', b')
      {
        assert SpanOk(t, args[i], a, b);
      }
    case Redir(c, r) => CmdWiden(t, c, a, b, a', b');
    case Pipe(l, r) =>
      var m :| a <= m <= b && CmdOk(t, l, a, m) && CmdOk(t, r, m, b);
      CmdWiden(t, l, a, m, a', m);
      CmdWiden(t, r, m, b, m, b');
    case List(l, r) =>
      var m :| a <= m <= b && CmdOk(t, l, a, m) && CmdOk(t, r, m, b);
      CmdWiden(t, l, a, m, a', m);
      CmdWiden(t, r, m, b, m, b');
    case Back(c) => CmdWiden(t, c, a, b, a', b');
  }

  /** c is what the text between p and pos says: the same tokens, and balanced parentheses. */
  ghost predicate Parsed(t: seq<char>, p: int, pos: int, c: Cmd)
  {
    && 0 <= p <= pos <= |t| && CmdOk(t, c, p, pos)
    && Toks(t, p) == Tokens(c) + Toks(t, pos) && Balance(t, p) == Balance(t, pos)
  }

  /** Positions where a word may start: not in the middle of one. */
  predicate Boundary(t: seq<char>, p: int)
  {
    0 <= p <= |t| && (p == 0 || p == |t| || !WordChar(t[p]) || !WordChar(t[p - 1]))
  }

  // ---------------------------------------------------------------------------------------------
  // Consuming one token
  // ---------------------------------------------------------------------------------------------

  lemma Associative(a: multiset<Token>, b: multiset<Token>, c: multiset<Token>)
    ensures (a + b) + c == a + (b + c)
  {
  }

  /** The same, with the last two exchanged first. */
  lemma Exchange(a: multiset<Token>, b: multiset<Token>, c: multiset<Token>)
    ensures (a + b) + c == (a + c) + b
  {
  }

  lemma TakeOp(t: seq<char>, p: int)
    requires 0 <= p <= |t| && Skip(t, p) < |t| && Symbol(t[Skip(t, p)]) && t[Skip(t, p)] != '(' && t[Skip(t, p)] != ')'
    ensures Toks(t, p) == multiset{Op(t[Skip(t, p)])} + Toks(t, After(t, p)) && Balance(t, p) == Balance(t, After(t, p))
  {
  }

  lemma TakeParen(t: seq<char>, p: int)
    requires 0 <= p <= |t| && Skip(t, p) < |t| && (t[Skip(t, p)] == '(' || t[Skip(t, p)] == ')')
    ensures Toks(t, p) == Toks(t, After(t, p))
    ensures Balance(t, p) == Balance(t, After(t, p)) + if t[Skip(t, p)] == '(' then 1 else -1
  {
  }

  lemma TakeWord(t: seq<char>, p: int)
    requires Boundary(t, p) && Skip(t, p) < |t| && Kind(t, Skip(t, p)) == 'a'
    ensures var q := Skip(t, p);
            SpanOk(t, Span(q, TokenEnd(t, q)), p, After(t, p))
              && Toks(t, p) == multiset{Word(q, TokenEnd(t, q))} + Toks(t, After(t, p))
    ensures Balance(t, p) == Balance(t, After(t, p))
  {
    WordRun(t, Skip(t, p));
    SkipBoundary(t, p);
  }

  // ---------------------------------------------------------------------------------------------
  // Redirections
  // ---------------------------------------------------------------------------------------------

  function RedirsTokens(rs: seq<Redirection>): multiset<Token>
  {
    if rs == [] then multiset{} else RedirsTokens(rs[..|rs| - 1]) + RedirTokens(rs[|rs| - 1])
  }

  /** Files named between a and b, in the order of the text. */
  ghost predicate RedirsOk(t: seq<char>, rs: seq<Redirection>, a: int, b: int)
  {
    && (forall i :: 0 <= i < |rs| ==> SpanOk(t, rs[i].file, a, b) && ModeOk(rs[i]))
    && (forall i, j :: 0 <= i < j < |rs| ==> rs[i].file.to <= rs[j].file.from)
  }

  lemma {:induction false} WrapTokens(c: Cmd, rs: seq<Redirection>)
    ensures Tokens(Wrap(c, rs)) == Tokens(c) + RedirsTokens(rs)
  {
    if rs != [] {
      WrapTokens(c, rs[..|rs| - 1]);
    }
  }

  lemma {:induction false} WrapOk(t: seq<char>, c: Cmd, rs: seq<Redirection>, a: int, b: int)
    requires CmdOk(t, c, a, b) && RedirsOk(t, rs, a, b) && (c.Redir? && rs != [] ==> c.r.file.to <= rs[0].file.from)
    ensures CmdOk(t, Wrap(c, rs), a, b)
  {
    if rs != [] {
      var n := |rs| - 1;
      WrapOk(t, c, rs[..n], a, b);
      if n > 0 {
        assert Wrap(c, rs[..n]).r == rs[n - 1];
      }
    }
  }

  lemma {:induction false} RedirsAppend(a: seq<Redirection>, b: seq<Redirection>)
    ensures RedirsTokens(a + b) == RedirsTokens(a) + RedirsTokens(b)
  {
    if b == [] {
      assert a + b == a;
    } else {
      var front, last := b[..|b| - 1], b[|b| - 1];
      RedirsAppend(a, front);
      assert (a + b)[..|a + b| - 1] == a + front && (a + b)[|a + b| - 1] == last;
      Associative(RedirsTokens(a), RedirsTokens(front), RedirTokens(last));
    }
  }

  /** What parseredirs has read between p and pos. */
  ghost predicate RedirsRead(t: seq<char>, p: int, pos: int, rs: seq<Redirection>)
  {
    && 0 <= p <= pos <= |t| && Boundary(t, pos) && RedirsOk(t, rs, p, pos) && Items(t, p, pos, [], rs)
    && Toks(t, p) == RedirsTokens(rs) + Toks(t, pos) && Balance(t, p) == Balance(t, pos)
  }

  /** An operator and a file name are one redirection. */
  lemma TakeRedir(t: seq<char>, s: int, r: Redirection, next: int)
    requires Boundary(t, s) && RedirAt(t, s, r, next)
    ensures s <= next && Toks(t, s) == RedirTokens(r) + Toks(t, next) && Balance(t, s) == Balance(t, next)
    ensures SpanOk(t, r.file, s, next) && ModeOk(r) && Boundary(t, next)
  {
    var w := After(t, s);
    TakeOp(t, s);
    AfterBoundary(t, s);
    TakeWord(t, w);
    AfterBoundary(t, w);
    Associative(multiset{Op(t[Skip(t, s)])}, multiset{SpanToken(r.file)}, Toks(t, After(t, w)));
  }

  lemma RedirsMore(t: seq<char>, rs: seq<Redirection>, r: Redirection, p: int, s: int, next: int)
    requires RedirsOk(t, rs, p, s) && SpanOk(t, r.file, s, next) && ModeOk(r) && p <= s <= next
    ensures RedirsOk(t, rs + [r], p, next)
  {
    var more := rs + [r];
    forall i | 0 <= i < |more|
      ensures SpanOk(t, more[i].file, p, next)
    {
      assert i < |rs| ==> SpanOk(t, rs[i].file, p, s);
    }
  }

  lemma RedirMore(t: seq<char>, p: int, s: int, rs: seq<Redirection>, r: Redirection, next: int)
    requires RedirsRead(t, p, s, rs) && RedirAt(t, s, r, next)
    ensures RedirsRead(t, p, next, rs + [r])
  {
    TakeRedir(t, s, r, next);
    ItemsRedir(t, p, s, next, [], rs, r);
    RedirsMore(t, rs, r, p, s, next);
    var more := rs + [r];
    assert more[..|rs|] == rs && RedirsTokens(more) == RedirsTokens(rs) + RedirTokens(r);
    Associative(RedirsTokens(rs), RedirTokens(r), Toks(t, next));
  }

  /** An operator and its file name (sh.c:381-394). */
  method GetRedir(t: seq<char>, s: int, ghost pos: int) returns (ok: bool, r: Redirection, next: int)
    requires Plain(t) && RedirOp(t, pos) && s == Skip(t, pos)
    ensures next <= |t| && if ok then RedirAt(t, pos, r, next) else !RedirNext(t, pos)
  {
    SkipTwice(t, pos);
    var tok, q, eq, w := Gettoken(t, s);
    var tok', q', eq', n := Gettoken(t, w);
    r := if tok == '<' then Redirection(Span(q', eq'), O_RDONLY, 0) else Redirection(Span(q', eq'), O_WRONLY_CREATE, 1);
    return tok' == 'a', r, n;
  }

  /** sh.c:375-398, collecting the redirections; it fails only at an operator without a file name behind it. */
  method Parseredirs(t: seq<char>, p: int) returns (ok: bool, rs: seq<Redirection>, pos: int)
    requires Plain(t) && Boundary(t, p)
    ensures RedirsRead(t, p, pos, rs)
    ensures if ok then !RedirOp(t, pos) else RedirOp(t, pos) && !RedirNext(t, pos)
  {
    rs, pos := [], p;
    while true
      invariant RedirsRead(t, p, pos, rs)
      decreases |t| - pos
    {
      var yes, s := Peek(t, pos, {'<', '>'});
      if !yes {
        return true, rs, pos;
      }
      var got, r, next := GetRedir(t, s, pos);
      if !got {
        return false, rs, pos;
      }
      RedirMore(t, p, pos, rs, r, next);
      rs, pos := rs + [r], next;
    }
  }

  // ---------------------------------------------------------------------------------------------
  // Simple commands
  // ---------------------------------------------------------------------------------------------

  /** What parseexec has read between p and pos. */
  ghost predicate ExecRead(t: seq<char>, p: int, pos: int, args: seq<Span>, rs: seq<Redirection>)
  {
    && 0 <= p <= pos <= |t| && Boundary(t, pos) && ArgsOk(t, args, p, pos) && RedirsOk(t, rs, p, pos)
    && Items(t, p, pos, args, rs)
    && Toks(t, p) == (ArgTokens(args) + RedirsTokens(rs)) + Toks(t, pos) && Balance(t, p) == Balance(t, pos)
  }

  lemma ExecStart(t: seq<char>, p: int, pos: int, rs: seq<Redirection>)
    requires RedirsRead(t, p, pos, rs)
    ensures ExecRead(t, p, pos, [], rs)
  {
    assert ArgTokens([]) == multiset{};
    assert multiset{} + RedirsTokens(rs) == RedirsTokens(rs);
  }

  lemma ExecArg(t: seq<char>, p: int, s: int, args: seq<Span>, rs: seq<Redirection>, a: Span)
    requires ExecRead(t, p, s, args, rs) && Skip(t, s) < |t| && Kind(t, Skip(t, s)) == 'a' && |args| + 1 < MAXARGS
    requires a == Span(Skip(t, s), TokenEnd(t, Skip(t, s)))
    ensures ExecRead(t, p, After(t, s), args + [a], rs)
  {
    var next, more := After(t, s), args + [a];
    ItemsWord(t, p, s, next, args, rs, a);
    TakeWord(t, s);
    AfterBoundary(t, s);
    ArgsMore(t, args, a, p, s, next);
    forall i | 0 <= i < |rs|
      ensures SpanOk(t, rs[i].file, p, next)
    {
      assert SpanOk(t, rs[i].file, p, s);
    }
    var w, rest, all := multiset{SpanToken(a)}, Toks(t, next), Toks(t, p);
    ArgCount(ArgTokens(args), RedirsTokens(rs), w, rest);
    assert more[..|args|] == args && ArgTokens(more) == ArgTokens(args) + w;
    assert all == (ArgTokens(more) + RedirsTokens(rs)) + rest;
  }

  lemma ArgsMore(t: seq<char>, args: seq<Span>, a: Span, p: int, s: int, next: int)
    requires ArgsOk(t, args, p, s) && |args| + 1 < MAXARGS && SpanOk(t, a, s, next) && p <= s <= next
    ensures ArgsOk(t, args + [a], p, next)
  {
    var more := args + [a];
    forall i | 0 <= i < |more|
      ensures SpanOk(t, more[i], p, next)
    {
      assert i < |args| ==> SpanOk(t, args[i], p, s);
    }
    forall i, j | 0 <= i < j < |more|
      ensures more[i].to <= more[j].from
    {
      assert SpanOk(t, args[i], p, s);
    }
  }

  lemma ArgCount(a: multiset<Token>, r: multiset<Token>, w: multiset<Token>, rest: multiset<Token>)
    ensures (a + r) + (w + rest) == ((a + w) + r) + rest
  {
    Associative(a + r, w, rest);
    Exchange(a, r, w);
  }

  lemma RedirsJoin(t: seq<char>, rs: seq<Redirection>, rs': seq<Redirection>, p: int, s: int, pos: int)
    requires RedirsOk(t, rs, p, s) && RedirsOk(t, rs', s, pos) && p <= s <= pos
    ensures RedirsOk(t, rs + rs', p, pos)
  {
    var more := rs + rs';
    forall i | 0 <= i < |more|
      ensures SpanOk(t, more[i].file, p, pos)
    {
      assert if i < |rs| then SpanOk(t, rs[i].file, p, s) else SpanOk(t, rs'[i - |rs|].file, s, pos);
    }
    forall i, j | 0 <= i < j < |more|
      ensures more[i].file.to <= more[j].file.from
    {
      if i < |rs| <= j {
        assert SpanOk(t, rs[i].file, p, s) && SpanOk(t, rs'[j - |rs|].file, s, pos);
      }
    }
  }

  lemma ArgsWiden(t: seq<char>, args: seq<Span>, p: int, s: int, pos: int)
    requires ArgsOk(t, args, p, s) && s <= pos
    ensures ArgsOk(t, args, p, pos)
  {
    forall i | 0 <= i < |args|
      ensures SpanOk(t, args[i], p, pos)
    {
      assert SpanOk(t, args[i], p, s);
    }
  }

  lemma ExecRedirs(t: seq<char>, p: int, s: int, pos: int, args: seq<Span>, rs: seq<Redirection>, rs': seq<Redirection>)
    requires ExecRead(t, p, s, args, rs) && RedirsRead(t, s, pos, rs')
    ensures ExecRead(t, p, pos, args, rs + rs')
  {
    ItemsRedirs(t, p, s, pos, args, rs, rs');
    RedirsAppend(rs, rs');
    Associative(ArgTokens(args), RedirsTokens(rs), RedirsTokens(rs'));
    Associative(ArgTokens(args) + RedirsTokens(rs), RedirsTokens(rs'), Toks(t, pos));
    RedirsJoin(t, rs, rs', p, s, pos);
    ArgsWiden(t, args, p, s, pos);
  }

  /** Skipping white space behind a command. */
  lemma SkipBoundary(t: seq<char>, p: int)
    requires Boundary(t, p)
    ensures Boundary(t, Skip(t, p))
  {
    var n := Skip(t, p);
    SkipsSpaces(t, p);
    if p < n {
      assert Space(t[n - 1]);
    }
  }

  lemma ExecParsed(t: seq<char>, p: int, pos: int, args: seq<Span>, rs: seq<Redirection>, end: int)
    requires ExecRead(t, p, pos, args, rs) && end == Skip(t, pos)
    ensures Parsed(t, p, end, Wrap(Exec(args), rs)) && Boundary(t, end)
  {
    var c := Wrap(Exec(args), rs);
    WrapTokens(Exec(args), rs);
    WrapOk(t, Exec(args), rs, p, pos);
    CmdWiden(t, c, p, pos, p, end);
    SkipTwice(t, pos);
    SkipBoundary(t, pos);
  }

  /** A word of a command and the redirections behind it (sh.c:433-442). */
  method ParseArg(t: seq<char>, s: int, ghost p: int, pos: int, args: seq<Span>, rs: seq<Redirection>)
    returns (ok: bool, args': seq<Span>, rs': seq<Redirection>, next: int)
    requires Plain(t) && ExecRead(t, p, pos, args, rs) && s == Skip(t, pos) && !EndsCommand(t, pos) && !RedirOp(t, pos)
    ensures ExecRead(t, p, next, args', rs') && if ok then pos < next else pos <= next
    ensures if ok then !RedirOp(t, next) else Stuck(t, next, args')
  {
    SkipTwice(t, pos);
    var tok, q, eq, n := Gettoken(t, s);
    if tok != 'a' || |args| + 1 >= MAXARGS {
      return false, args, rs, pos;
    }
    ExecArg(t, p, pos, args, rs, Span(q, eq));
    args' := args + [Span(q, eq)];
    var more;
    ok, more, next := Parseredirs(t, n);
    ExecRedirs(t, p, n, next, args', rs, more);
    rs' := rs + more;
    if !ok {
      NoFileStuck(t, next, args');
    }
  }

  /** The loop of parseexec (sh.c:430-446). */
  method ParseArgs(t: seq<char>, p: int) returns (r: Result, ghost m: int, args: seq<Span>, rs: seq<Redirection>)
    requires Plain(t) && Boundary(t, p)
    ensures r.Ok? ==> Parsed(t, p, r.pos, r.cmd) && Boundary(t, r.pos)
    ensures Items(t, p, m, args, rs)
    ensures if r.Ok? then EndsCommand(t, m) && r == Ok(Wrap(Exec(args), rs), Skip(t, m)) else Stuck(t, m, args)
  {
    var ok, pos;
    r, args := Panic, [];
    ok, rs, pos := Parseredirs(t, p);
    ExecStart(t, p, pos, rs);
    if !ok {
      NoFileStuck(t, pos, args);
    }
    while ok
      invariant ExecRead(t, p, pos, args, rs) && r == Panic
      invariant if ok then !RedirOp(t, pos) else Stuck(t, pos, args)
      decreases |t| - pos, ok
    {
      var yes, s := Peek(t, pos, {'|', ')', '&', ';'});
      if yes || s == |t| {
        ExecParsed(t, p, pos, args, rs, s);
        return Ok(Wrap(Exec(args), rs), s), pos, args, rs;
      }
      ok, args, rs, pos := ParseArg(t, s, p, pos, args, rs);
    }
    m := pos;
  }

  // ---------------------------------------------------------------------------------------------
  // Pipes, lists, background commands and blocks
  // ---------------------------------------------------------------------------------------------

  /** sh.c:416-447. */
  method Parseexec(t: seq<char>, p: int) returns (r: Result)
    requires Plain(t) && Boundary(t, p)
    ensures r.Ok? ==> Parsed(t, p, r.pos, r.cmd) && Boundary(t, r.pos) && Command(t, p, r.pos, r.cmd)
    ensures CommandOnly(t, p, r)
    decreases |t| - p, 1
  {
    var yes, s := Peek(t, p, {'('});
    if yes {
      r := Parseblock(t, p);
      return;
    }
    SkipBoundary(t, p);
    var args, rs; ghost var m;
    r, m, args, rs := ParseArgs(t, s);
    SimpleDecided(t, p, r, m, args, rs);
  }

  /** What ParseArgs has read behind white space is a command, and the only one. */
  lemma SimpleDecided(t: seq<char>, p: int, r: Result, m: int, args: seq<Span>, rs: seq<Redirection>)
    requires 0 <= p <= |t| && !Open(t, p) && Items(t, Skip(t, p), m, args, rs)
      && (r.Ok? ==> Parsed(t, Skip(t, p), r.pos, r.cmd))
    requires if r.Ok? then EndsCommand(t, m) && r == Ok(Wrap(Exec(args), rs), Skip(t, m)) else Stuck(t, m, args)
    ensures r.Ok? ==> Parsed(t, p, r.pos, r.cmd) && Command(t, p, r.pos, r.cmd)
    ensures CommandOnly(t, p, r)
  {
    var s := Skip(t, p);
    SkipTwice(t, p);
    if r.Ok? {
      CmdWiden(t, r.cmd, s, r.pos, p, r.pos);
      SkipTwice(t, m);
      assert Simple(t, p, m, args, rs) && Gap(t, m, r.pos);
      SimpleOnly(t, p, m, args, rs);
    } else {
      SimpleNone(t, p, m, args, rs);
    }
  }

  lemma BlockParsed(t: seq<char>, p: int, a: int, b: int, e: int, c: Cmd, rs: seq<Redirection>)
    requires Boundary(t, p) && Skip(t, p) < |t| && t[Skip(t, p)] == '(' && a == After(t, p) && Parsed(t, a, b, c)
    requires Skip(t, b) < |t| && t[Skip(t, b)] == ')' && RedirsRead(t, After(t, b), e, rs) && Line(t, a, b, c)
    ensures Parsed(t, p, e, Wrap(c, rs)) && Command(t, p, e, Wrap(c, rs))
  {
    assert OpAt(t, b, ')', After(t, b));
    TakeParen(t, p);
    TakeParen(t, b);
    Associative(Tokens(c), RedirsTokens(rs), Toks(t, e));
    CmdWiden(t, c, a, b, p, e);
    forall i | 0 <= i < |rs|
      ensures SpanOk(t, rs[i].file, p, e)
    {
      assert SpanOk(t, rs[i].file, After(t, b), e);
    }
    WrapOk(t, c, rs, p, e);
    WrapTokens(c, rs);
  }

  /** The closing parenthesis and the redirections of a block (sh.c:409-413). */
  method ParseBlockEnd(t: seq<char>, ghost p: int, ghost a: int, b: int, c: Cmd) returns (r: Result)
    requires Plain(t) && Boundary(t, p) && Open(t, p) && a == After(t, p)
    requires Parsed(t, a, b, c) && Boundary(t, b) && Line(t, a, b, c) && LineOnly(t, a, Ok(c, b))
    ensures r.Ok? ==> Parsed(t, p, r.pos, r.cmd) && Boundary(t, r.pos) && Command(t, p, r.pos, r.cmd)
    ensures CommandOnly(t, p, r)
  {
    var yes, s := Peek(t, b, {')'});
    if !yes {
      BlockNoClose(t, p, Ok(c, b));
      return Panic;
    }
    SkipTwice(t, b);
    AfterBoundary(t, b);
    var tok, q, eq, next := Gettoken(t, s);
    var ok, rs, e := Parseredirs(t, next);
    if !ok {
      BlockNoFile(t, p, b, next, e, c, rs);
      return Panic;
    }
    BlockParsed(t, p, a, b, e, c, rs);
    BlockOnly(t, p, b, next, e, c, rs);
    return Ok(Wrap(c, rs), e);
  }

  /** sh.c:400-414, called where there is a parenthesis. */
  method Parseblock(t: seq<char>, p: int) returns (r: Result)
    requires Plain(t) && Boundary(t, p)
    ensures r.Ok? ==> Parsed(t, p, r.pos, r.cmd) && Boundary(t, r.pos) && Command(t, p, r.pos, r.cmd)
    ensures if Open(t, p) then CommandOnly(t, p, r) else r.Panic?
    decreases |t| - p, 0
  {
    var yes, s := Peek(t, p, {'('});
    if !yes {
      return Panic;
    }
    SkipTwice(t, p);
    AfterBoundary(t, p);
    var tok, q, eq, a := Gettoken(t, s);
    r := Parseline(t, a);
    if r.Ok? {
      r := ParseBlockEnd(t, p, a, r.pos, r.cmd);
    } else {
      BlockNoLine(t, p);
    }
  }

  /** The tokens of a command, an operator, and another command. */
  lemma BothTokens(t: seq<char>, p: int, a: int, e: int, left: Cmd, right: Cmd, op: char)
    requires Parsed(t, p, a, left) && Skip(t, a) < |t| && t[Skip(t, a)] == op && (op == '|' || op == ';')
      && Parsed(t, After(t, a), e, right)
    ensures Toks(t, p) == ((Tokens(left) + multiset{Op(op)}) + Tokens(right)) + Toks(t, e)
      && Balance(t, p) == Balance(t, e)
    ensures CmdOk(t, right, a, e)
  {
    TakeOp(t, a);
    CmdWiden(t, right, After(t, a), e, a, e);
    var o := multiset{Op(op)};
    Associative(o, Tokens(right), Toks(t, e));
    Associative(Tokens(left), o + Tokens(right), Toks(t, e));
    Associative(Tokens(left), o, Tokens(right));
  }

  lemma PipeParsed(t: seq<char>, p: int, a: int, e: int, left: Cmd, right: Cmd)
    requires Parsed(t, p, a, left) && Skip(t, a) < |t| && t[Skip(t, a)] == '|' && Parsed(t, After(t, a), e, right)
    requires Command(t, p, a, left) && Pipeline(t, After(t, a), e, right)
    ensures Parsed(t, p, e, Pipe(left, right)) && Pipeline(t, p, e, Pipe(left, right))
  {
    assert OpAt(t, a, '|', After(t, a));
    BothTokens(t, p, a, e, left, right, '|');
    assert CmdOk(t, left, p, a) && CmdOk(t, right, a, e);
  }

  lemma ListParsed(t: seq<char>, p: int, a: int, e: int, left: Cmd, right: Cmd)
    requires Parsed(t, p, a, left) && Skip(t, a) < |t| && t[Skip(t, a)] == ';' && Parsed(t, After(t, a), e, right)
    requires Backs(t, p, a, left) && Line(t, After(t, a), e, right)
    ensures Parsed(t, p, e, List(left, right)) && Line(t, p, e, List(left, right))
  {
    assert OpAt(t, a, ';', After(t, a));
    BothTokens(t, p, a, e, left, right, ';');
    assert CmdOk(t, left, p, a) && CmdOk(t, right, a, e);
  }

  /** The rest of a pipeline behind its first command (sh.c:368-371). */
  method ParsePipeEnd(t: seq<char>, p: int, a: int, left: Cmd) returns (r: Result)
    requires Plain(t) && Parsed(t, p, a, left) && Boundary(t, a) && Command(t, p, a, left)
      && CommandOnly(t, p, Ok(left, a))
    ensures r.Ok? ==> Parsed(t, p, r.pos, r.cmd) && Boundary(t, r.pos) && Pipeline(t, p, r.pos, r.cmd)
    ensures PipelineOnly(t, p, r)
    decreases |t| - p, 2
  {
    var yes, s := Peek(t, a, {'|'});
    if !yes {
      PipelineDone(t, p, Ok(left, a));
      return Ok(left, a);
    }
    SkipTwice(t, a);
    AfterBoundary(t, a);
    var tok, q, eq, next := Gettoken(t, s);
    r := Parsepipe(t, next);
    PipelineMore(t, p, left, a, next, r);
    if r.Ok? {
      PipeParsed(t, p, a, r.pos, left, r.cmd);
    }
    r := Joined(left, '|', r);
  }

  /** sh.c:362-373. */
  method Parsepipe(t: seq<char>, p: int) returns (r: Result)
    requires Plain(t) && Boundary(t, p)
    ensures r.Ok? ==> Parsed(t, p, r.pos, r.cmd) && Boundary(t, r.pos) && Pipeline(t, p, r.pos, r.cmd)
    ensures PipelineOnly(t, p, r)
    decreases |t| - p, 3
  {
    r := Parseexec(t, p);
    if r.Ok? {
      r := ParsePipeEnd(t, p, r.pos, r.cmd);
    } else {
      PipelineDone(t, p, Panic);
    }
  }

  lemma BackParsed(t: seq<char>, p: int, a: int, c: Cmd)
    requires Parsed(t, p, a, c) && Skip(t, a) < |t| && t[Skip(t, a)] == '&' && Backs(t, p, a, c)
    ensures Parsed(t, p, After(t, a), Back(c)) && Boundary(t, After(t, a)) && Backs(t, p, After(t, a), Back(c))
    ensures BackRun(t, c, a) == BackRun(t, Back(c), After(t, a))
  {
    assert OpAt(t, a, '&', After(t, a));
    TakeOp(t, a);
    AfterBoundary(t, a);
    CmdWiden(t, c, p, a, p, After(t, a));
    Associative(Tokens(c), multiset{Op('&')}, Toks(t, After(t, a)));
  }

  /** The loop over "&" in parseline (sh.c:351-354). */
  method ParseBacks(t: seq<char>, p: int, a0: int, c0: Cmd) returns (a: int, c: Cmd)
    requires Plain(t) && Parsed(t, p, a0, c0) && Boundary(t, a0) && Pipeline(t, p, a0, c0)
    ensures Parsed(t, p, a, c) && Boundary(t, a) && Backs(t, p, a, c) && a0 <= a && BackRun(t, c0, a0) == Ok(c, a)
  {
    a, c := a0, c0;
    while true
      invariant Parsed(t, p, a, c) && Boundary(t, a) && Backs(t, p, a, c) && a0 <= a
        && BackRun(t, c0, a0) == BackRun(t, c, a)
      decreases |t| - a
    {
      var yes, s := Peek(t, a, {'&'});
      if !yes {
        return;
      }
      BackParsed(t, p, a, c);
      SkipTwice(t, a);
      var tok, q, eq, next := Gettoken(t, s);
      a, c := next, Back(c);
    }
  }

  /** The rest of a line behind its background commands (sh.c:355-358). */
  method ParseLineEnd(t: seq<char>, p: int, a: int, left: Cmd) returns (r: Result)
    requires Plain(t) && Parsed(t, p, a, left) && Boundary(t, a) && Backs(t, p, a, left) && BacksOnly(t, p, Ok(left, a))
    ensures r.Ok? ==> Parsed(t, p, r.pos, r.cmd) && Boundary(t, r.pos) && Line(t, p, r.pos, r.cmd)
    ensures LineOnly(t, p, r)
    decreases |t| - p, 4
  {
    var yes, s := Peek(t, a, {';'});
    if !yes {
      LineDone(t, p, Ok(left, a));
      return Ok(left, a);
    }
    SkipTwice(t, a);
    AfterBoundary(t, a);
    var tok, q, eq, next := Gettoken(t, s);
    r := Parseline(t, next);
    LineMore(t, p, left, a, next, r);
    if r.Ok? {
      ListParsed(t, p, a, r.pos, left, r.cmd);
    }
    r := Joined(left, ';', r);
  }

  /** sh.c:345-360. */
  method Parseline(t: seq<char>, p: int) returns (r: Result)
    requires Plain(t) && Boundary(t, p)
    ensures r.Ok? ==> Parsed(t, p, r.pos, r.cmd) && Boundary(t, r.pos) && Line(t, p, r.pos, r.cmd)
    ensures LineOnly(t, p, r)
    decreases |t| - p, 5
  {
    r := Parsepipe(t, p);
    BacksAll(t, p, r);
    if r.Ok? {
      var a, c := ParseBacks(t, p, r.pos, r.cmd);
      r := ParseLineEnd(t, p, a, c);
    } else {
      LineDone(t, p, Panic);
    }
  }
}
