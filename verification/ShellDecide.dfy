/**
  The grammar of the shell is unambiguous, up to what may follow each kind of phrase: one reading of the words
  and redirections of a command, and then one tree for each command, pipeline and line.  Each `...Only` predicate
  says that a parser's answer is the only one: every derivation that ends before a token that may follow is the
  tree returned, and there is none after a panic.
*/
module ShellDecide {
  import opened ShellLex
  import opened ShellTree
  import opened ShellGrammar

  // ---------------------------------------------------------------------------------------------
  // Words and redirections, read from left to right
  // ---------------------------------------------------------------------------------------------

  predicate WordNext(t: seq<char>, m: int)
  {
    0 <= m <= |t| && Skip(t, m) < |t| && Kind(t, Skip(t, m)) == 'a'
  }

  predicate RedirOp(t: seq<char>, m: int)
  {
    0 <= m <= |t| && Skip(t, m) < |t| && (t[Skip(t, m)] == '<' || t[Skip(t, m)] == '>')
  }

  predicate RedirNext(t: seq<char>, m: int)
  {
    RedirOp(t, m) && WordNext(t, After(t, m))
  }

  function WordHere(t: seq<char>, m: int): Span
    requires WordNext(t, m)
  {
    Span(Skip(t, m), TokenEnd(t, Skip(t, m)))
  }

  function RedirHere(t: seq<char>, m: int): Redirection
    requires RedirNext(t, m)
  {
    var file := WordHere(t, After(t, m));
    if t[Skip(t, m)] == '<' then Redirection(file, O_RDONLY, 0) else Redirection(file, O_WRONLY_CREATE, 1)
  }

  datatype Reading = Reading(pos: int, args: seq<Span>, rs: seq<Redirection>)

  /** Read words and redirections as long as there are any. */
  function Run(t: seq<char>, s: Reading): (r: Reading)
    requires 0 <= s.pos <= |t|
    ensures |s.args| <= |r.args|
    decreases |t| - s.pos
  {
    if WordNext(t, s.pos) then Run(t, Reading(After(t, s.pos), s.args + [WordHere(t, s.pos)], s.rs))
    else if RedirNext(t, s.pos) then Run(t, Reading(After(t, After(t, s.pos)), s.args, s.rs + [RedirHere(t, s.pos)]))
    else s
  }

  lemma RunWord(t: seq<char>, m: int, args: seq<Span>, rs: seq<Redirection>, a: Span, e: int)
    requires WordAt(t, m, a, e)
    ensures Run(t, Reading(m, args, rs)) == Run(t, Reading(e, args + [a], rs))
  {
    assert a == WordHere(t, m);
  }

  lemma RunRedir(t: seq<char>, m: int, args: seq<Span>, rs: seq<Redirection>, r: Redirection, e: int)
    requires RedirAt(t, m, r, e)
    ensures Run(t, Reading(m, args, rs)) == Run(t, Reading(e, args, rs + [r]))
  {
    assert r == RedirHere(t, m);
  }

  /** Every derivation of items is a beginning of that reading. */
  lemma {:induction false} ItemsRun(t: seq<char>, p: int, e: int, args: seq<Span>, rs: seq<Redirection>)
    requires 0 <= p <= |t| && Items(t, p, e, args, rs)
    ensures 0 <= e <= |t| && Run(t, Reading(p, [], [])) == Run(t, Reading(e, args, rs))
    decreases |args| + |rs|
  {
    if EndInWord(t, p, e, args, rs) {
      var front, last, m := LastWord(t, p, e, args, rs);
      ItemsRun(t, p, m, front, rs);
      RunWord(t, m, front, rs, last, e);
    } else if EndInRedir(t, p, e, args, rs) {
      var front, last, m := LastRedir(t, p, e, args, rs);
      ItemsRun(t, p, m, args, front);
      RunRedir(t, m, args, front, last, e);
    }
  }

  // ---------------------------------------------------------------------------------------------
  // What may follow
  // ---------------------------------------------------------------------------------------------

  /** The next token from e on is the end of the text or one of the operators. */
  predicate Before(t: seq<char>, e: int, ops: set<char>)
  {
    0 <= e <= |t| && (Skip(t, e) == |t| || t[Skip(t, e)] in ops)
  }

  predicate EndsCommand(t: seq<char>, e: int)
  {
    Before(t, e, {'|', ')', '&', ';'})
  }

  predicate EndsPipeline(t: seq<char>, e: int)
  {
    Before(t, e, {')', '&', ';'})
  }

  predicate EndsBacks(t: seq<char>, e: int)
  {
    Before(t, e, {')', ';'})
  }

  predicate EndsLine(t: seq<char>, e: int)
  {
    Before(t, e, {')'})
  }

  /** Every command has fewer than MAXARGS arguments. */
  predicate Short(c: Cmd)
  {
    match c
    case Exec(args) => |args| < MAXARGS
    case Redir(c, _) => Short(c)
    case Pipe(l, r) => Short(l) && Short(r)
    case List(l, r) => Short(l) && Short(r)
    case Back(c) => Short(c)
  }

  lemma {:induction false} WrapShort(c: Cmd, rs: seq<Redirection>)
    ensures Short(Wrap(c, rs)) <==> Short(c)
  {
    if rs != [] {
      WrapShort(c, rs[..|rs| - 1]);
    }
  }

  // ---------------------------------------------------------------------------------------------
  // Answers that are the only ones
  // ---------------------------------------------------------------------------------------------

  /** The answer r is the tree c, read up to e. */
  predicate Is(t: seq<char>, r: Result, e: int, c: Cmd)
  {
    r.Ok? && r.cmd == c && 0 <= e <= |t| && 0 <= r.pos <= |t| && Skip(t, r.pos) == Skip(t, e)
  }

  ghost predicate CommandOnly(t: seq<char>, p: int, r: Result)
  {
    forall e, c :: Command(t, p, e, c) && EndsCommand(t, e) && Short(c) ==> Is(t, r, e, c)
  }

  ghost predicate PipelineOnly(t: seq<char>, p: int, r: Result)
  {
    forall e, c :: Pipeline(t, p, e, c) && EndsPipeline(t, e) && Short(c) ==> Is(t, r, e, c)
  }

  ghost predicate BacksOnly(t: seq<char>, p: int, r: Result)
  {
    forall e, c :: Backs(t, p, e, c) && EndsBacks(t, e) && Short(c) ==> Is(t, r, e, c)
  }

  ghost predicate LineOnly(t: seq<char>, p: int, r: Result)
  {
    forall e, c :: Line(t, p, e, c) && EndsLine(t, e) && Short(c) ==> Is(t, r, e, c)
  }

  // ---------------------------------------------------------------------------------------------
  // Simple commands
  // ---------------------------------------------------------------------------------------------

  predicate Open(t: seq<char>, p: int)
  {
    0 <= p <= |t| && Skip(t, p) < |t| && t[Skip(t, p)] == '('
  }

  /** Nothing can follow the items read so far that would complete a command. */
  predicate Stuck(t: seq<char>, m: int, args: seq<Span>)
  {
    0 <= m <= |t| && if WordNext(t, m) then |args| + 1 >= MAXARGS else !RedirNext(t, m) && !EndsCommand(t, m)
  }

  lemma NoFileStuck(t: seq<char>, m: int, args: seq<Span>)
    requires RedirOp(t, m) && !RedirNext(t, m)
    ensures Stuck(t, m, args)
  {
  }

  lemma StopsAtEnd(t: seq<char>, s: Reading)
    requires EndsCommand(t, s.pos)
    ensures Run(t, s) == s
  {
  }

  /** A command that does not start with a parenthesis is what Run reads. */
  lemma SimpleRun(t: seq<char>, p: int, e: int, c: Cmd)
    requires 0 <= p <= |t| && Command(t, p, e, c) && !Open(t, p) && EndsCommand(t, e)
    ensures var s := Run(t, Reading(Skip(t, p), [], []));
            c == Wrap(Exec(s.args), s.rs) && 0 <= s.pos <= |t| && Skip(t, s.pos) == Skip(t, e)
  {
    var args, rs, m :| Simple(t, p, m, args, rs) && Gap(t, m, e) && c == Wrap(Exec(args), rs);
    ItemsRun(t, Skip(t, p), m, args, rs);
    StopsAtEnd(t, Reading(m, args, rs));
  }

  lemma SimpleOnly(t: seq<char>, p: int, m: int, args: seq<Span>, rs: seq<Redirection>)
    requires 0 <= p <= |t| && !Open(t, p) && Items(t, Skip(t, p), m, args, rs) && EndsCommand(t, m)
    ensures CommandOnly(t, p, Ok(Wrap(Exec(args), rs), Skip(t, m)))
  {
    ItemsRun(t, Skip(t, p), m, args, rs);
    StopsAtEnd(t, Reading(m, args, rs));
    SkipTwice(t, m);
    forall e, c | Command(t, p, e, c) && EndsCommand(t, e) && Short(c)
      ensures Is(t, Ok(Wrap(Exec(args), rs), Skip(t, m)), e, c)
    {
      SimpleRun(t, p, e, c);
    }
  }

  lemma StuckRun(t: seq<char>, m: int, args: seq<Span>, rs: seq<Redirection>)
    requires Stuck(t, m, args)
    ensures var s := Run(t, Reading(m, args, rs));
            |s.args| >= MAXARGS || !EndsCommand(t, s.pos)
  {
  }

  lemma SimpleNone(t: seq<char>, p: int, m: int, args: seq<Span>, rs: seq<Redirection>)
    requires 0 <= p <= |t| && !Open(t, p) && Items(t, Skip(t, p), m, args, rs) && Stuck(t, m, args)
    ensures CommandOnly(t, p, Panic)
  {
    ItemsRun(t, Skip(t, p), m, args, rs);
    StuckRun(t, m, args, rs);
    var s := Run(t, Reading(m, args, rs));
    forall e, c | Command(t, p, e, c) && EndsCommand(t, e)
      ensures !Short(c)
    {
      SimpleRun(t, p, e, c);
      WrapShort(Exec(s.args), s.rs);
    }
  }

  // ---------------------------------------------------------------------------------------------
  // Blocks
  // ---------------------------------------------------------------------------------------------

  /** A command that starts with a parenthesis is a block, whose redirections are what Run reads. */
  lemma BlockRun(t: seq<char>, p: int, e: int, c: Cmd) returns (b: int, inner: Cmd, n: int, rs: seq<Redirection>)
    requires Open(t, p) && Command(t, p, e, c) && EndsCommand(t, e) && Short(c)
    ensures Line(t, After(t, p), b, inner) && OpAt(t, b, ')', n) && c == Wrap(inner, rs) && EndsLine(t, b)
      && Short(inner)
    ensures 0 <= n <= |t| && Run(t, Reading(n, [], [])) == Reading(e, [], rs)
  {
    b, inner, n, rs :| Line(t, After(t, p), b, inner) && OpAt(t, b, ')', n) && Items(t, n, e, [], rs)
      && c == Wrap(inner, rs);
    WrapShort(inner, rs);
    ItemsRun(t, n, e, [], rs);
    StopsAtEnd(t, Reading(e, [], rs));
  }

  lemma BlockOnly(t: seq<char>, p: int, b: int, n: int, m: int, inner: Cmd, rs: seq<Redirection>)
    requires Open(t, p) && LineOnly(t, After(t, p), Ok(inner, b)) && OpAt(t, b, ')', n)
    requires Items(t, n, m, [], rs) && !RedirOp(t, m)
    ensures CommandOnly(t, p, Ok(Wrap(inner, rs), m))
  {
    ItemsRun(t, n, m, [], rs);
    forall e, c | Command(t, p, e, c) && EndsCommand(t, e) && Short(c)
      ensures Is(t, Ok(Wrap(inner, rs), m), e, c)
    {
      var b', inner', n', rs' := BlockRun(t, p, e, c);
      assert Is(t, Ok(inner, b), b', inner');
      SkipTwice(t, b);
      SkipTwice(t, b');
      assert n' == n;
      assert Run(t, Reading(m, [], rs)) == Reading(e, [], rs');
      WordAdds(t, m, rs);
    }
  }

  lemma WordAdds(t: seq<char>, m: int, rs: seq<Redirection>)
    requires 0 <= m <= |t| && !RedirOp(t, m)
    ensures Run(t, Reading(m, [], rs)).args == [] ==> Run(t, Reading(m, [], rs)) == Reading(m, [], rs)
  {
    if WordNext(t, m) {
      assert |Run(t, Reading(After(t, m), [WordHere(t, m)], rs)).args| >= 1;
      assert [] + [WordHere(t, m)] == [WordHere(t, m)];
    }
  }

  /** A block whose line cannot be read. */
  lemma BlockNoLine(t: seq<char>, p: int)
    requires Open(t, p) && LineOnly(t, After(t, p), Panic)
    ensures CommandOnly(t, p, Panic)
  {
    forall e, c | Command(t, p, e, c) && EndsCommand(t, e) && Short(c)
      ensures false
    {
      var b, inner, n, rs := BlockRun(t, p, e, c);
    }
  }

  /** A block without its closing parenthesis. */
  lemma BlockNoClose(t: seq<char>, p: int, r: Result)
    requires Open(t, p) && r.Ok? && LineOnly(t, After(t, p), r) && 0 <= r.pos <= |t|
      && !OpAt(t, r.pos, ')', After(t, r.pos))
    ensures CommandOnly(t, p, Panic)
  {
    forall e, c | Command(t, p, e, c) && EndsCommand(t, e) && Short(c)
      ensures false
    {
      var b, inner, n, rs := BlockRun(t, p, e, c);
    }
  }

  /** A block with an operator that has no file behind it. */
  lemma BlockNoFile(t: seq<char>, p: int, b: int, n: int, m: int, inner: Cmd, rs: seq<Redirection>)
    requires Open(t, p) && LineOnly(t, After(t, p), Ok(inner, b)) && OpAt(t, b, ')', n)
    requires Items(t, n, m, [], rs) && RedirOp(t, m) && !RedirNext(t, m)
    ensures CommandOnly(t, p, Panic)
  {
    ItemsRun(t, n, m, [], rs);
    StuckRun(t, m, [], rs);
    assert Run(t, Reading(m, [], rs)).pos == m;
    forall e, c | Command(t, p, e, c) && EndsCommand(t, e) && Short(c)
      ensures false
    {
      var b', inner', n', rs' := BlockRun(t, p, e, c);
    }
  }

  // ---------------------------------------------------------------------------------------------
  // Pipelines, background commands and lists
  // ---------------------------------------------------------------------------------------------

  /** The answer for a left side, an operator and a right side. */
  function Joined(left: Cmd, op: char, r: Result): Result
  {
    if r.Panic? then Panic else Ok(if op == '|' then Pipe(left, r.cmd) else List(left, r.cmd), r.pos)
  }

  lemma PipelineDone(t: seq<char>, p: int, r: Result)
    requires CommandOnly(t, p, r) && (r.Ok? ==> 0 <= r.pos <= |t| && !OpAt(t, r.pos, '|', After(t, r.pos)))
    ensures PipelineOnly(t, p, r)
  {
    forall e, c | Pipeline(t, p, e, c) && EndsPipeline(t, e) && Short(c)
      ensures Is(t, r, e, c)
    {
      if !Command(t, p, e, c) {
        var a, b :| OpAt(t, a, '|', b) && p < b && Command(t, p, a, c.left) && Pipeline(t, b, e, c.right);
        assert false;
      }
    }
  }

  lemma PipelineMore(t: seq<char>, p: int, left: Cmd, a: int, next: int, r: Result)
    requires CommandOnly(t, p, Ok(left, a)) && OpAt(t, a, '|', next) && PipelineOnly(t, next, r)
    ensures PipelineOnly(t, p, Joined(left, '|', r))
  {
    forall e, c | Pipeline(t, p, e, c) && EndsPipeline(t, e) && Short(c)
      ensures Is(t, Joined(left, '|', r), e, c)
    {
      if Command(t, p, e, c) {
        assert false;
      } else {
        var a', b :| OpAt(t, a', '|', b) && p < b && Command(t, p, a', c.left) && Pipeline(t, b, e, c.right);
        assert Is(t, Ok(left, a), a', c.left);
        SkipTwice(t, a);
        SkipTwice(t, a');
        assert Is(t, r, e, c.right);
      }
    }
  }

  /** Read "&" as long as there are any. */
  function BackRun(t: seq<char>, c: Cmd, a: int): (r: Result)
    requires 0 <= a <= |t|
    ensures r.Ok? && 0 <= r.pos <= |t|
    decreases |t| - a
  {
    if OpAt(t, a, '&', After(t, a)) then BackRun(t, Back(c), After(t, a)) else Ok(c, a)
  }

  lemma BackRunSkips(t: seq<char>, c: Cmd, a: int, b: int)
    requires 0 <= a <= |t| && 0 <= b <= |t| && Skip(t, a) == Skip(t, b)
    ensures BackRun(t, c, a).cmd == BackRun(t, c, b).cmd
      && Skip(t, BackRun(t, c, a).pos) == Skip(t, BackRun(t, c, b).pos)
  {
    SkipTwice(t, a);
    SkipTwice(t, b);
  }

  /** Every derivation with "&" behind a pipeline is a beginning of that reading. */
  lemma {:induction false} BacksRun(t: seq<char>, p: int, r: Result, e: int, c: Cmd)
    requires PipelineOnly(t, p, r) && Backs(t, p, e, c) && EndsPipeline(t, e) && Short(c)
    ensures r.Ok? && 0 <= r.pos <= |t|
    ensures var x, y := BackRun(t, r.cmd, r.pos), BackRun(t, c, e);
            x.cmd == y.cmd && Skip(t, x.pos) == Skip(t, y.pos)
    decreases c
  {
    if Pipeline(t, p, e, c) {
      assert Is(t, r, e, c);
      BackRunSkips(t, c, r.pos, e);
    } else {
      var a :| OpAt(t, a, '&', e) && Backs(t, p, a, c.cmd);
      BacksRun(t, p, r, a, c.cmd);
    }
  }

  lemma BacksAll(t: seq<char>, p: int, r: Result)
    requires PipelineOnly(t, p, r) && (r.Ok? ==> 0 <= r.pos <= |t|)
    ensures BacksOnly(t, p, if r.Ok? then BackRun(t, r.cmd, r.pos) else Panic)
  {
    forall e, c | Backs(t, p, e, c) && EndsBacks(t, e) && Short(c)
      ensures Is(t, if r.Ok? then BackRun(t, r.cmd, r.pos) else Panic, e, c)
    {
      BacksRun(t, p, r, e, c);
      assert BackRun(t, c, e) == Ok(c, e);
    }
  }

  lemma LineDone(t: seq<char>, p: int, r: Result)
    requires BacksOnly(t, p, r) && (r.Ok? ==> 0 <= r.pos <= |t| && !OpAt(t, r.pos, ';', After(t, r.pos)))
    ensures LineOnly(t, p, r)
  {
    forall e, c | Line(t, p, e, c) && EndsLine(t, e) && Short(c)
      ensures Is(t, r, e, c)
    {
      if !Backs(t, p, e, c) {
        var a, b :| OpAt(t, a, ';', b) && p < b && Backs(t, p, a, c.left) && Line(t, b, e, c.right);
        assert false;
      }
    }
  }

  lemma LineMore(t: seq<char>, p: int, left: Cmd, a: int, next: int, r: Result)
    requires BacksOnly(t, p, Ok(left, a)) && OpAt(t, a, ';', next) && LineOnly(t, next, r)
    ensures LineOnly(t, p, Joined(left, ';', r))
  {
    forall e, c | Line(t, p, e, c) && EndsLine(t, e) && Short(c)
      ensures Is(t, Joined(left, ';', r), e, c)
    {
      if Backs(t, p, e, c) {
        assert false;
      } else {
        var a', b :| OpAt(t, a', ';', b) && p < b && Backs(t, p, a', c.left) && Line(t, b, e, c.right);
        assert Is(t, Ok(left, a), a', c.left);
        SkipTwice(t, a);
        SkipTwice(t, a');
        assert Is(t, r, e, c.right);
      }
    }
  }
}
