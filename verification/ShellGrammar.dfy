/**
  The grammar of the shell, read off the text: which tree a stretch of text may stand for.  A line is a
  pipeline followed by any number of "&", and by ";" and another line if there is one; a pipeline is a command,
  and "|" and another pipeline if there is one; a command is a parenthesised line with redirections, or words
  and redirections in any order.
*/
module ShellGrammar {
  import opened ShellLex
  import opened ShellTree

  /** The next token from m on is the operator c, and the text goes on at n. */
  predicate OpAt(t: seq<char>, m: int, c: char, n: int)
  {
    0 <= m <= |t| && Skip(t, m) < |t| && t[Skip(t, m)] == c && n == After(t, m)
  }

  predicate WordAt(t: seq<char>, m: int, s: Span, n: int)
  {
    && 0 <= m <= |t| && Skip(t, m) < |t| && Kind(t, Skip(t, m)) == 'a'
    && s == Span(Skip(t, m), TokenEnd(t, Skip(t, m))) && n == After(t, m)
  }

  predicate RedirAt(t: seq<char>, m: int, r: Redirection, n: int)
  {
    && 0 <= m <= |t| && Skip(t, m) < |t| && WordAt(t, After(t, m), r.file, n)
    && ((t[Skip(t, m)] == '<' && r.mode == O_RDONLY && r.fd == 0)
      || (t[Skip(t, m)] == '>' && r.mode == O_WRONLY_CREATE && r.fd == 1))
  }

  /** Words args and redirections rs, each in order, in any mixture. */
  ghost predicate Items(t: seq<char>, p: int, e: int, args: seq<Span>, rs: seq<Redirection>)
    decreases |args| + |rs|, 1
  {
    (args == [] && rs == [] && p == e) || EndInWord(t, p, e, args, rs) || EndInRedir(t, p, e, args, rs)
  }

  ghost predicate EndInWord(t: seq<char>, p: int, e: int, args: seq<Span>, rs: seq<Redirection>)
    decreases |args| + |rs|, 0
  {
    args != [] &&
    var front, last := args[..|args| - 1], args[|args| - 1];
    exists m :: Items(t, p, m, front, rs) && WordAt(t, m, last, e)
  }

  ghost predicate EndInRedir(t: seq<char>, p: int, e: int, args: seq<Span>, rs: seq<Redirection>)
    decreases |args| + |rs|, 0
  {
    rs != [] &&
    var front, last := rs[..|rs| - 1], rs[|rs| - 1];
    exists m :: Items(t, p, m, args, front) && RedirAt(t, m, last, e)
  }

  /** Only white space in between. */
  predicate Gap(t: seq<char>, a: int, b: int)
  {
    0 <= a <= b <= |t| && Skip(t, a) == Skip(t, b)
  }

  /** Words and redirections behind white space, not starting with a parenthesis. */
  ghost predicate Simple(t: seq<char>, p: int, e: int, args: seq<Span>, rs: seq<Redirection>)
  {
    0 <= p <= |t| && !(Skip(t, p) < |t| && t[Skip(t, p)] == '(') && Items(t, Skip(t, p), e, args, rs)
  }

  ghost predicate Command(t: seq<char>, p: int, e: int, c: Cmd)
    decreases |t| - p, c, 0
  {
    || (exists args, rs, m :: Simple(t, p, m, args, rs) && Gap(t, m, e) && c == Wrap(Exec(args), rs))
    || (0 <= p <= |t| && Skip(t, p) < |t| && t[Skip(t, p)] == '(' &&
        var a := After(t, p);
        exists b, inner, n, rs :: Line(t, a, b, inner) && OpAt(t, b, ')', n) && Items(t, n, e, [], rs)
          && c == Wrap(inner, rs))
  }

  ghost predicate Pipeline(t: seq<char>, p: int, e: int, c: Cmd)
    decreases |t| - p, c, 1
  {
    || Command(t, p, e, c)
    || (c.Pipe? && exists a, b :: OpAt(t, a, '|', b) && p < b && Command(t, p, a, c.left) && Pipeline(t, b, e, c.right))
  }

  ghost predicate Backs(t: seq<char>, p: int, e: int, c: Cmd)
    decreases |t| - p, c, 2
  {
    Pipeline(t, p, e, c) || (c.Back? && exists a :: OpAt(t, a, '&', e) && Backs(t, p, a, c.cmd))
  }

  ghost predicate Line(t: seq<char>, p: int, e: int, c: Cmd)
    decreases |t| - p, c, 3
  {
    || Backs(t, p, e, c)
    || (c.List? && exists a, b :: OpAt(t, a, ';', b) && p < b && Backs(t, p, a, c.left) && Line(t, b, e, c.right))
  }

  // ---------------------------------------------------------------------------------------------
  // Growing a derivation
  // ---------------------------------------------------------------------------------------------

  lemma ItemsWord(t: seq<char>, p: int, m: int, e: int, args: seq<Span>, rs: seq<Redirection>, a: Span)
    requires Items(t, p, m, args, rs) && WordAt(t, m, a, e)
    ensures Items(t, p, e, args + [a], rs)
  {
    var more := args + [a];
    assert more[..|more| - 1] == args && more[|more| - 1] == a;
    assert EndInWord(t, p, e, more, rs);
  }

  lemma ItemsRedir(t: seq<char>, p: int, m: int, e: int, args: seq<Span>, rs: seq<Redirection>, r: Redirection)
    requires Items(t, p, m, args, rs) && RedirAt(t, m, r, e)
    ensures Items(t, p, e, args, rs + [r])
  {
    var more := rs + [r];
    assert more[..|more| - 1] == rs && more[|more| - 1] == r;
    assert EndInRedir(t, p, e, args, more);
  }

  lemma LastWord(t: seq<char>, p: int, e: int, args: seq<Span>, rs: seq<Redirection>)
    returns (front: seq<Span>, last: Span, m: int)
    requires EndInWord(t, p, e, args, rs)
    ensures args == front + [last] && Items(t, p, m, front, rs) && WordAt(t, m, last, e)
  {
    front, last := args[..|args| - 1], args[|args| - 1];
    m :| Items(t, p, m, front, rs) && WordAt(t, m, last, e);
  }

  lemma LastRedir(t: seq<char>, p: int, e: int, args: seq<Span>, rs: seq<Redirection>)
    returns (front: seq<Redirection>, last: Redirection, m: int)
    requires EndInRedir(t, p, e, args, rs)
    ensures rs == front + [last] && Items(t, p, m, args, front) && RedirAt(t, m, last, e)
  {
    front, last := rs[..|rs| - 1], rs[|rs| - 1];
    m :| Items(t, p, m, args, front) && RedirAt(t, m, last, e);
  }

  lemma Regroup(a: seq<Redirection>, b: seq<Redirection>, c: Redirection)
    ensures (a + b) + [c] == a + (b + [c])
  {
  }

  /** Redirections read behind items are items. */
  lemma {:induction false} ItemsRedirs(t: seq<char>, p: int, m: int, e: int, args: seq<Span>, rs: seq<Redirection>,
                                       more: seq<Redirection>)
    requires Items(t, p, m, args, rs) && Items(t, m, e, [], more)
    ensures Items(t, p, e, args, rs + more)
    decreases |more|
  {
    if more == [] {
      assert rs + more == rs;
    } else {
      var front, last, k := LastRedir(t, m, e, [], more);
      ItemsRedirs(t, p, m, k, args, rs, front);
      ItemsRedir(t, p, k, e, args, rs + front, last);
      Regroup(rs, front, last);
    }
  }
}
