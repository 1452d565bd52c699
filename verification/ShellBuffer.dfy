/** parsecmd as a whole: the buffer is parsed, and then nulterminate cuts it into C strings in place. */
module ShellBuffer {
  import opened ShellLex
  import opened ShellTree
  import opened ShellGrammar
  import opened ShellDecide
  import opened ShellParse

  /** s is one of the counted strings of the tree. */
  predicate Holds(c: Cmd, s: Span)
  {
    match c
    case Exec(args) => s in args
    case Redir(c, r) => Holds(c, s) || s == r.file
    case Pipe(l, r) => Holds(l, s) || Holds(r, s)
    case List(l, r) => Holds(l, s) || Holds(r, s)
    case Back(c) => Holds(c, s)
  }

  /** Some string of the tree ends at i. */
  ghost predicate EndsAt(c: Cmd, i: int)
  {
    exists s :: Holds(c, s) && s.to == i
  }

  ghost predicate Fits(c: Cmd, n: int)
  {
    forall s :: Holds(c, s) ==> 0 <= s.to < n
  }

  /** The string that starts at i in C's sense. */
  function CString(b: seq<char>, i: int): seq<char>
    requires 0 <= i
    decreases |b| - i
  {
    if i >= |b| || b[i] == '\0' then [] else [b[i]] + CString(b, i + 1)
  }

  lemma {:induction false} CStringIs(b: seq<char>, i: int, j: int)
    requires 0 <= i <= j < |b| && b[j] == '\0' && forall k :: i <= k < j ==> b[k] != '\0'
    ensures CString(b, i) == b[i..j]
    decreases j - i
  {
    if i < j {
      CStringIs(b, i + 1, j);
      assert b[i..j] == [b[i]] + b[i + 1..j];
    }
  }

  /** Every string of a parsed tree is a maximal word of the text. */
  lemma {:induction false} HoldsWord(t: seq<char>, c: Cmd, a: int, b: int, s: Span)
    requires CmdOk(t, c, a, b) && Holds(c, s)
    ensures IsWord(t, s.from, s.to)
    decreases c
  {
    match c
    case Exec(args) =>
      var i :| 0 <= i < |args| && args[i] == s;
      assert SpanOk(t, args[i], a, b);
    case Redir(c, r) =>
      if Holds(c, s) {
        HoldsWord(t, c, a, b, s);
      }
    case Pipe(l, r) =>
      var m :| a <= m <= b && CmdOk(t, l, a, m) && CmdOk(t, r, m, b);
      if Holds(l, s) {
        HoldsWord(t, l, a, m, s);
      } else {
        HoldsWord(t, r, m, b, s);
      }
    case List(l, r) =>
      var m :| a <= m <= b && CmdOk(t, l, a, m) && CmdOk(t, r, m, b);
      if Holds(l, s) {
        HoldsWord(t, l, a, m, s);
      } else {
        HoldsWord(t, r, m, b, s);
      }
    case Back(c) => HoldsWord(t, c, a, b, s);
  }

  /** No end of one string lies inside another, so cutting all of them off leaves each one whole. */
  lemma CutLeavesWords(t: seq<char>, c: Cmd, b: seq<char>, s: Span)
    requires Plain(t) && CmdOk(t, c, 0, |t|) && Holds(c, s) && |b| > |t|
    requires forall i :: 0 <= i <= |t| ==>
      (EndsAt(c, i) ==> b[i] == '\0') && (!EndsAt(c, i) && i < |t| ==> b[i] == t[i])
    ensures 0 <= s.from <= s.to <= |t| && CString(b, s.from) == t[s.from..s.to]
  {
    HoldsWord(t, c, 0, |t|, s);
    assert EndsAt(c, s.to);
    forall k | s.from <= k < s.to
      ensures b[k] == t[k]
    {
      if EndsAt(c, k) {
        var e :| Holds(c, e) && e.to == k;
        HoldsWord(t, c, 0, |t|, e);
        assert false;
      }
    }
    CStringIs(b, s.from, s.to);
    assert b[s.from..s.to] == t[s.from..s.to];
  }

  /** Every word of the text stands for exactly one string of the tree. */
  lemma EveryWordOnce(t: seq<char>, c: Cmd, a: int, b: int)
    requires Toks(t, 0) == Tokens(c) && 0 <= a
    ensures Tokens(c)[Word(a, b)] == if IsWord(t, a, b) then 1 else 0
  {
    ToksAreWords(t, 0, a, b);
  }

  /** What nulterminate makes of the buffer. */
  twostate predicate Terminated(buf: array<char>, c: Cmd)
    reads buf
  {
    forall i :: 0 <= i < buf.Length ==> (EndsAt(c, i) ==> buf[i] == '\0') && (!EndsAt(c, i) ==> buf[i] == old(buf[i]))
  }

  /** sh.c:449-494. */
  method Nulterminate(buf: array<char>, c: Cmd)
    requires Fits(c, buf.Length)
    modifies buf
    ensures Terminated(buf, c)
    decreases c
  {
    match c
    case Exec(args) =>
      var i := 0;
      while i < |args|
        invariant 0 <= i <= |args|
        invariant forall k :: 0 <= k < buf.Length ==> buf[k] == old(buf[k]) || (buf[k] == '\0' && EndsAt(c, k))
        invariant forall j :: 0 <= j < i ==> buf[args[j].to] == '\0'
      {
        assert Holds(c, args[i]);
        buf[args[i].to] := '\0';
        i := i + 1;
      }
      forall k | 0 <= k < buf.Length && EndsAt(c, k)
        ensures buf[k] == '\0'
      {
        var s :| Holds(c, s) && s.to == k;
        var j :| 0 <= j < |args| && args[j] == s;
      }
    case Redir(d, r) =>
      assert Holds(c, r.file);
      assert forall s :: Holds(d, s) ==> Holds(c, s);
      Nulterminate(buf, d);
      buf[r.file.to] := '\0';
      EndsRedir(d, r);
    case Pipe(l, r) =>
      assert forall s :: Holds(l, s) || Holds(r, s) ==> Holds(c, s);
      Nulterminate(buf, l);
      Nulterminate(buf, r);
      EndsBoth(c, l, r);
    case List(l, r) =>
      assert forall s :: Holds(l, s) || Holds(r, s) ==> Holds(c, s);
      Nulterminate(buf, l);
      Nulterminate(buf, r);
      EndsBoth(c, l, r);
    case Back(d) =>
      assert forall s :: Holds(d, s) ==> Holds(c, s);
      Nulterminate(buf, d);
      assert forall i :: EndsAt(c, i) <==> EndsAt(d, i) by {
        assert forall s :: Holds(c, s) <==> Holds(d, s);
      }
  }

  lemma EndsRedir(d: Cmd, r: Redirection)
    ensures forall i :: EndsAt(Redir(d, r), i) <==> EndsAt(d, i) || i == r.file.to
  {
    var c := Redir(d, r);
    assert Holds(c, r.file);
    assert forall s :: Holds(c, s) <==> Holds(d, s) || s == r.file;
  }

  lemma EndsBoth(c: Cmd, l: Cmd, r: Cmd)
    requires c == Pipe(l, r) || c == List(l, r)
    ensures forall i :: EndsAt(c, i) <==> EndsAt(l, i) || EndsAt(r, i)
  {
    assert forall s :: Holds(c, s) <==> Holds(l, s) || Holds(r, s);
  }

  method Strlen(buf: array<char>) returns (n: int)
    requires exists i :: 0 <= i < buf.Length && buf[i] == '\0'
    ensures 0 <= n < buf.Length && buf[n] == '\0' && Plain(buf[..n])
  {
    n := 0;
    while buf[n] != '\0'
      invariant 0 <= n < buf.Length && forall k :: 0 <= k < n ==> buf[k] != '\0'
      invariant exists i :: n <= i < buf.Length && buf[i] == '\0'
      decreases buf.Length - n
    {
      n := n + 1;
    }
  }

  /** The whole text is a line of the grammar, with the tree c. */
  ghost predicate Written(t: seq<char>, c: Cmd)
  {
    Short(c) && exists e :: Line(t, 0, e, c) && Gap(t, e, |t|)
  }

  lemma {:induction false} CmdShort(t: seq<char>, c: Cmd, a: int, b: int)
    requires CmdOk(t, c, a, b)
    ensures Short(c)
  {
    match c
    case Exec(_) =>
    case Redir(d, _) => CmdShort(t, d, a, b);
    case Pipe(l, r) =>
      var m :| a <= m <= b && CmdOk(t, l, a, m) && CmdOk(t, r, m, b);
      CmdShort(t, l, a, m);
      CmdShort(t, r, m, b);
    case List(l, r) =>
      var m :| a <= m <= b && CmdOk(t, l, a, m) && CmdOk(t, r, m, b);
      CmdShort(t, l, a, m);
      CmdShort(t, r, m, b);
    case Back(d) => CmdShort(t, d, a, b);
  }

  /** Of what parseline answers, exactly the trees that reach the end of the text are written there. */
  lemma WrittenOnly(t: seq<char>, r: Result)
    requires LineOnly(t, 0, r) && (r.Ok? ==> 0 <= r.pos <= |t| && Line(t, 0, r.pos, r.cmd) && Short(r.cmd))
    ensures forall c :: Written(t, c) <==> r.Ok? && r.cmd == c && Skip(t, r.pos) == |t|
  {
    assert Skip(t, |t|) == |t|;
    forall c
      ensures Written(t, c) <==> r.Ok? && r.cmd == c && Skip(t, r.pos) == |t|
    {
      if Written(t, c) {
        var e :| Line(t, 0, e, c) && Gap(t, e, |t|);
        assert Is(t, r, e, c);
      } else if r.Ok? && Skip(t, r.pos) == |t| {
        assert Gap(t, r.pos, |t|);
      }
    }
  }

  /**
    sh.c:328-343.  parsecmd accepts exactly the lines of the grammar, and answers with their only tree.  Then the
    tree holds every token of the line once, the parentheses match, and every string of the tree is, as a C string
    in the buffer, exactly its word.
  */
  method Parsecmd(buf: array<char>) returns (r: Result, ghost t: seq<char>)
    requires exists i :: 0 <= i < buf.Length && buf[i] == '\0'
    modifies buf
    ensures t <= old(buf[..]) && |t| < buf.Length && old(buf[..])[|t|] == '\0' && Plain(t)
    ensures r.Panic? ==> buf[..] == old(buf[..])
    ensures forall c :: Written(t, c) <==> r.Ok? && r.cmd == c
    ensures r.Ok? ==> CmdOk(t, r.cmd, 0, |t|)
    ensures r.Ok? ==> Toks(t, 0) == Tokens(r.cmd) && Balance(t, 0) == 0
    ensures r.Ok? ==>
      forall s :: Holds(r.cmd, s) ==> 0 <= s.from <= s.to <= |t| && CString(buf[..], s.from) == t[s.from..s.to]
  {
    var es := Strlen(buf);
    var text := buf[..es];
    t := text;
    r := Parseline(text, 0);
    if r.Panic? {
      WrittenOnly(t, r);
      return;
    }
    var c := r.cmd;
    CmdShort(t, c, 0, r.pos);
    WrittenOnly(t, r);
    var _, s := Peek(text, r.pos, {});
    if s != es {
      return Panic, t;
    }
    SkipTwice(t, r.pos);
    CmdWiden(t, c, 0, r.pos, 0, |t|);
    forall e | Holds(c, e)
      ensures 0 <= e.to < buf.Length
    {
      HoldsWord(t, c, 0, |t|, e);
    }
    Nulterminate(buf, c);
    ghost var b := buf[..];
    forall e | Holds(c, e)
      ensures 0 <= e.from <= e.to <= |t| && CString(b, e.from) == t[e.from..e.to]
    {
      CutLeavesWords(t, c, b, e);
    }
    return Ok(c, es), t;
  }
}
