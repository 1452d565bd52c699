/** The lexer of sh.c: gettoken and peek over the text of a command line, by position. */
module ShellLex {
  /** whitespace[] and symbols[] (sh.c:263-264). */
  predicate Space(c: char)
  {
    c == ' ' || c == '\t' || c == '\r' || c == '\n' || c == '\U{B}'
  }

  predicate Symbol(c: char)
  {
    c == '<' || c == '|' || c == '>' || c == '&' || c == ';' || c == '(' || c == ')'
  }

  predicate WordChar(c: char)
  {
    !Space(c) && !Symbol(c)
  }

  /** Text before the terminating NUL. */
  ghost predicate Plain(t: seq<char>)
  {
    forall i :: 0 <= i < |t| ==> t[i] != '\0'
  }

  ghost predicate AllWord(t: seq<char>, a: int, b: int)
  {
    0 <= a <= b <= |t| && forall i :: a <= i < b ==> WordChar(t[i])
  }

  /** The first position from p on that is not white space. */
  function Skip(t: seq<char>, p: int): (r: int)
    requires 0 <= p <= |t|
    ensures p <= r <= |t| && (r < |t| ==> !Space(t[r]))
    decreases |t| - p
  {
    if p < |t| && Space(t[p]) then Skip(t, p + 1) else p
  }

  function WordEnd(t: seq<char>, p: int): (r: int)
    requires 0 <= p <= |t|
    ensures p <= r <= |t| && (p < |t| && WordChar(t[p]) ==> p < r)
    decreases |t| - p
  {
    if p < |t| && WordChar(t[p]) then WordEnd(t, p + 1) else p
  }

  lemma {:induction false} SkipsSpaces(t: seq<char>, p: int)
    requires 0 <= p <= |t|
    ensures forall i :: p <= i < Skip(t, p) ==> Space(t[i])
    decreases |t| - p
  {
    if p < |t| && Space(t[p]) {
      SkipsSpaces(t, p + 1);
    }
  }

  lemma {:induction false} WordRun(t: seq<char>, p: int)
    requires 0 <= p <= |t|
    ensures AllWord(t, p, WordEnd(t, p)) && (WordEnd(t, p) < |t| ==> !WordChar(t[WordEnd(t, p)]))
    decreases |t| - p
  {
    if p < |t| && WordChar(t[p]) {
      WordRun(t, p + 1);
    }
  }

  /** What gettoken returns for the token that starts at q. */
  function Kind(t: seq<char>, q: int): char
    requires 0 <= q <= |t|
  {
    if q == |t| then '\0'
    else if t[q] == '>' && q + 1 < |t| && t[q + 1] == '>' then '+'
    else if Symbol(t[q]) then t[q]
    else 'a'
  }

  /** Where the token that starts at q ends. */
  function TokenEnd(t: seq<char>, q: int): (r: int)
    requires 0 <= q <= |t|
    ensures q <= r <= |t| && (q < |t| && !Space(t[q]) ==> q < r)
  {
    if q == |t| then q
    else if Kind(t, q) == '+' && t[q] == '>' then q + 2
    else if Symbol(t[q]) then q + 1
    else WordEnd(t, q)
  }

  /** Where the next token after the one at or behind p starts. */
  function After(t: seq<char>, p: int): (r: int)
    requires 0 <= p <= |t|
    ensures p <= r <= |t| && (Skip(t, p) < |t| ==> p < r)
  {
    Skip(t, TokenEnd(t, Skip(t, p)))
  }

  method SkipSpace(t: seq<char>, p: int) returns (s: int)
    requires 0 <= p <= |t|
    ensures s == Skip(t, p)
  {
    s := p;
    while s < |t| && Space(t[s])
      invariant p <= s <= |t| && Skip(t, s) == Skip(t, p)
    {
      s := s + 1;
    }
  }

  /** sh.c:266-309.  `at` is the character the C code reads, NUL at the end of the text. */
  method Gettoken(t: seq<char>, p: int) returns (tok: char, q: int, eq: int, next: int)
    requires 0 <= p <= |t| && Plain(t)
    ensures q == Skip(t, p) && tok == Kind(t, q) && eq == TokenEnd(t, q) && next == After(t, p)
  {
    var s := SkipSpace(t, p);
    q := s;
    tok := if s < |t| then t[s] else '\0';
    if tok == '\0' {
    } else if tok == '|' || tok == '(' || tok == ')' || tok == ';' || tok == '&' || tok == '<' {
      s := s + 1;
    } else if tok == '>' {
      s := s + 1;
      if s < |t| && t[s] == '>' {
        tok := '+';
        s := s + 1;
      }
    } else {
      tok := 'a';
      while s < |t| && !Space(t[s]) && !Symbol(t[s])
        invariant q <= s <= |t| && WordEnd(t, s) == WordEnd(t, q)
      {
        s := s + 1;
      }
    }
    eq := s;
    next := SkipSpace(t, s);
  }

  /** sh.c:311-321. */
  method Peek(t: seq<char>, p: int, toks: set<char>) returns (yes: bool, next: int)
    requires 0 <= p <= |t| && Plain(t)
    ensures next == Skip(t, p) && (yes <==> next < |t| && t[next] in toks)
  {
    next := SkipSpace(t, p);
    yes := next < |t| && t[next] in toks;
  }

  // ---------------------------------------------------------------------------------------------
  // The tokens of a text
  // ---------------------------------------------------------------------------------------------

  /** A word by its position, or an operator; ">>" counts as ">", as which the shell treats it. */
  datatype Token = Word(from: int, to: int) | Op(c: char)

  function TokenAt(t: seq<char>, q: int): Token
    requires 0 <= q < |t|
  {
    if Symbol(t[q]) then Op(t[q]) else Word(q, WordEnd(t, q))
  }

  /** All tokens from p on, without the parentheses. */
  function Toks(t: seq<char>, p: int): multiset<Token>
    requires 0 <= p <= |t|
    decreases |t| - p
  {
    var q := Skip(t, p);
    if q == |t| then multiset{}
    else (if t[q] == '(' || t[q] == ')' then multiset{} else multiset{TokenAt(t, q)}) + Toks(t, After(t, p))
  }

  /** Open less closed parentheses from p on. */
  function Balance(t: seq<char>, p: int): int
    requires 0 <= p <= |t|
    decreases |t| - p
  {
    var q := Skip(t, p);
    if q == |t| then 0
    else (if t[q] == '(' then 1 else if t[q] == ')' then -1 else 0) + Balance(t, After(t, p))
  }

  /** White space in front of a token does not matter. */
  lemma SkipTwice(t: seq<char>, p: int)
    requires 0 <= p <= |t|
    ensures Skip(t, Skip(t, p)) == Skip(t, p) && Toks(t, Skip(t, p)) == Toks(t, p)
      && Balance(t, Skip(t, p)) == Balance(t, p)
    ensures After(t, Skip(t, p)) == After(t, p)
  {
  }

  /** A maximal run of word characters. */
  ghost predicate IsWord(t: seq<char>, a: int, b: int)
  {
    AllWord(t, a, b) && a < b && (a == 0 || !WordChar(t[a - 1])) && (b < |t| ==> !WordChar(t[b]))
  }

  /** Between p and the next token but one, a word can start only where the next token starts. */
  lemma OnlyAtHead(t: seq<char>, p: int, a: int, b: int)
    requires 0 <= p <= a < |t| && IsWord(t, a, b) && (p == 0 || !WordChar(t[p - 1]) || !WordChar(t[p]))
    ensures Skip(t, p) <= a && (a < After(t, p) ==> a == Skip(t, p) && !Symbol(t[a]))
  {
    var q := Skip(t, p);
    SkipsSpaces(t, p);
    WordRun(t, q);
    SkipsSpaces(t, TokenEnd(t, q));
    assert WordChar(t[a]);
    if q < a {
      assert !WordChar(t[a - 1]);
    }
  }

  /** The word tokens are exactly the maximal runs of word characters, each once. */
  lemma {:induction false} ToksAreWords(t: seq<char>, p: int, a: int, b: int)
    requires 0 <= p <= |t| && (p == 0 || p == |t| || !WordChar(t[p]) || !WordChar(t[p - 1]))
    ensures Toks(t, p)[Word(a, b)] == if p <= a && IsWord(t, a, b) then 1 else 0
    decreases |t| - p
  {
    var q := Skip(t, p);
    if p <= a && IsWord(t, a, b) {
      OnlyAtHead(t, p, a, b);
    }
    SkipsSpaces(t, p);
    WordRun(t, q);
    if q < |t| {
      AfterBoundary(t, p);
      ToksAreWords(t, After(t, p), a, b);
      if a == q && IsWord(t, a, b) {
        SameEnd(t, q, b);
      }
    }
  }

  lemma AfterBoundary(t: seq<char>, p: int)
    requires 0 <= p <= |t|
    ensures var n := After(t, p);
            n == 0 || n == |t| || !WordChar(t[n]) || !WordChar(t[n - 1])
  {
    var e := TokenEnd(t, Skip(t, p));
    var n := After(t, p);
    WordRun(t, Skip(t, p));
    SkipsSpaces(t, e);
    if e < n {
      assert Space(t[n - 1]);
    }
  }

  lemma {:induction false} SameEnd(t: seq<char>, a: int, b: int)
    requires AllWord(t, a, b) && (b < |t| ==> !WordChar(t[b]))
    ensures WordEnd(t, a) == b
    decreases b - a
  {
    if a < b {
      SameEnd(t, a + 1, b);
    }
  }
}
