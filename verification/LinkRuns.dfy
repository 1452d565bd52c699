/**
  What the calls on the directory tree mean: for each call in a state, the state it leads to, and whether there is
  room for it; and what that does to path names.
*/
module LinkRuns {
  import opened Links
  import opened LinkOps
  import opened Paths

  datatype Call =
    | Link(ip: int, dp: int, name: string)
    | Unlink(dp: int, name: string, open: bool)
    | Create(dp: int, name: string, kind: int)
    | Close(ip: int)

  /** The same calls by path name, and chdir. */
  datatype PathCall =
    | LinkPath(old_: string, new_: string)
    | UnlinkPath(path: string, open: bool)
    | CreatePath(path: string, kind: int)
    | Chdir(path: string)

  predicate InUse(s: seq<Node>, x: int)
  {
    0 <= x < |s| && s[x].kind != 0
  }

  /** The call works on inodes that are in use, in a directory, which may have been unlinked. */
  predicate Resolved(s: seq<Node>, c: Call)
  {
    match c
    case Link(ip, dp, _) => (ip == 0 || InUse(s, ip)) && (dp == 0 || IsDir(s, dp))
    case Unlink(dp, _, _) => dp == 0 || IsDir(s, dp)
    case Create(dp, _, kind) => (dp == 0 || IsDir(s, dp)) && kind in {T_DIR, T_FILE, T_DEV}
    case Close(ip) => 1 <= ip < |s|
  }

  predicate Absolute(path: string)
  {
    path != "" && path[0] == '/'
  }

  /** The walk starts at the root or in a linked directory. */
  predicate Started(s: seq<Node>, path: string, cwd: int)
  {
    Absolute(path) || Linked(s, cwd)
  }

  predicate AllStarted(s: seq<Node>, c: PathCall, cwd: int)
  {
    match c
    case LinkPath(a, b) => Started(s, a, cwd) && Started(s, b, cwd)
    case UnlinkPath(path, _) => Started(s, path, cwd)
    case CreatePath(path, _) => Started(s, path, cwd)
    case Chdir(path) => Started(s, path, cwd)
  }

  predicate Typed(c: PathCall)
  {
    c.CreatePath? ==> c.kind in {T_DIR, T_FILE, T_DEV}
  }

  /** Where a walk starts (fs.c:629-632). */
  function Origin(path: string, cwd: int): int
  {
    if Absolute(path) then ROOTINO else cwd
  }

  /** The directory of the last element, 0 if it is not there. */
  function ParentDir(s: seq<Node>, x: int, es: seq<string>): int
  {
    if es == [] then 0
    else
      var d := Walk(s, x, es[..|es| - 1]);
      if IsDir(s, d) then d else 0
  }

  /** No room for another entry. */
  predicate Full(e: seq<Dirent>)
  {
    |e| >= MAXENTRIES && forall k :: 0 <= k < |e| ==> e[k].inum != 0
  }

  /** The entry unlink removes. */
  ghost predicate Removes(s: seq<Node>, dp: int, name: string, k: int, x: int)
  {
    && Used(s, dp, k) && s[dp].entries[k].inum == x && Same(s[dp].entries[k].name, name) && 0 <= x < |s|
    && !Same(name, ".") && !Same(name, "..") && (IsDir(s, x) ==> forall m :: 2 <= m ==> !Used(s, x, m))
  }

  ghost predicate NonEmpty(s: seq<Node>, dp: int, name: string, k: int, x: int)
  {
    && Used(s, dp, k) && s[dp].entries[k].inum == x && Same(s[dp].entries[k].name, name)
    && IsDir(s, x) && exists m :: 2 <= m && Used(s, x, m)
  }

  // ---------------------------------------------------------------------------------------------
  // The state after a call
  // ---------------------------------------------------------------------------------------------

  predicate Linkable(s: seq<Node>, ip: int, dp: int, name: string)
    requires Resolved(s, Link(ip, dp, name))
  {
    ip != 0 && s[ip].kind != T_DIR && dp != 0 && !Present(s[dp].entries, name)
  }

  /** unlink does nothing: no such name, one of the dots, or a directory with entries. */
  ghost predicate Refuses(s: seq<Node>, dp: int, name: string)
  {
    || !(0 < dp < |s|) || !Present(s[dp].entries, name) || Same(name, ".") || Same(name, "..")
    || exists k, x :: NonEmpty(s, dp, name, k, x)
  }

  function Unlinked(s: seq<Node>, dp: int, k: int, x: int, open: bool): seq<Node>
    requires 0 <= dp < |s| && 0 <= x < |s| && 0 <= k < |s[dp].entries|
  {
    var t := UnlinkState(s, dp, k, x);
    if t[x].nlink == 0 && !open then FreeState(t, x) else t
  }

  predicate NoInode(s: seq<Node>)
  {
    forall i :: 1 <= i < |s| ==> s[i].kind != 0
  }

  /** create makes a new entry. */
  predicate Creates(s: seq<Node>, dp: int, name: string)
  {
    dp != 0 && IsDir(s, dp) && !Present(s[dp].entries, name)
  }

  /** The call panics: no free inode, no room in the directory, or create finds an entry for an inode that is free. */
  predicate Panics(s: seq<Node>, c: Call)
  {
    Resolved(s, c) &&
    match c
    case Link(ip, dp, name) => Linkable(s, ip, dp, name) && Full(s[dp].entries)
    case Create(dp, name, _) =>
      if Creates(s, dp, name) then NoInode(s) || Full(s[dp].entries)
        else dp != 0 && !InUse(s, Find(s[dp].entries, name, 0))
    case _ => false
  }

  /** The call keeps the link counts and the tree: it makes no entry in a directory that has been unlinked. */
  predicate Safe(s: seq<Node>, c: Call)
  {
    Resolved(s, c) &&
    match c
    case Link(ip, dp, name) => Linkable(s, ip, dp, name) ==> Linked(s, dp)
    case Create(dp, name, _) => Creates(s, dp, name) ==> Linked(s, dp)
    case _ => true
  }

  /** What create returns for a name that exists (sysfile.c:252-258). */
  function Reopened(s: seq<Node>, found: int, kind: int): int
  {
    if kind == T_FILE && 0 <= found < |s| && s[found].kind == T_FILE then found else 0
  }

  /** The call leads from s to t. */
  ghost predicate Does(s: seq<Node>, c: Call, t: seq<Node>)
  {
    Resolved(s, c) &&
    match c
    case Link(ip, dp, name) =>
      if Linkable(s, ip, dp, name)
        then exists k :: Vacant(s[dp].entries, k) && t == LinkState(s, dp, k, name, ip) else t == s
    case Unlink(dp, name, open) =>
      if Refuses(s, dp, name) then t == s
        else exists k, x :: Removes(s, dp, name, k, x) && t == Unlinked(s, dp, k, x, open)
    case Create(dp, name, kind) =>
      if !Creates(s, dp, name) then t == s
      else exists k, x :: Makes(s, dp, k, x) && t == CreateState(s, dp, k, name, x, kind)
    case Close(ip) => t == if s[ip].nlink == 0 then FreeState(s, ip) else s
  }

  /** A free inode and a free entry. */
  ghost predicate Makes(s: seq<Node>, dp: int, k: int, x: int)
  {
    0 <= dp < |s| && 1 <= x < |s| && s[x].kind == 0 && Vacant(s[dp].entries, k)
  }

  /** Names are unique, so unlink cannot find both a removable entry and one that it refuses. */
  lemma RemovesOrRefuses(s: seq<Node>, slot: seq<int>, depth: seq<int>, dp: int, name: string, k: int, x: int)
    requires Tree(s, slot, depth) && IsDir(s, dp) && Removes(s, dp, name, k, x)
    ensures !Refuses(s, dp, name)
  {
    var e := s[dp].entries;
    assert e[k].inum != 0 && Same(e[k].name, name);
    forall k', x'
      ensures !NonEmpty(s, dp, name, k', x')
    {
      if Used(s, dp, k') && Same(e[k'].name, name) {
        assert Apart(e, k, k');
      }
    }
  }

  /** One call after the other; calls on inodes that are not in use are left out. */
  ghost predicate Follows(s: seq<Node>, c: Call, t: seq<Node>)
  {
    if Resolved(s, c) then !Panics(s, c) && Does(s, c, t) else t == s
  }

  /** The states a run goes through, all of them with right link counts and a tree of directories. */
  ghost predicate Trace(states: seq<seq<Node>>, calls: seq<Call>)
  {
    && 1 <= |states| <= |calls| + 1 && (forall i :: 0 <= i < |states| ==> Good(states[i]))
    && forall i :: 0 <= i < |states| - 1 ==> Follows(states[i], calls[i], states[i + 1])
  }

  lemma TraceMore(states: seq<seq<Node>>, calls: seq<Call>, t: seq<Node>)
    requires Trace(states, calls) && |states| <= |calls| && Good(t)
      && Follows(states[|states| - 1], calls[|states| - 1], t)
    ensures Trace(states + [t], calls)
  {
    var more := states + [t];
    forall i | 0 <= i < |more| - 1
      ensures Follows(more[i], calls[i], more[i + 1])
    {
      assert i < |states| - 1 ==> Follows(states[i], calls[i], states[i + 1]);
    }
  }

  // ---------------------------------------------------------------------------------------------
  // Inodes without a name
  // ---------------------------------------------------------------------------------------------

  /** An inode that is in use, though no entry names it. */
  predicate Orphan(s: seq<Node>, x: int)
  {
    InUse(s, x) && s[x].nlink == 0
  }

  lemma OrphanUnlink(s: seq<Node>, slot: seq<int>, depth: seq<int>, dp: int, name: string, k: int, y: int, open: bool,
                     x: int)
    requires Inv(s, slot, depth) && IsDir(s, dp) && Removes(s, dp, name, k, y)
    ensures var t := Unlinked(s, dp, k, y, open);
            |t| == |s| && (Orphan(t, x) ==> Orphan(s, x) || (open && x == y && s[x].nlink == 1))
  {
    assert DotsOk(s, dp);
    UnlinkSafe(s, slot, depth, dp, k);
    DirStaysLinked(s, slot, depth, dp, k);
  }

  /** Only unlink of an open file leaves an orphan, and closing it ends that. */
  lemma OrphanStep(s: seq<Node>, c: Call, t: seq<Node>, x: int)
    requires Good(s) && Resolved(s, c) && Does(s, c, t)
    ensures |t| == |s|
    ensures Orphan(t, x) ==>
      if Orphan(s, x) then c != Close(x)
      else c.Unlink? && c.open && s[x].nlink == 1 && exists k :: Removes(s, c.dp, c.name, k, x)
  {
    var slot, depth :| Inv(s, slot, depth);
    if c.Unlink? && !Refuses(s, c.dp, c.name) {
      var k, y :| Removes(s, c.dp, c.name, k, y) && t == Unlinked(s, c.dp, k, y, c.open);
      OrphanUnlink(s, slot, depth, c.dp, c.name, k, y, c.open, x);
    } else if InUse(s, x) {
      assert CountOk(s, x);
    }
  }

  /** An orphan has been open ever since its last name went: its inode is freed by the close, if not before. */
  lemma {:induction false} OrphansAreOpen(states: seq<seq<Node>>, calls: seq<Call>, i: int, x: int) returns (j: int)
    requires Trace(states, calls) && 0 <= i < |states| && Orphan(states[i], x) && !Orphan(states[0], x)
    ensures 0 <= j < i && calls[j].Unlink? && calls[j].open && x < |states[j]| && states[j][x].nlink == 1
    ensures exists k :: Removes(states[j], calls[j].dp, calls[j].name, k, x)
    ensures forall m :: j <= m < i ==> calls[m] != Close(x)
    decreases i
  {
    assert Follows(states[i - 1], calls[i - 1], states[i]);
    if Resolved(states[i - 1], calls[i - 1]) {
      OrphanStep(states[i - 1], calls[i - 1], states[i], x);
    }
    if Orphan(states[i - 1], x) {
      j := OrphansAreOpen(states, calls, i - 1, x);
    } else {
      j := i - 1;
    }
  }

  // ---------------------------------------------------------------------------------------------
  // Calls by path name
  // ---------------------------------------------------------------------------------------------

  /** namei. */
  function Leads(s: seq<Node>, path: string, cwd: int): int
  {
    Walk(s, Origin(path, cwd), Elems(path, 0))
  }

  /** nameiparent. */
  function Holder(s: seq<Node>, path: string, cwd: int): int
  {
    ParentDir(s, Origin(path, cwd), Elems(path, 0))
  }

  function Last(path: string): string
  {
    var es := Elems(path, 0);
    if es == [] then "" else es[|es| - 1]
  }

  /** The call on inodes that a call by path name comes down to. */
  function Resolve(s: seq<Node>, c: PathCall, cwd: int): Call
    requires !c.Chdir?
  {
    match c
    case LinkPath(a, b) => Link(Leads(s, a, cwd), Holder(s, b, cwd), Last(b))
    case UnlinkPath(path, open) => Unlink(Holder(s, path, cwd), Last(path), open)
    case CreatePath(path, kind) => Create(Holder(s, path, cwd), Last(path), kind)
  }

  function CwdAfter(s: seq<Node>, c: PathCall, cwd: int): int
  {
    if c.Chdir? && IsDir(s, Leads(s, c.path, cwd)) then Leads(s, c.path, cwd) else cwd
  }

  /** The walk comes to an inode that is not in use, before element n. */
  predicate MeetsFree(s: seq<Node>, x: int, es: seq<string>, n: int)
  {
    0 <= n < |es| && var y := Walk(s, x, es[..n]); (n == 0 || y != 0) && !InUse(s, y)
  }

  /** namex panics: on the way there is an inode that is not in use. */
  ghost predicate WayPanics(s: seq<Node>, path: string, cwd: int)
  {
    exists n :: MeetsFree(s, Origin(path, cwd), Elems(path, 0), n)
  }

  /** The path leads to an inode that is not in use, which its caller locks. */
  predicate EndPanics(s: seq<Node>, path: string, cwd: int)
  {
    Leads(s, path, cwd) != 0 && !InUse(s, Leads(s, path, cwd))
  }

  /** link looks up its second path only for an existing file. */
  predicate LooksFurther(s: seq<Node>, a: string, cwd: int)
  {
    InUse(s, Leads(s, a, cwd)) && s[Leads(s, a, cwd)].kind != T_DIR
  }

  ghost predicate PathPanics(s: seq<Node>, c: PathCall, cwd: int)
  {
    match c
    case LinkPath(a, b) =>
      WayPanics(s, a, cwd) || EndPanics(s, a, cwd)
        || (LooksFurther(s, a, cwd) && (WayPanics(s, b, cwd) || Panics(s, Resolve(s, c, cwd))))
    case UnlinkPath(path, _) => WayPanics(s, path, cwd)
    case CreatePath(path, _) => WayPanics(s, path, cwd) || Panics(s, Resolve(s, c, cwd))
    case Chdir(path) => WayPanics(s, path, cwd) || EndPanics(s, path, cwd)
  }

  predicate PathSafe(s: seq<Node>, c: PathCall, cwd: int)
  {
    c.Chdir? || Safe(s, Resolve(s, c, cwd))
  }

  ghost predicate PathDoes(s: seq<Node>, c: PathCall, cwd: int, t: seq<Node>)
  {
    if c.Chdir? then t == s else Does(s, Resolve(s, c, cwd), t)
  }

  /** The tree and the current directory of the process. */
  datatype Place = Place(tree: seq<Node>, cwd: int)

  ghost predicate PathFollows(p: Place, c: PathCall, q: Place)
  {
    !PathPanics(p.tree, c, p.cwd) && PathDoes(p.tree, c, p.cwd, q.tree) && q.cwd == CwdAfter(p.tree, c, p.cwd)
  }

  ghost predicate PathTrace(places: seq<Place>, calls: seq<PathCall>)
  {
    && 1 <= |places| <= |calls| + 1 && (forall i :: 0 <= i < |places| ==> Good(places[i].tree))
    && forall i :: 0 <= i < |places| - 1 ==> PathFollows(places[i], calls[i], places[i + 1])
  }

  lemma PathTraceMore(places: seq<Place>, calls: seq<PathCall>, q: Place)
    requires PathTrace(places, calls) && |places| <= |calls| && Good(q.tree)
    requires PathFollows(places[|places| - 1], calls[|places| - 1], q)
    ensures PathTrace(places + [q], calls)
  {
    var more := places + [q];
    forall i | 0 <= i < |more| - 1
      ensures PathFollows(more[i], calls[i], more[i + 1])
    {
      assert i < |places| - 1 ==> PathFollows(places[i], calls[i], places[i + 1]);
    }
  }

  // ---------------------------------------------------------------------------------------------
  // Where paths start
  // ---------------------------------------------------------------------------------------------

  predicate Relative(path: string)
  {
    path == "" || path[0] != '/'
  }

  /** From the directory that an absolute path leads to, a relative path leads where both together do, from anywhere. */
  lemma RelativePath(s: seq<Node>, p: string, q: string, d: int, from: int, any: int)
    requires (|s| == 0 || s[0].kind == 0) && !Relative(p) && Relative(q) && Leads(s, p, from) == d && IsDir(s, d)
    ensures Leads(s, q, d) == Leads(s, p + "/" + q, any)
  {
    var t := p + "/" + q;
    assert t[0] == p[0];
    ElemsBehind(p, q, 0);
    WalkFrom(s, ROOTINO, Elems(p, 0), Elems(q, 0));
  }

  /** The empty path leads to the current directory, and a slash to the root. */
  lemma ShortPaths(s: seq<Node>, cwd: int)
    ensures Leads(s, "", cwd) == cwd && Leads(s, "/", cwd) == ROOTINO
  {
    assert Slashes("", 0) == 0 && Slashes("/", 1) == 1 && Slashes("/", 0) == 1;
  }

  /** A name without a slash is looked up in the current directory. */
  lemma NameHere(s: seq<Node>, name: string, cwd: int)
    requires IsDir(s, cwd) && SlashFree(name) && name != ""
    ensures Leads(s, name, cwd) == Find(s[cwd].entries, name, 0)
  {
    ElemEndAt(name, 0, |name|);
    assert name[0..|name|] == name && Elems(name, 0) == [Trim(name)];
    var es := [Trim(name)];
    var x := Find(s[cwd].entries, Trim(name), 0);
    assert es[1..] == [] && Walk(s, x, es[1..]) == x;
    assert Walk(s, cwd, es) == x;
    SameFound(s[cwd].entries, name, Trim(name), 0);
  }

  lemma {:induction false} SameFound(e: seq<Dirent>, n: string, m: string, k: int)
    requires 0 <= k <= |e| && Same(n, m)
    ensures Find(e, n, k) == Find(e, m, k)
    decreases |e| - k
  {
    if k < |e| {
      SameFound(e, n, m, k + 1);
    }
  }

  /** Where an absolute path leads does not depend on the current directory. */
  lemma AbsolutePath(s: seq<Node>, path: string, c: int, d: int)
    requires !Relative(path)
    ensures Leads(s, path, c) == Leads(s, path, d) && Holder(s, path, c) == Holder(s, path, d)
  {
  }

  /** The parent of a relative path: where its elements but the last lead from the current directory. */
  lemma RelativeHolder(s: seq<Node>, p: string, q: string, d: int, from: int, any: int)
    requires (|s| == 0 || s[0].kind == 0) && !Relative(p) && Relative(q) && Leads(s, p, from) == d && IsDir(s, d)
    requires Elems(q, 0) != []
    ensures Holder(s, q, d) == Holder(s, p + "/" + q, any) && Last(q) == Last(p + "/" + q)
  {
    var t := p + "/" + q;
    assert t[0] == p[0];
    ElemsBehind(p, q, 0);
    ParentBehind(s, ROOTINO, Elems(p, 0), Elems(q, 0));
  }

  lemma ParentBehind(s: seq<Node>, x: int, a: seq<string>, b: seq<string>)
    requires (|s| == 0 || s[0].kind == 0) && b != [] && IsDir(s, Walk(s, x, a))
    ensures ParentDir(s, x, a + b) == ParentDir(s, Walk(s, x, a), b) && (a + b)[|a + b| - 1] == b[|b| - 1]
  {
    var all := a + b;
    assert all[..|all| - 1] == a + b[..|b| - 1];
    WalkFrom(s, x, a, b[..|b| - 1]);
  }

  // ---------------------------------------------------------------------------------------------
  // Where paths lead after a call
  // ---------------------------------------------------------------------------------------------

  /** Lookup after dirlink: the new name is found, and every other as before. */
  lemma {:induction false} PutFind(e: seq<Dirent>, k: int, x: int, name: string, n: string, i: int)
    requires 0 <= i <= |e| && Vacant(e, k) && !Present(e, name) && x != 0
    ensures Find(Put(e, k, Dirent(x, Trim(name))), n, i) == if Same(name, n) then (if i <= k then x else 0)
      else Find(e, n, i)
    decreases |e| - i
  {
    var p := Put(e, k, Dirent(x, Trim(name)));
    if i < |e| {
      PutFind(e, k, x, name, n, i + 1);
      assert Same(name, n) && e[i].inum != 0 ==> !Same(e[i].name, n);
    } else {
      assert |p| == |e| || Find(p, n, |e| + 1) == 0;
    }
  }

  /** Lookup after an entry is erased: its name is gone, and every other is found as before. */
  lemma {:induction false} EraseFind(e: seq<Dirent>, k: int, n: string, i: int)
    requires 0 <= i <= |e| && 0 <= k < |e| && e[k].inum != 0 && Unique(e)
    ensures Find(e[k := Dirent(0, "")], n, i) == if Same(e[k].name, n) then 0 else Find(e, n, i)
    decreases |e| - i
  {
    if i < |e| {
      EraseFind(e, k, n, i + 1);
      assert Apart(e, i, k);
    }
  }

  /** What is found in s is found in t. */
  ghost predicate Keeps(s: seq<Node>, t: seq<Node>)
  {
    forall d, n :: IsDir(s, d) && Find(s[d].entries, n, 0) != 0 ==>
      IsDir(t, d) && Find(t[d].entries, n, 0) == Find(s[d].entries, n, 0)
  }

  /** What is found in t is found in s. */
  ghost predicate Loses(s: seq<Node>, t: seq<Node>)
  {
    forall d, n :: IsDir(t, d) && Find(t[d].entries, n, 0) != 0 ==>
      IsDir(s, d) && Find(s[d].entries, n, 0) == Find(t[d].entries, n, 0)
  }

  /** A path that leads somewhere still leads there. */
  lemma {:induction false} WalkKept(s: seq<Node>, t: seq<Node>, x: int, es: seq<string>)
    requires Keeps(s, t) && Walk(s, x, es) != 0
    ensures Walk(t, x, es) == Walk(s, x, es)
    decreases |es|
  {
    if es != [] {
      WalkKept(s, t, Find(s[x].entries, es[0], 0), es[1..]);
    }
  }

  lemma LinkKeeps(s: seq<Node>, dp: int, k: int, name: string, x: int)
    requires IsDir(s, dp) && 1 <= x < |s| && Vacant(s[dp].entries, k) && !Present(s[dp].entries, name)
    ensures var t := LinkState(s, dp, k, name, x);
            Keeps(s, t) && IsDir(t, dp) && forall n :: Same(name, n) ==> Find(t[dp].entries, n, 0) == x
  {
    forall n
      ensures Find(Put(s[dp].entries, k, Dirent(x, Trim(name))), n, 0) == if Same(name, n) then x
        else Find(s[dp].entries, n, 0)
    {
      PutFind(s[dp].entries, k, x, name, n, 0);
    }
    AbsentNot(s[dp].entries, name);
  }

  lemma CreateKeeps(s: seq<Node>, dp: int, k: int, name: string, x: int, kind: int)
    requires IsDir(s, dp) && Makes(s, dp, k, x) && !Present(s[dp].entries, name)
    ensures var t := CreateState(s, dp, k, name, x, kind);
            Keeps(s, t) && IsDir(t, dp) && t[x].kind == kind
              && forall n :: Same(name, n) ==> Find(t[dp].entries, n, 0) == x
  {
    forall n
      ensures Find(Put(s[dp].entries, k, Dirent(x, Trim(name))), n, 0) == if Same(name, n) then x
        else Find(s[dp].entries, n, 0)
    {
      PutFind(s[dp].entries, k, x, name, n, 0);
    }
    AbsentNot(s[dp].entries, name);
  }

  lemma AbsentNot(e: seq<Dirent>, name: string)
    requires !Present(e, name)
    ensures forall n :: Same(name, n) ==> Find(e, n, 0) == 0
  {
    forall n | Same(name, n)
      ensures Find(e, n, 0) == 0
    {
      var j := FindAt(e, n, 0);
      assert 0 <= j < |e| && e[j].inum != 0 ==> !Same(e[j].name, name);
    }
  }

  /** A path leads nowhere new. */
  lemma {:induction false} WalkLost(s: seq<Node>, t: seq<Node>, x: int, es: seq<string>)
    requires Loses(s, t) && Walk(t, x, es) != 0
    ensures Walk(s, x, es) == Walk(t, x, es)
    decreases |es|
  {
    if es != [] {
      WalkLost(s, t, Find(t[x].entries, es[0], 0), es[1..]);
    }
  }

  lemma UnlinkLoses(s: seq<Node>, dp: int, name: string, k: int, x: int, open: bool)
    requires IsDir(s, dp) && Unique(s[dp].entries) && Removes(s, dp, name, k, x)
    ensures var t := Unlinked(s, dp, k, x, open);
            Loses(s, t) && forall n :: IsDir(t, dp) && Same(name, n) ==> Find(t[dp].entries, n, 0) == 0
  {
    forall n
      ensures Find(s[dp].entries[k := Dirent(0, "")], n, 0) == if Same(s[dp].entries[k].name, n) then 0
        else Find(s[dp].entries, n, 0)
    {
      EraseFind(s[dp].entries, k, n, 0);
    }
  }

  /** A path is the path of its directory and its last element. */
  lemma LeadsLast(s: seq<Node>, t: seq<Node>, path: string, cwd: int)
    requires (|t| == 0 || t[0].kind == 0) && Holder(s, path, cwd) != 0
    ensures var d := Walk(t, Origin(path, cwd), Elems(path, 0)[..|Elems(path, 0)| - 1]);
            Leads(t, path, cwd) == if IsDir(t, d) then Find(t[d].entries, Last(path), 0) else 0
  {
    var es := Elems(path, 0);
    assert es == es[..|es| - 1] + [Last(path)];
    WalkAppend(t, Origin(path, cwd), es[..|es| - 1], Last(path));
  }

  /** After link both paths lead to the file, and all paths lead where they did. */
  lemma LinkedPath(s: seq<Node>, a: string, b: string, cwd: int, t: seq<Node>)
    requires Good(s) && Does(s, Resolve(s, LinkPath(a, b), cwd), t)
      && Linkable(s, Leads(s, a, cwd), Holder(s, b, cwd), Last(b))
    ensures Leads(t, b, cwd) == Leads(t, a, cwd) == Leads(s, a, cwd)
    ensures forall path, from :: Leads(s, path, from) != 0 ==> Leads(t, path, from) == Leads(s, path, from)
  {
    var ip, dp, es := Leads(s, a, cwd), Holder(s, b, cwd), Elems(b, 0);
    var k :| Vacant(s[dp].entries, k) && t == LinkState(s, dp, k, Last(b), ip);
    LinkKeeps(s, dp, k, Last(b), ip);
    AllKept(s, t);
    WalkKept(s, t, Origin(b, cwd), es[..|es| - 1]);
    LeadsLast(s, t, b, cwd);
  }

  lemma AllKept(s: seq<Node>, t: seq<Node>)
    requires Keeps(s, t)
    ensures forall path, from :: Leads(s, path, from) != 0 ==> Leads(t, path, from) == Leads(s, path, from)
  {
    forall path, from | Leads(s, path, from) != 0
      ensures Leads(t, path, from) == Leads(s, path, from)
    {
      WalkKept(s, t, Origin(path, from), Elems(path, 0));
    }
  }

  /** After create the path leads to a new inode of the kind asked for, and all paths lead where they did. */
  lemma CreatedPath(s: seq<Node>, path: string, kind: int, cwd: int, t: seq<Node>)
    requires Good(s) && Does(s, Resolve(s, CreatePath(path, kind), cwd), t)
    requires Creates(s, Holder(s, path, cwd), Last(path))
    ensures var x := Leads(t, path, cwd);
            1 <= x < |s| == |t| && s[x].kind == 0 && t[x].kind == kind
    ensures forall path, from :: Leads(s, path, from) != 0 ==> Leads(t, path, from) == Leads(s, path, from)
  {
    var dp, es := Holder(s, path, cwd), Elems(path, 0);
    var k, x :| Makes(s, dp, k, x) && t == CreateState(s, dp, k, Last(path), x, kind);
    CreateKeeps(s, dp, k, Last(path), x, kind);
    AllKept(s, t);
    WalkKept(s, t, Origin(path, cwd), es[..|es| - 1]);
    LeadsLast(s, t, path, cwd);
  }

  /** After unlink the path leads nowhere, and every path that still leads somewhere leads where it did. */
  lemma UnlinkedPath(s: seq<Node>, path: string, open: bool, cwd: int, t: seq<Node>)
    requires Good(s) && Does(s, Resolve(s, UnlinkPath(path, open), cwd), t)
      && !Refuses(s, Holder(s, path, cwd), Last(path))
    ensures Leads(t, path, cwd) == 0
    ensures forall path, from :: Leads(t, path, from) != 0 ==> Leads(s, path, from) == Leads(t, path, from)
  {
    var dp, es, from := Holder(s, path, cwd), Elems(path, 0), Origin(path, cwd);
    var slot, depth :| Inv(s, slot, depth);
    var k, x :| Removes(s, dp, Last(path), k, x) && t == Unlinked(s, dp, k, x, open);
    UnlinkLoses(s, dp, Last(path), k, x, open);
    LeadsLast(s, t, path, cwd);
    if Walk(t, from, es[..|es| - 1]) != 0 {
      WalkLost(s, t, from, es[..|es| - 1]);
    }
    forall path, from | Leads(t, path, from) != 0
      ensures Leads(s, path, from) == Leads(t, path, from)
    {
      WalkLost(s, t, Origin(path, from), Elems(path, 0));
    }
  }
}
