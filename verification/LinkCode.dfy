/**
  dirlookup, dirlink, ialloc and namex of fs.c, and link, unlink, create and chdir of sysfile.c.  An inode number of 0
  stands for a path that namei or nameiparent did not find.
*/
module LinkCode {
  import opened Links
  import opened LinkOps
  import opened Paths
  import opened LinkRuns

  ghost function WithEntry(s: seq<Node>, dp: int, k: int, name: string, inum: int): seq<Node>
    requires 0 <= dp < |s| && 0 <= k <= |s[dp].entries|
  {
    s[dp := s[dp].(entries := Put(s[dp].entries, k, Dirent(inum, Trim(name))))]
  }

  class DirTree {
    var inodes: seq<Node>

    /** fs.c:524-548. */
    method Dirlookup(dp: int, name: string) returns (inum: int, off: int)
      requires IsDir(inodes, dp)
      ensures inum == Find(inodes[dp].entries, name, 0)
      ensures inum == 0 <==> !Present(inodes[dp].entries, name)
      ensures inum != 0 ==>
        Used(inodes, dp, off) && inodes[dp].entries[off].inum == inum && Same(inodes[dp].entries[off].name, name)
    {
      var e := inodes[dp].entries;
      off := 0;
      while off < |e|
        invariant 0 <= off <= |e| && Find(e, name, off) == Find(e, name, 0)
        invariant forall k :: 0 <= k < off ==> e[k].inum == 0 || !Same(e[k].name, name)
      {
        if e[off].inum != 0 && Same(name, e[off].name) {
          return e[off].inum, off;
        }
        off := off + 1;
      }
      return 0, 0;
    }

    /** fs.c:551-578.  The entry goes to the first free place, or to the end. */
    method Dirlink(dp: int, name: string, inum: int) returns (r: int, panicked: bool, ghost k: int)
      requires IsDir(inodes, dp) && |inodes[dp].entries| <= MAXENTRIES
      modifies this
      ensures r == -1 <==> Present(old(inodes)[dp].entries, name)
      ensures r == 0 || r == -1
      ensures panicked <==> r == 0 && Full(old(inodes)[dp].entries)
      ensures r == -1 || panicked ==> inodes == old(inodes)
      ensures r == 0 && !panicked ==>
        Vacant(old(inodes)[dp].entries, k) && inodes == WithEntry(old(inodes), dp, k, name, inum)
    {
      k := 0;
      var found, _ := Dirlookup(dp, name);
      if found != 0 {
        return -1, false, 0;
      }
      var e := inodes[dp].entries;
      var off := 0;
      while off < |e| && e[off].inum != 0
        invariant 0 <= off <= |e| && forall j :: 0 <= j < off ==> e[j].inum != 0
      {
        off := off + 1;
      }
      if off >= MAXENTRIES {
        return 0, true, 0;
      }
      k := off;
      if off < |e| {
        e := e[off := Dirent(inum, Trim(name))];
      } else {
        e := e + [Dirent(inum, Trim(name))];
      }
      inodes := inodes[dp := inodes[dp].(entries := e)];
      return 0, false, k;
    }

    /** sysfile.c:168-181. */
    method Isdirempty(dp: int) returns (empty: bool)
      requires IsDir(inodes, dp)
      ensures empty <==> forall k :: 2 <= k ==> !Used(inodes, dp, k)
    {
      var e := inodes[dp].entries;
      var k := 2;
      while k < |e|
        invariant 2 <= k && forall j :: 2 <= j < k ==> !Used(inodes, dp, j)
      {
        if e[k].inum != 0 {
          assert Used(inodes, dp, k);
          return false;
        }
        k := k + 1;
      }
      return true;
    }

    /** fs.c:194-214.  The first free inode; panics exactly if there is none. */
    method Ialloc(kind: int) returns (x: int, panicked: bool)
      modifies this
      ensures panicked <==> NoInode(old(inodes))
      ensures !panicked ==>
        1 <= x < |old(inodes)| && old(inodes)[x].kind == 0 && inodes == old(inodes)[x := Node(kind, 0, [])]
      ensures panicked ==> inodes == old(inodes)
    {
      x := 1;
      while x < |inodes|
        invariant 1 <= x && inodes == old(inodes)
        invariant forall i :: 1 <= i < x && i < |inodes| ==> inodes[i].kind != 0
      {
        if inodes[x].kind == 0 {
          inodes := inodes[x := Node(kind, 0, [])];
          return x, false;
        }
        x := x + 1;
      }
      return 0, true;
    }

    /** fs.c:331-352.  Dropping the last reference to an inode without links frees it. */
    method Iput(x: int, others: bool)
      requires Good(inodes) && 1 <= x < |inodes|
      modifies this
      ensures inodes == if old(inodes)[x].nlink == 0 && !others then FreeState(old(inodes), x) else old(inodes)
      ensures Good(inodes)
      ensures old(inodes)[x].nlink == 0 && !others ==>
        inodes[x].kind == 0 && inodes[x].entries == [] && inodes == old(inodes)[x := inodes[x]]
      ensures old(inodes)[x].nlink != 0 || others ==> inodes == old(inodes)
    {
      if inodes[x].nlink == 0 && !others {
        ghost var slot, depth :| Inv(inodes, slot, depth);
        FreeKeeps(inodes, slot, depth, x);
        inodes := inodes[x := Node(0, inodes[x].nlink, [])];
      }
    }

    /**
      sysfile.c:118-165.  A failed link leaves everything as it was; a successful one keeps the link counts
      right exactly if the directory is itself linked.
    */
    method SysLink(ip: int, dp: int, name: string) returns (r: int, panicked: bool, ghost k: int)
      requires Good(inodes) && (ip == 0 || (1 <= ip < |inodes| && inodes[ip].kind != 0))
        && (dp == 0 || IsDir(inodes, dp))
      modifies this
      ensures r == 0 || r == -1
      ensures r == 0 <==> ip != 0 && old(inodes)[ip].kind != T_DIR && dp != 0 && !Present(old(inodes)[dp].entries, name)
      ensures panicked <==> r == 0 && Full(old(inodes)[dp].entries)
      ensures r == -1 ==> inodes == old(inodes)
      ensures r == 0 && !panicked ==>
        Vacant(old(inodes)[dp].entries, k) && inodes == LinkState(old(inodes), dp, k, name, ip)
      ensures r == 0 && !panicked ==>
        EntryMade(old(inodes), inodes, dp, name, k, ip) && inodes[dp].nlink == old(inodes)[dp].nlink
          && inodes[ip] == old(inodes)[ip].(nlink := old(inodes)[ip].nlink + 1)
      ensures !panicked ==> (Good(inodes) <==> r == -1 || Linked(old(inodes), dp))
    {
      r, panicked, k := -1, false, 0;
      ghost var slot, depth :| Inv(inodes, slot, depth);
      if ip == 0 || inodes[ip].kind == T_DIR {
        return;
      }
      inodes := inodes[ip := inodes[ip].(nlink := inodes[ip].nlink + 1)];
      if dp != 0 {
        assert DotsOk(old(inodes), dp);
        r, panicked, k := Dirlink(dp, name, ip);
        if r == 0 {
          if !panicked {
            LinkGood(old(inodes), slot, depth, dp, k, name, ip);
            LinkMade(old(inodes), slot, depth, dp, k, name, ip);
          }
          return;
        }
      }
      inodes := inodes[ip := inodes[ip].(nlink := inodes[ip].nlink - 1)];
      assert inodes == old(inodes);
    }

    /**
      sysfile.c:184-239.  unlink never panics.  It removes an existing name other than the dots unless that
      is a directory with entries; otherwise nothing changes.
    */
    method SysUnlink(dp: int, name: string, others: bool) returns (r: int, panicked: bool, ghost k: int, ghost x: int)
      requires Good(inodes) && (dp == 0 || IsDir(inodes, dp))
      modifies this
      ensures !panicked && Good(inodes)
      ensures r == 0 || r == -1
      ensures r == -1 ==> inodes == old(inodes)
      ensures r == 0 <==> dp != 0 && Removes(old(inodes), dp, name, k, x)
      ensures r == -1 && dp != 0 && Present(old(inodes)[dp].entries, name) ==>
        Same(name, ".") || Same(name, "..") || NonEmpty(old(inodes), dp, name, k, x)
      ensures r == 0 ==>
        inodes == (var t := UnlinkState(old(inodes), dp, k, x); if t[x].nlink == 0 && !others then FreeState(t, x)
          else t)
      ensures r == 0 ==> Removed(old(inodes), inodes, dp, name, k, x, others)
    {
      r, panicked, k, x := -1, false, 0, 0;
      if dp == 0 || Same(name, ".") || Same(name, "..") {
        return;
      }
      var ip, off := Dirlookup(dp, name);
      if ip == 0 {
        return;
      }
      k, x := off, ip;
      ghost var slot, depth :| Inv(inodes, slot, depth);
      BeyondDots(inodes, slot, depth, dp, off, name);
      UnlinkSafe(inodes, slot, depth, dp, off);
      if inodes[ip].nlink < 1 {
        return -1, true, 0, 0;
      }
      if inodes[ip].kind == T_DIR {
        var empty := Isdirempty(ip);
        if !empty {
          return;
        }
      }
      RemoveEntry(dp, off, ip, slot, depth);
      RemovedBy(old(inodes), slot, depth, dp, name, k, x, others);
      Iput(ip, others);
      r := 0;
    }

    /** sysfile.c:218-228. */
    method RemoveEntry(dp: int, off: int, ip: int, ghost slot: seq<int>, ghost depth: seq<int>)
      requires CanUnlink(inodes, slot, depth, dp, off, ip) && ip != dp && 1 <= ip < |inodes|
      modifies this
      ensures inodes == UnlinkState(old(inodes), dp, off, ip) && Good(inodes)
    {
      inodes := inodes[dp := inodes[dp].(entries := inodes[dp].entries[off := Dirent(0, "")])];
      if inodes[ip].kind == T_DIR {
        inodes := inodes[dp := inodes[dp].(nlink := inodes[dp].nlink - 1)];
      }
      inodes := inodes[ip := inodes[ip].(nlink := inodes[ip].nlink - 1)];
      assert inodes == UnlinkState(old(inodes), dp, off, ip);
      UnlinkCounts(old(inodes), slot, depth, dp, off, ip);
      UnlinkTree(old(inodes), slot, depth, dp, off, ip);
      assert Inv(inodes, slot, depth);
    }

    /**
      sysfile.c:241-283.  An existing name is returned for a file asked for as a file, and nothing changes (in an
      unlinked directory ".." may name a free inode, and locking it panics); otherwise a new inode is made.  The
      invariant survives exactly if the directory is linked.
    */
    method CreateNode(dp: int, name: string, kind: int) returns (x: int, made: bool, panicked: bool, ghost k: int)
      requires Good(inodes) && (dp == 0 || IsDir(inodes, dp)) && kind in {T_DIR, T_FILE, T_DEV}
      modifies this
      ensures made <==> dp != 0 && !Present(old(inodes)[dp].entries, name)
      ensures !made ==>
        inodes == old(inodes) && (panicked <==> dp != 0 && !InUse(inodes, Find(inodes[dp].entries, name, 0)))
      ensures Linked(old(inodes), dp) && !made ==> !panicked
      ensures !made && !panicked ==>
        x == if dp == 0 then 0 else Reopened(inodes, Find(inodes[dp].entries, name, 0), kind)
      ensures !made && !panicked && x != 0 ==>
        kind == T_FILE && 0 <= x < |inodes| && inodes[x].kind == T_FILE
          && (Linked(inodes, dp) ==> Names(inodes, dp, k, x))
      ensures dp != 0 && kind == T_FILE ==>
        forall y :: IsFileNamed(old(inodes), dp, name, y) ==> x == y && !made && !panicked
      ensures made ==> (panicked <==> NoInode(old(inodes)) || Full(old(inodes)[dp].entries))
      ensures made && !panicked ==>
        && 1 <= x < |old(inodes)| && old(inodes)[x].kind == 0 && Vacant(old(inodes)[dp].entries, k)
        && inodes == CreateState(old(inodes), dp, k, name, x, kind)
      ensures made && !panicked ==>
        EntryMade(old(inodes), inodes, dp, name, k, x) && inodes[x].kind == kind && inodes[x].nlink == 1
          && inodes[x].entries == (if kind == T_DIR then [Dirent(x, "."), Dirent(dp, "..")] else [])
          && inodes[dp].nlink == old(inodes)[dp].nlink + if kind == T_DIR then 1 else 0
      ensures !panicked ==> (Good(inodes) <==> !made || Linked(old(inodes), dp))
    {
      x, made, panicked, k := 0, false, false, 0;
      if dp == 0 {
        return;
      }
      ghost var slot, depth :| Inv(inodes, slot, depth);
      assert DotsOk(inodes, dp);
      var ip, off := Dirlookup(dp, name);
      if ip != 0 {
        k := off;
        OnlyFile(inodes, dp, name, off);
        FoundFile(inodes, slot, depth, dp, off);
        if Linked(inodes, dp) {
          FoundLinked(inodes, slot, depth, dp, off);
        }
        if !(0 <= ip < |inodes|) || inodes[ip].kind == 0 {
          return 0, false, true, k;
        }
        if kind == T_FILE && inodes[ip].kind == T_FILE {
          return ip, false, false, k;
        }
        return;
      }
      made := true;
      x, panicked, k := MakeNode(dp, name, kind, slot, depth);
    }

    /** The new inode and its entry (sysfile.c:260-282). */
    method MakeNode(dp: int, name: string, kind: int, ghost slot: seq<int>, ghost depth: seq<int>)
      returns (x: int, panicked: bool, ghost k: int)
      requires Inv(inodes, slot, depth) && IsDir(inodes, dp) && kind in {T_DIR, T_FILE, T_DEV}
        && !Present(inodes[dp].entries, name)
      modifies this
      ensures panicked <==> NoInode(old(inodes)) || Full(old(inodes)[dp].entries)
      ensures !panicked ==>
        && 1 <= x < |old(inodes)| && old(inodes)[x].kind == 0 && Vacant(old(inodes)[dp].entries, k)
        && inodes == CreateState(old(inodes), dp, k, name, x, kind) && (Good(inodes) <==> Linked(old(inodes), dp))
        && EntryMade(old(inodes), inodes, dp, name, k, x)
    {
      assert DotsOk(inodes, dp);
      k := 0;
      x, panicked := Ialloc(kind);
      if panicked {
        return;
      }
      inodes := inodes[x := inodes[x].(nlink := 1)];
      if kind == T_DIR {
        inodes := inodes[dp := inodes[dp].(nlink := inodes[dp].nlink + 1)];
        AddDots(x, dp);
      }
      var r;
      r, panicked, k := Dirlink(dp, name, x);
      if !panicked {
        assert inodes == CreateState(old(inodes), dp, k, name, x, kind);
        CreateGood(old(inodes), slot, depth, dp, k, name, x, kind);
        CreateMade(old(inodes), slot, depth, dp, k, name, x, kind);
      }
    }

    /** sysfile.c:269-275. */
    method AddDots(x: int, dp: int)
      requires IsDir(inodes, x) && x != 0 && inodes[x].entries == []
      modifies this
      ensures inodes == old(inodes)[x := old(inodes)[x].(entries := [Dirent(x, "."), Dirent(dp, "..")])]
    {
      var r, p; ghost var k;
      r, p, k := Dirlink(x, ".", x);
      assert inodes[x].entries == [Dirent(x, ".")];
      assert |Trim(".")| == 1 && |Trim("..")| == 2;
      assert !Present(inodes[x].entries, "..");
      r, p, k := Dirlink(x, "..", dp);
      assert inodes[x].entries == [Dirent(x, "."), Dirent(dp, "..")];
    }

    /** One round of the loop of namex (fs.c:634-650). */
    method NamexStep(path: string, parent: bool, ip: int, p: int, ghost from: int, ghost done: seq<string>)
      returns (stop: bool, ip': int, name: string, panicked: bool, p': int, ghost done': seq<string>)
      requires Good(inodes) && Walking(inodes, from, path, parent, ip, p, done)
      ensures if stop then
                if panicked then !Linked(inodes, from) && exists n :: MeetsFree(inodes, from, Elems(path, 0), n)
                else
                  && Answers(inodes, from, Elems(path, 0), parent, ip', name)
                  && !exists n :: MeetsFree(inodes, from, Elems(path, 0), n)
              else p < p' && !panicked && Walking(inodes, from, path, parent, ip', p', done')
    {
      stop, panicked, p', done' := true, false, p, done;
      ghost var rest := Elems(path, p);
      var found, next;
      found, name, next := Skipelem(path, p);
      if !found {
        AnswerEnd(inodes, from, done, rest, parent, ip, name);
        NothingFree(inodes, from, done, rest);
        ip' := if parent then 0 else ip;
        return;
      }
      if !(0 <= ip < |inodes|) || inodes[ip].kind == 0 {
        FreeMet(inodes, from, done, rest);
        return true, 0, name, true, p, done;
      }
      if inodes[ip].kind != T_DIR {
        WalkFails(inodes, from, done, rest);
        NothingFree(inodes, from, done, rest);
        return true, 0, name, false, p, done;
      }
      ghost var tail := Elems(path, next);
      Regrouped(done, name, tail);
      if parent && next == |path| {
        AnswerParent(inodes, from, done, name, tail, ip);
        NothingFree(inodes, from, done, rest);
        ip' := ip;
        return;
      }
      var x, _ := Dirlookup(ip, name);
      WalkAppend(inodes, from, done, name);
      if x == 0 {
        WalkMisses(inodes, from, done + [name], tail);
        NothingFree(inodes, from, done, rest);
        return true, 0, name, false, p, done;
      }
      return false, x, name, false, next, done + [name];
    }

    /**
      fs.c:624-657.  namei and nameiparent: the inode the path leads to, or the directory of its last element
      and that element.  From the root or a linked directory the walk never meets a free inode.
    */
    method Namex(path: string, parent: bool, cwd: int) returns (ip: int, name: string, panicked: bool)
      requires Good(inodes)
      ensures Absolute(path) || Linked(inodes, cwd) ==> !panicked
      ensures panicked <==> WayPanics(inodes, path, cwd)
      ensures !panicked ==> Answers(inodes, Origin(path, cwd), Elems(path, 0), parent, ip, name)
    {
      assert Linked(inodes, ROOTINO);
      ghost var from, done := Origin(path, cwd), Elems(path, 0)[..0];
      ip, name, panicked := if path != "" && path[0] == '/' then ROOTINO else cwd, "", false;
      var p, stop := 0, false;
      while !stop
        invariant if stop then
                    if panicked then !Linked(inodes, from) && exists n :: MeetsFree(inodes, from, Elems(path, 0), n)
                    else
                      && Answers(inodes, from, Elems(path, 0), parent, ip, name)
                      && !exists n :: MeetsFree(inodes, from, Elems(path, 0), n)
                  else !panicked && Walking(inodes, from, path, parent, ip, p, done)
        decreases if stop then -1 else |path| - p
      {
        stop, ip, name, panicked, p, done := NamexStep(path, parent, ip, p, from, done);
      }
    }

    /** A call on inodes; it keeps the invariant if and only if it makes no entry in an unlinked directory. */
    method Do(c: Call) returns (panicked: bool)
      requires Good(inodes) && Resolved(inodes, c)
      modifies this
      ensures panicked <==> Panics(old(inodes), c)
      ensures !panicked ==> Does(old(inodes), c, inodes) && (Good(inodes) <==> Safe(old(inodes), c))
    {
      panicked := false;
      match c {
        case Link(ip, dp, name) =>
          var r; ghost var k;
          r, panicked, k := SysLink(ip, dp, name);
        case Unlink(dp, name, open) =>
          var r; ghost var k; ghost var x;
          ghost var slot, depth :| Inv(inodes, slot, depth);
          r, panicked, k, x := SysUnlink(dp, name, open);
          if r == 0 {
            RemovesOrRefuses(old(inodes), slot, depth, dp, name, k, x);
          }
        case Create(dp, name, kind) =>
          var x, made; ghost var k;
          x, made, panicked, k := CreateNode(dp, name, kind);
          assert made && !panicked ==> Makes(old(inodes), dp, k, x);
        case Close(ip) =>
          Iput(ip, false);
      }
    }

    /** link by path names (sysfile.c:118-165). */
    method DoLink(a: string, b: string, cwd: int) returns (panicked: bool)
      requires Good(inodes)
      modifies this
      ensures panicked <==> PathPanics(old(inodes), LinkPath(a, b), cwd)
      ensures !panicked ==> PathDoes(old(inodes), LinkPath(a, b), cwd, inodes)
      ensures !panicked ==> (Good(inodes) <==> PathSafe(old(inodes), LinkPath(a, b), cwd))
    {
      var ip, dp, name, other;
      HolderIsDir(inodes, b, cwd);
      ip, other, panicked := Namex(a, false, cwd);
      if panicked || ip == 0 {
        return;
      }
      if !(0 <= ip < |inodes|) || inodes[ip].kind == 0 {
        return true;
      }
      if inodes[ip].kind == T_DIR {
        return;
      }
      dp, name, panicked := Namex(b, true, cwd);
      if !panicked {
        panicked := Do(Link(ip, dp, if dp == 0 then Last(b) else name));
      }
    }

    /**
      link, unlink, open with O_CREATE, mkdir, mknod and chdir by path name, in a process whose directory is cwd, which
      may have been unlinked.
    */
    method Perform(c: PathCall, cwd: int) returns (now: int, panicked: bool)
      requires Good(inodes) && Typed(c)
      modifies this
      ensures panicked <==> PathPanics(old(inodes), c, cwd)
      ensures !panicked ==> PathDoes(old(inodes), c, cwd, inodes) && (Good(inodes) <==> PathSafe(old(inodes), c, cwd))
      ensures !panicked ==> now == CwdAfter(old(inodes), c, cwd)
    {
      now := cwd;
      match c {
        case LinkPath(a, b) =>
          panicked := DoLink(a, b, cwd);
        case UnlinkPath(path, open) =>
          var dp, name;
          HolderIsDir(inodes, path, cwd);
          dp, name, panicked := Namex(path, true, cwd);
          if !panicked {
            panicked := Do(Unlink(dp, if dp == 0 then Last(path) else name, open));
          }
        case CreatePath(path, kind) =>
          var dp, name;
          HolderIsDir(inodes, path, cwd);
          dp, name, panicked := Namex(path, true, cwd);
          if !panicked {
            panicked := Do(Create(dp, if dp == 0 then Last(path) else name, kind));
          }
        case Chdir(path) =>
          var ip, name;
          ip, name, panicked := Namex(path, false, cwd);
          if !panicked && ip != 0 {
            if !(0 <= ip < |inodes|) || inodes[ip].kind == 0 {
              return now, true;
            }
            if inodes[ip].kind == T_DIR {
              now := ip;
            }
          }
      }
    }

    /**
      Every sequential run of calls by path name: the states are those the calls lead to, each with right link counts
      and a tree of directories.  It stops only at a call that panics, or that makes an entry in an unlinked directory.
    */
    method RunPaths(calls: seq<PathCall>, start: int)
      returns (cwd: int, panicked: bool, broken: bool, ghost places: seq<Place>)
      requires Good(inodes) && forall i :: 0 <= i < |calls| ==> Typed(calls[i])
      modifies this
      ensures PathTrace(places, calls) && places[0] == Place(old(inodes), start)
      ensures !panicked && !broken ==> |places| == |calls| + 1 && places[|calls|] == Place(inodes, cwd)
      ensures panicked ==>
        |places| <= |calls| && var p := places[|places| - 1]; PathPanics(p.tree, calls[|places| - 1], p.cwd)
      ensures broken ==>
        |places| <= |calls|
          && var p := places[|places| - 1]; !PathSafe(p.tree, calls[|places| - 1], p.cwd) && !Good(inodes)
    {
      cwd, panicked, broken, places := start, false, false, [Place(inodes, start)];
      for i := 0 to |calls|
        invariant !panicked && !broken && PathTrace(places, calls) && |places| == i + 1
        invariant places[i] == Place(inodes, cwd) && places[0] == Place(old(inodes), start)
      {
        var safe := PathSafe(inodes, calls[i], cwd);
        cwd, panicked := Perform(calls[i], cwd);
        if panicked {
          return;
        }
        if !safe {
          return cwd, false, true, places;
        }
        PathTraceMore(places, calls, Place(inodes, cwd));
        places := places + [Place(inodes, cwd)];
      }
    }

    /** The same for calls on inodes. */
    method Run(calls: seq<Call>) returns (panicked: bool, broken: bool, ghost states: seq<seq<Node>>)
      requires Good(inodes)
      modifies this
      ensures Trace(states, calls) && states[0] == old(inodes)
      ensures !panicked && !broken ==> |states| == |calls| + 1 && states[|calls|] == inodes
      ensures panicked ==> |states| <= |calls| && Panics(states[|states| - 1], calls[|states| - 1])
      ensures broken ==> |states| <= |calls| && !Safe(states[|states| - 1], calls[|states| - 1]) && !Good(inodes)
    {
      panicked, broken, states := false, false, [inodes];
      for i := 0 to |calls|
        invariant !panicked && !broken && Trace(states, calls) && |states| == i + 1 && states[i] == inodes
          && states[0] == old(inodes)
      {
        if Resolved(inodes, calls[i]) {
          var safe := Safe(inodes, calls[i]);
          panicked := Do(calls[i]);
          if panicked {
            return;
          }
          if !safe {
            return false, true, states;
          }
        }
        TraceMore(states, calls, inodes);
        states := states + [inodes];
      }
    }
  }

  // ---------------------------------------------------------------------------------------------
  // The invariant before and after
  // ---------------------------------------------------------------------------------------------

  /** Lookup from the root or a linked directory finds inodes in use, and linked directories only. */
  lemma WalksLinked(s: seq<Node>, path: string, cwd: int)
    requires Good(s) && Started(s, path, cwd)
    ensures var x := Walk(s, Origin(path, cwd), Elems(path, 0));
            x == 0 || (1 <= x < |s| && s[x].kind != 0)
    ensures var d := ParentDir(s, Origin(path, cwd), Elems(path, 0));
            d == 0 || Linked(s, d)
  {
    var slot, depth :| Inv(s, slot, depth);
    var es, from := Elems(path, 0), Origin(path, cwd);
    WalkLinked(s, slot, depth, from, es);
    if es != [] {
      WalkLinked(s, slot, depth, from, es[..|es| - 1]);
    }
  }

  /** ip and name are what namei, or nameiparent, says about the elements from x. */
  predicate Answers(s: seq<Node>, x: int, es: seq<string>, parent: bool, ip: int, name: string)
  {
    if parent then ip == ParentDir(s, x, es) && (ip != 0 ==> es != [] && name == es[|es| - 1] && IsDir(s, ip))
    else ip == Walk(s, x, es)
  }

  /** The elements done have led to ip, and the rest of the path starts at p. */
  predicate Walking(s: seq<Node>, x: int, path: string, parent: bool, ip: int, p: int, done: seq<string>)
  {
    && 0 <= p <= |path| && Elems(path, 0) == done + Elems(path, p) && ip == Walk(s, x, done)
    && (done == [] || ip != 0) && (parent ==> done == [] || Elems(path, p) != [])
  }

  lemma AnswerEnd(s: seq<Node>, x: int, done: seq<string>, rest: seq<string>, parent: bool, ip: int, name: string)
    requires rest == [] && ip == Walk(s, x, done) && (parent ==> done == [])
    ensures Answers(s, x, done + rest, parent, if parent then 0 else ip, name)
  {
    assert done + rest == done;
  }

  lemma AnswerParent(s: seq<Node>, x: int, done: seq<string>, name: string, tail: seq<string>, ip: int)
    requires ip == Walk(s, x, done) && IsDir(s, ip) && tail == []
    ensures Answers(s, x, done + ([name] + tail), true, ip, name)
  {
    var es := done + ([name] + tail);
    assert es[..|es| - 1] == done;
  }

  /** A walk that fails on the way leads nowhere. */
  lemma WalkFails(s: seq<Node>, x: int, done: seq<string>, rest: seq<string>)
    requires |s| > 0 && s[0].kind == 0 && rest != [] && !IsDir(s, Walk(s, x, done))
    ensures Walk(s, x, done + rest) == 0 && ParentDir(s, x, done + rest) == 0
  {
    var es, front := done + rest, rest[..|rest| - 1];
    WalkFrom(s, x, done, rest);
    assert es[..|es| - 1] == done + front;
    WalkFrom(s, x, done, front);
  }

  /** So does one whose last element is not there. */
  lemma WalkMisses(s: seq<Node>, x: int, es: seq<string>, rest: seq<string>)
    requires |s| > 0 && s[0].kind == 0 && es != [] && Walk(s, x, es) == 0
    ensures Walk(s, x, es + rest) == 0 && (rest != [] ==> ParentDir(s, x, es + rest) == 0)
  {
    if rest == [] {
      assert es + rest == es;
    } else {
      WalkFails(s, x, es, rest);
    }
  }

  /** A walk whose last step is the first to fail, or that needs no further one, meets no free inode. */
  lemma NothingFree(s: seq<Node>, x: int, done: seq<string>, rest: seq<string>)
    requires |s| > 0 && s[0].kind == 0 && (done == [] || Walk(s, x, done) != 0)
    requires rest != [] ==>
               var d := Walk(s, x, done);
               InUse(s, d) && (|rest| == 1 || !IsDir(s, d) || Find(s[d].entries, rest[0], 0) == 0)
    ensures !exists n :: MeetsFree(s, x, done + rest, n)
  {
    var es := done + rest;
    forall n
      ensures !MeetsFree(s, x, es, n)
    {
      if 0 <= n < |done| {
        WalkFrom(s, x, done[..n], done[n..]);
        assert es[..n] == done[..n] && done[..n] + done[n..] == done;
      } else if n == |done| {
        assert es[..n] == done;
      } else if |done| < n < |es| {
        var more := rest[..n - |done|];
        assert es[..n] == done + more && more[0] == rest[0];
        WalkFrom(s, x, done, more);
      }
    }
  }

  /** The directory of a path is a directory. */
  lemma HolderIsDir(s: seq<Node>, path: string, cwd: int)
    requires Good(s)
    ensures Holder(s, path, cwd) == 0 || IsDir(s, Holder(s, path, cwd))
    ensures IsDir(s, Holder(s, path, cwd)) ==> Holder(s, path, cwd) != 0
  {
  }

  /** From the root or a linked directory nothing free is met, and nothing is made in an unlinked directory. */
  lemma StartedSafe(s: seq<Node>, c: PathCall, cwd: int)
    requires Good(s) && AllStarted(s, c, cwd) && Typed(c)
    ensures PathSafe(s, c, cwd)
    ensures PathPanics(s, c, cwd) ==> !c.Chdir? && Panics(s, Resolve(s, c, cwd))
  {
    match c
    case LinkPath(a, b) =>
      WalksLinked(s, a, cwd);
      WalksLinked(s, b, cwd);
      WayOk(s, a, cwd);
      WayOk(s, b, cwd);
    case UnlinkPath(path, _) =>
      WalksLinked(s, path, cwd);
      WayOk(s, path, cwd);
    case CreatePath(path, _) =>
      WalksLinked(s, path, cwd);
      WayOk(s, path, cwd);
    case Chdir(path) =>
      WalksLinked(s, path, cwd);
      WayOk(s, path, cwd);
  }

  lemma WayOk(s: seq<Node>, path: string, cwd: int)
    requires Good(s) && Started(s, path, cwd)
    ensures !WayPanics(s, path, cwd)
  {
    var slot, depth :| Inv(s, slot, depth);
    forall n
      ensures !MeetsFree(s, Origin(path, cwd), Elems(path, 0), n)
    {
      if 0 <= n < |Elems(path, 0)| {
        WalkLinked(s, slot, depth, Origin(path, cwd), Elems(path, 0)[..n]);
      }
    }
  }

  lemma Regrouped(done: seq<string>, name: string, tail: seq<string>)
    ensures done + ([name] + tail) == (done + [name]) + tail
  {
  }

  /** A walk from a linked directory does not come to a free inode. */
  lemma FreeMet(s: seq<Node>, x: int, done: seq<string>, rest: seq<string>)
    requires Good(s) && rest != []
      && var y := Walk(s, x, done); (done == [] || y != 0) && (!(0 <= y < |s|) || s[y].kind == 0)
    ensures MeetsFree(s, x, done + rest, |done|) && !Linked(s, x)
  {
    var slot, depth :| Inv(s, slot, depth);
    assert (done + rest)[..|done|] == done;
    if Linked(s, x) {
      WalkLinked(s, slot, depth, x, done);
    }
  }

  lemma LinkGood(s: seq<Node>, slot: seq<int>, depth: seq<int>, dp: int, k: int, name: string, x: int)
    requires CanLink(s, slot, depth, dp, k, name, x)
    ensures Good(LinkState(s, dp, k, name, x)) <==> Linked(s, dp)
  {
    LinkCounts(s, slot, depth, dp, k, name, x);
    if Linked(s, dp) {
      LinkTree(s, slot, depth, dp, k, name, x);
      assert Inv(LinkState(s, dp, k, name, x), slot, depth);
    }
  }

  lemma CreateGood(s: seq<Node>, slot: seq<int>, depth: seq<int>, dp: int, k: int, name: string, x: int, kind: int)
    requires CanCreate(s, slot, depth, dp, k, name, x, kind)
    ensures Good(CreateState(s, dp, k, name, x, kind)) <==> Linked(s, dp)
  {
    var t := CreateState(s, dp, k, name, x, kind);
    if Linked(s, dp) {
      CreateCounts(s, slot, depth, dp, k, name, x, kind);
      CreateTree(s, slot, depth, dp, k, name, x, kind);
      assert Inv(t, slot[x := k], depth[x := depth[dp] + 1]);
    } else {
      forall slot', depth'
        ensures !Inv(t, slot', depth')
      {
        CreateUnlinked(s, slot, depth, dp, k, name, x, kind, slot', depth');
      }
    }
  }

  /** Names are unique, so the entry found is the only one with that name, and without it there is none. */
  lemma OnlyOne(e: seq<Dirent>, off: int, name: string)
    requires Unique(e) && 0 <= off < |e| && e[off].inum != 0 && Same(e[off].name, name)
    ensures forall j :: 0 <= j < |e| && e[j].inum != 0 && Same(e[j].name, name) ==> j == off
    ensures !Present(e[off := Dirent(0, "")], name)
  {
    forall j | 0 <= j < |e| && e[j].inum != 0 && Same(e[j].name, name)
      ensures j == off
    {
      assert Apart(e, off, j);
    }
  }

  /** What unlink does: entry k and one link of x are gone, and with its last reference x is free. */
  predicate Removed(was: seq<Node>, now: seq<Node>, dp: int, name: string, k: int, x: int, others: bool)
  {
    && |now| == |was| && 0 <= dp < |was| && 0 <= x < |was| && x != dp && 0 <= k < |was[dp].entries|
    && now == was[x := now[x]][dp := now[dp]]
    && now[x].nlink == was[x].nlink - 1
    && now[x].kind == (if was[x].nlink == 1 && !others then 0 else was[x].kind)
    && (was[x].nlink > 1 || others ==> now[x].entries == was[x].entries)
    && now[dp].entries == was[dp].entries[k := Dirent(0, "")] && !Present(now[dp].entries, name)
    && now[dp].kind == T_DIR && now[dp].nlink == was[dp].nlink - (if was[x].kind == T_DIR then 1 else 0)
  }

  lemma RemovedBy(s: seq<Node>, slot: seq<int>, depth: seq<int>, dp: int, name: string, k: int, x: int, others: bool)
    requires CanUnlink(s, slot, depth, dp, k, x) && Same(s[dp].entries[k].name, name)
    ensures 0 <= x < |s| && Removed(s, Unlinked(s, dp, k, x, others), dp, name, k, x, others)
  {
    UnlinkSafe(s, slot, depth, dp, k);
    OnlyOne(s[dp].entries, k, name);
  }

  /** Entry k of dp is new and is what the name finds; no other entry and no third inode has changed. */
  predicate EntryMade(was: seq<Node>, now: seq<Node>, dp: int, name: string, k: int, x: int)
  {
    && |now| == |was| && 0 <= dp < |was| && 0 <= x < |was| && x != dp && now == was[x := now[x]][dp := now[dp]]
    && now[dp].kind == was[dp].kind && 0 <= k < |now[dp].entries|
    && now[dp].entries[k] == Dirent(x, Trim(name)) && Find(now[dp].entries, name, 0) == x
    && |now[dp].entries| == (if k < |was[dp].entries| then |was[dp].entries| else |was[dp].entries| + 1)
    && forall j :: 0 <= j < |now[dp].entries| && j != k ==>
        j < |was[dp].entries| && now[dp].entries[j] == was[dp].entries[j]
  }

  lemma LinkMade(s: seq<Node>, slot: seq<int>, depth: seq<int>, dp: int, k: int, name: string, x: int)
    requires CanLink(s, slot, depth, dp, k, name, x)
    ensures EntryMade(s, LinkState(s, dp, k, name, x), dp, name, k, x)
  {
    PutFind(s[dp].entries, k, x, name, name, 0);
  }

  lemma CreateMade(s: seq<Node>, slot: seq<int>, depth: seq<int>, dp: int, k: int, name: string, x: int, kind: int)
    requires CanCreate(s, slot, depth, dp, k, name, x, kind)
    ensures EntryMade(s, CreateState(s, dp, k, name, x, kind), dp, name, k, x)
  {
    PutFind(s[dp].entries, k, x, name, name, 0);
  }

  /** The name leads from directory dp to the file y. */
  ghost predicate IsFileNamed(s: seq<Node>, dp: int, name: string, y: int)
  {
    0 <= y < |s| && s[y].kind == T_FILE
    && exists j :: Used(s, dp, j) && Same(s[dp].entries[j].name, name) && s[dp].entries[j].inum == y
  }

  lemma OnlyFile(s: seq<Node>, dp: int, name: string, off: int)
    requires IsDir(s, dp) && Unique(s[dp].entries) && Used(s, dp, off) && Same(s[dp].entries[off].name, name)
    ensures forall y :: IsFileNamed(s, dp, name, y) ==> y == s[dp].entries[off].inum
  {
    OnlyOne(s[dp].entries, off, name);
  }

  lemma BeyondDots(s: seq<Node>, slot: seq<int>, depth: seq<int>, dp: int, k: int, name: string)
    requires Tree(s, slot, depth) && IsDir(s, dp) && Used(s, dp, k) && Same(s[dp].entries[k].name, name)
    requires !Same(name, ".") && !Same(name, "..")
    ensures 2 <= k
  {
    assert DotsOk(s, dp);
  }

  lemma FoundFile(s: seq<Node>, slot: seq<int>, depth: seq<int>, dp: int, k: int)
    requires Inv(s, slot, depth) && IsDir(s, dp) && Used(s, dp, k)
    ensures var x := s[dp].entries[k].inum;
            Linked(s, dp) && 0 <= x < |s| && s[x].kind == T_FILE ==> Names(s, dp, k, x)
  {
    assert DotsOk(s, dp) && ChildOk(s, slot, depth, dp);
    if k >= 2 {
      NotDot(s, slot, depth, dp, k);
    }
  }
}
