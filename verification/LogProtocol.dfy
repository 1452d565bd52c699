/**
  log.c as a concurrent step system.  Any number of file-system calls, readers outside any
  transaction, the committing process and the recovery code interleave; every step contains at most
  one disk write, and the machine may crash between any two steps (also while recovering).
*/
module LogProtocol {
  import opened Disk

  /** Who holds a buffer's sleep-lock.  `touched` marks data changed since the last log_write. */
  datatype Holder = Nobody | Reader | ByOp(id: int, touched: bool)

  /** A valid cached block. */
  datatype Buf = Buf(data: Block, dirty: bool, holder: Holder)

  datatype Event = Begin(id: int) | Write(id: int, b: int, data: Block) | End(id: int)

  datatype Pc =
    | Up                       // no commit in progress
    | WriteLog(tail: int)      // commit: copying cache blocks to the log
    | CommitHead               // commit: about to write the header, the real commit point
    | Install(tail: int)       // commit: copying log blocks home
    | ClearHead                // commit: about to erase the transaction
    | Finish                   // commit: about to clear log.committing
    | RecRead                  // booted, header not read yet
    | RecInstall(tail: int)    // recovery: copying log blocks home
    | RecClear                 // recovery: about to clear the header

  /**
    `ops` maps every outstanding operation to the number of blocks it has appended to the log
    (log.outstanding is its size), and `opBound` is the number each may append.  `base`, `hist` and
    `mark` are history: the image the system started from, everything operations did since, and how
    much of that has been committed.
  */
  datatype State = State(
    layout: Layout,
    opBound: int,
    disk: seq<Block>,
    cache: map<int, Buf>,
    lh: seq<int>,
    committing: bool,
    ops: map<int, int>,
    pc: Pc,
    base: seq<Block>,
    hist: seq<Event>,
    mark: int
  )

  datatype Step =
    | BeginOp(id: int)
    | OpRead(id: int, b: int)
    | OpModify(id: int, b: int, data: Block)
    | LogWrite(id: int, b: int)
    | OpRelease(id: int, b: int)
    | EndOp(id: int)
    | ReaderGet(b: int)
    | ReaderRelease(b: int)
    | Evict(b: int)
    | CommitStep
    | Crash
    | RecoverStep

  // ---------------------------------------------------------------------------------------------
  // The steps
  // ---------------------------------------------------------------------------------------------

  /** What bread returns: the cached data if there is any, the disk block otherwise (bio.c:96-106). */
  function Look(cache: map<int, Buf>, disk: seq<Block>, b: int): Block
    requires 0 <= b < |disk|
  {
    if b in cache then cache[b].data else disk[b]
  }

  function View(s: State, b: int): Block
    requires 0 <= b < |s.disk|
  {
    Look(s.cache, s.disk, b)
  }

  predicate Free(s: State, b: int)
  {
    b in s.cache ==> s.cache[b].holder == Nobody
  }

  predicate HeldBy(s: State, id: int, b: int)
  {
    b in s.cache && s.cache[b].holder.ByOp? && s.cache[b].holder.id == id
  }

  predicate Running(s: State)
  {
    !s.pc.RecRead? && !s.pc.RecInstall? && !s.pc.RecClear?
  }

  /** The guard of begin_op (log.c:130-139). */
  predicate Admits(s: State)
  {
    !s.committing && |s.lh| + (|s.ops| + 1) * MAXOPBLOCKS <= LOGSIZE
  }

  /** bread followed by locking: the block is cached and locked by `h`. */
  function Get(s: State, b: int, h: Holder): State
    requires 0 <= b < |s.disk|
  {
    var dirty := b in s.cache && s.cache[b].dirty;
    s.(cache := s.cache[b := Buf(View(s, b), dirty, h)])
  }

  function SetHolder(s: State, b: int, h: Holder): State
    requires b in s.cache
  {
    s.(cache := s.cache[b := s.cache[b].(holder := h)])
  }

  /** bwrite: the block reaches the disk and the buffer is valid and clean (memide.c:38-60). */
  function Put(s: State, b: int, data: Block): State
    requires 0 <= b < |s.disk|
  {
    s.(disk := s.disk[b := data], cache := s.cache[b := Buf(data, false, Nobody)])
  }

  /** The checks at the top of log_write (log.c:218-221). */
  predicate LogWritePanics(s: State)
  {
    s.layout.Limit() <= |s.lh| || |s.ops| < 1
  }

  /** log_write's absorption loop (log.c:223-233) on values. */
  function Logged(lh: seq<int>, b: int): seq<int>
  {
    if b in lh then lh else lh + [b]
  }

  predicate Enabled(s: State, step: Step)
    requires s.layout.Valid() && |s.disk| == s.layout.nblocks
  {
    match step
    case BeginOp(id) => Running(s) && id !in s.ops && Admits(s)
    case OpRead(id, b) => Running(s) && id in s.ops && s.layout.Home(b) && Free(s, b)
    case OpModify(id, b, _) => Running(s) && id in s.ops && s.layout.Home(b) && HeldBy(s, id, b)
    case LogWrite(id, b) =>
      && Running(s) && id in s.ops && s.layout.Home(b) && HeldBy(s, id, b)
      && !LogWritePanics(s)
      && (b in s.lh || s.ops[id] < s.opBound)
    case OpRelease(id, b) => Running(s) && HeldBy(s, id, b) && !s.cache[b].holder.touched
    case EndOp(id) =>
      && Running(s) && id in s.ops && !s.committing
      && forall b :: b in s.cache ==> !HeldBy(s, id, b)
    case ReaderGet(b) => Running(s) && 0 <= b < s.layout.nblocks && Free(s, b)
    case ReaderRelease(b) => b in s.cache && s.cache[b].holder == Reader
    case Evict(b) => b in s.cache && s.cache[b].holder == Nobody && !s.cache[b].dirty
    case CommitStep => CommitEnabled(s)
    case Crash => true
    case RecoverStep => RecoverEnabled(s)
  }

  /** Both buffers of one copy step can be locked. */
  predicate CanCopy(s: State, t: int)
  {
    && 0 <= t < |s.lh| && Free(s, s.layout.LogBlock(t)) && Free(s, s.lh[t])
    && 0 <= s.layout.LogBlock(t) < |s.disk| && 0 <= s.lh[t] < |s.disk|
  }

  /** The header buffer can be locked and has the header's format. */
  predicate CanWriteHead(s: State)
  {
    && Free(s, s.layout.start) && 0 <= s.layout.start < |s.disk|
    && |View(s, s.layout.start).w| == WORDS && |s.lh| < WORDS
  }

  predicate CommitEnabled(s: State)
  {
    match s.pc
    case WriteLog(t) => t < |s.lh| ==> CanCopy(s, t)
    case CommitHead => CanWriteHead(s)
    case Install(t) => t < |s.lh| ==> CanCopy(s, t)
    case ClearHead => CanWriteHead(s)
    case Finish => true
    case _ => false
  }

  predicate RecoverEnabled(s: State)
  {
    match s.pc
    case RecRead => 0 <= s.layout.start < |s.disk| && IsHeader(View(s, s.layout.start))
    case RecInstall(t) => t < |s.lh| ==> CanCopy(s, t)
    case RecClear => CanWriteHead(s)
    case _ => false
  }

  function DoBegin(s: State, id: int): State
  {
    s.(ops := s.ops[id := 0], hist := s.hist + [Begin(id)])
  }

  function DoModify(s: State, id: int, b: int, data: Block): State
    requires b in s.cache
  {
    s.(cache := s.cache[b := Buf(data, s.cache[b].dirty, ByOp(id, true))],
       hist := s.hist + [Write(id, b, data)])
  }

  /** log_write: record the block number once and pin the buffer (log.c:223-232). */
  function DoLogWrite(s: State, id: int, b: int): State
    requires b in s.cache && id in s.ops
  {
    s.(lh := Logged(s.lh, b),
       ops := if b in s.lh then s.ops else s.ops[id := s.ops[id] + 1],
       cache := s.cache[b := Buf(s.cache[b].data, true, ByOp(id, false))])
  }

  /** The first half of end_op: the operation is no longer outstanding (log.c:150-151). */
  function Leave(s: State, id: int): State
  {
    s.(ops := s.ops - {id}, hist := s.hist + [End(id)])
  }

  /** Power fails: only the disk survives, and the kernel boots into recovery. */
  function DoCrash(s: State): State
  {
    s.(cache := map[], lh := [], committing := false, ops := map[], pc := RecRead,
       hist := if 0 <= s.mark <= |s.hist| then s.hist[..s.mark] else s.hist)
  }

  function Next(s: State, step: Step): State
    requires s.layout.Valid() && |s.disk| == s.layout.nblocks
    requires Enabled(s, step)
  {
    match step
    case BeginOp(id) => DoBegin(s, id)
    case OpRead(id, b) => Get(s, b, ByOp(id, false))
    case OpModify(id, b, data) => DoModify(s, id, b, data)
    case LogWrite(id, b) => DoLogWrite(s, id, b)
    case OpRelease(id, b) => SetHolder(s, b, Nobody)
    case EndOp(id) => Ended(Leave(s, id))
    case ReaderGet(b) => Get(s, b, Reader)
    case ReaderRelease(b) => SetHolder(s, b, Nobody)
    case Evict(b) => s.(cache := s.cache - {b})
    case CommitStep => CommitNext(s)
    case Crash => DoCrash(s)
    case RecoverStep => RecoverNext(s)
  }

  /** The second half of end_op: the last operation out starts the commit (log.c:154-173). */
  function Ended(s: State): State
  {
    if |s.ops| != 0 then s
    else if |s.lh| == 0 then s.(committing := true, pc := Finish, mark := |s.hist|)
    else s.(committing := true, pc := WriteLog(0))
  }

  /** One iteration of write_log: cache block to log block (log.c:182-189). */
  function CopyToLog(s: State, t: int): State
    requires CanCopy(s, t)
  {
    Put(s, s.layout.LogBlock(t), View(s, s.lh[t])).(pc := WriteLog(t + 1))
  }

  /** write_head with the transaction in it: the real commit (log.c:197). */
  function WriteHead(s: State): State
    requires CanWriteHead(s)
  {
    Put(s, s.layout.start, WithTargets(View(s, s.layout.start), s.lh)).(pc := Install(0), mark := |s.hist|)
  }

  /** One iteration of install_trans: log block to home block (log.c:74-81). */
  function CopyHome(s: State, t: int, pc: Pc): State
    requires CanCopy(s, t)
  {
    Put(s, s.lh[t], View(s, s.layout.LogBlock(t))).(pc := pc)
  }

  /** log.lh.n = 0; write_head() (log.c:199-200 and log.c:120-121). */
  function EraseHead(s: State, pc: Pc): State
    requires CanWriteHead(s)
  {
    Put(s, s.layout.start, WithTargets(View(s, s.layout.start), [])).(lh := [], pc := pc)
  }

  /** One block write of commit() (log.c:192-202), or the end of end_op (log.c:169-172). */
  function CommitNext(s: State): State
    requires CommitEnabled(s)
  {
    match s.pc
    case WriteLog(t) => if t < |s.lh| then CopyToLog(s, t) else s.(pc := CommitHead)
    case CommitHead => WriteHead(s)
    case Install(t) => if t < |s.lh| then CopyHome(s, t, Install(t + 1)) else s.(pc := ClearHead)
    case ClearHead => EraseHead(s, Finish)
    case Finish => s.(committing := false, pc := Up)
  }

  /** One block write of recover_from_log (log.c:115-122). */
  function RecoverNext(s: State): State
    requires RecoverEnabled(s)
  {
    match s.pc
    case RecRead => s.(lh := Targets(View(s, s.layout.start)), pc := RecInstall(0))
    case RecInstall(t) => if t < |s.lh| then CopyHome(s, t, RecInstall(t + 1)) else s.(pc := RecClear)
    case RecClear => EraseHead(s, Up)
  }

  // ---------------------------------------------------------------------------------------------
  // What the run means: replaying the operations' writes on the starting image
  // ---------------------------------------------------------------------------------------------

  function Replay(base: seq<Block>, hist: seq<Event>): (r: seq<Block>)
    ensures |r| == |base|
  {
    if hist == [] then base
    else
      var r := Replay(base, hist[..|hist| - 1]);
      var e := hist[|hist| - 1];
      if e.Write? && 0 <= e.b < |r| then r[e.b := e.data] else r
  }

  /** The operations that have begun and not ended. */
  function OpenOps(hist: seq<Event>): set<int>
  {
    if hist == [] then {}
    else
      var open := OpenOps(hist[..|hist| - 1]);
      match hist[|hist| - 1]
      case Begin(id) => open + {id}
      case End(id) => open - {id}
      case Write(_, _, _) => open
  }

  /** The disk after copying log entries 0..k-1 home. */
  ghost function Installed(l: Layout, d: seq<Block>, ts: seq<int>, k: int): (r: seq<Block>)
    requires l.Valid() && |d| == l.nblocks && 0 <= k <= |ts| <= l.Limit() && GoodTargets(l, ts)
    ensures |r| == |d|
  {
    if k == 0 then d
    else
      var r := Installed(l, d, ts, k - 1);
      r[ts[k - 1] := r[l.LogBlock(k - 1)]]
  }

  /** What recover_from_log makes of a disk found after a crash. */
  ghost function Recovered(l: Layout, d: seq<Block>): (r: seq<Block>)
    requires l.Valid() && |d| == l.nblocks && GoodHeader(l, d[l.start])
    ensures |r| == |d|
  {
    var h := d[l.start];
    Installed(l, d, Targets(h), Count(h))[l.start := WithTargets(h, [])]
  }

  ghost predicate SameHome(l: Layout, d: seq<Block>, e: seq<Block>)
    requires |d| == |e| == l.nblocks
  {
    forall b: int :: l.Home(b) ==> d[b] == e[b]
  }

  lemma {:induction false} InstalledAt(l: Layout, d: seq<Block>, ts: seq<int>, k: int, b: int)
    requires l.Valid() && |d| == l.nblocks && 0 <= k <= |ts| <= l.Limit() && GoodTargets(l, ts)
    requires 0 <= b < |d|
    ensures b !in ts[..k] ==> Installed(l, d, ts, k)[b] == d[b]
    ensures forall i :: 0 <= i < k && ts[i] == b ==> Installed(l, d, ts, k)[b] == d[l.LogBlock(i)]
  {
    if k != 0 {
      InstalledAt(l, d, ts, k - 1, b);
      assert ts[..k] == ts[..k - 1] + [ts[k - 1]];
      InstalledAt(l, d, ts, k - 1, l.LogBlock(k - 1));
    }
  }
}
