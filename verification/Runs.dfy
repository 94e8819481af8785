/** Whole runs of the engine: format, any sequence of operations, and power losses between and inside them. */
module Runs {
  import opened Cells
  import opened WalCodec
  import opened WalLog
  import opened Device
  import opened ChunkIndex
  import opened RefTables
  import opened History
  import opened Durable
  import opened Recovery
  import opened CrashSafety
  import opened Ring
  import opened ChunkSpace
  import opened Volatile
  import opened Accounts
  import opened AppendStep
  import opened Store
  import opened Scheduler
  import PO = PathOverlay
  import Prolly
  import Tree
  import opened Sweep
  import Format
  import C = Chunker

  /** Format a device and start an engine on it. The device record begins with the formatted state. */
  method FormatStore(dev: CrashDev, ps: C.Params, cut: seq<Cell> -> bool, opts: Options, walLen: nat)
    returns (s: Option<Store>)
    requires dev.Valid() && |dev.durable| <= U64 && C.Valid(ps) && Format.LogClean(dev.current, walLen)
    modifies dev
    ensures dev.Valid() && (s.Some? <==> Format.Formattable(old(dev.current), walLen))
    ensures s.Some? ==> fresh(s.value) && s.value.Valid() && s.value.dev == dev && s.value.opts == opts
    ensures s.Some? ==> s.value.ps == ps && s.value.cut == cut
    ensures s.Some? ==> s.value.hist == [] && s.value.table == Format.NO_REFS && s.value.attempted == {}
    ensures s.Some? ==> s.value.sb.walLen == walLen && s.value.overlays == map[] && s.value.acct == map[]
    ensures s.Some? ==> dev.trace == [DevState(Format.FormatDisk(old(dev.current), walLen), [])]
  {
    hide DiskInv, Format.FormatDisk, CrashSafe, PendingSafe, Format.FirstImage, RowsOk, TraceOk, AttemptsOk, C.Valid,
      Current, Recorded, Format.LogClean, Ends;
    ghost var d := dev.current;
    var ok := Format.FormatDev(dev, walLen);
    if !ok {
      return None;
    }
    Format.Formatted(d, walLen);
    ghost var img := Format.FirstImage(walLen);
    DiskParts(dev.durable, img, false, 0, [], {});
    QuietPending(dev.durable, img);
    NoAttempts(img.table);
    SafeChunks(dev.State(), img, false, 0, [], {});
    OnePromise(dev.State(), Promise([], {}, img, None));
    var e := new Store.Mount(dev, ps, cut, opts, img, false, 0, [], {}, [Promise([], {}, img, None)]);
    FirstFacts(walLen);
    e.NothingDirty();
    return Some(e);
  }

  lemma {:induction false} FirstFacts(walLen: nat)
    ensures Format.FirstImage(walLen).table == Format.NO_REFS && Format.FirstImage(walLen).sb.walLen == walLen
  {
  }

  lemma {:induction false} OnePromise(s: DevState, p: Promise)
    requires CrashSafe(s, p) && PromiseOk(p)
    ensures TraceOk([s], [p]) && Ends([p], p)
  {
    hide CrashSafe;
  }

  // ── Crashes ──

  /** What a crash leaves of a promise: the acknowledged history, or that and one operation in flight. */
  ghost predicate Survives(h: seq<WalOp>, p: Promise) {
    h == p.hist || exists x :: x in p.attempted && h == p.hist + [x]
  }

  /** The crash theorem. Take any state the device was ever in and any fate of its unflushed writes: the
      disk mounts, and every path of every ref reads as the history acknowledged by then, or as that and
      one operation in flight. */
  lemma {:induction false} CrashAnywhere(trace: seq<DevState>, log: seq<Promise>, i: nat, fates: seq<Fate>)
    returns (h: seq<WalOp>)
    requires TraceOk(trace, log) && i < |trace| && |fates| == |trace[i].pending|
    ensures Survives(h, log[i]) && WellFormed(trace[i])
    ensures var m := Mount(Crashed(trace[i], fates));
            m.Some? && forall r, p :: ReadMounted(m.value, r, p) == After(None, h, r, p)
  {
    hide DiskInv, Mount, ReadMounted, After, Crashed, AttemptsOk;
    assert CrashSafe(trace[i], log[i]);
    var d := Crashed(trace[i], fates);
    var img, inB, tail, h0, a := CrashedDisk(trace, log, i, fates);
    h := h0;
    forall r, p
      ensures Mount(d).Some? && ReadMounted(Mount(d).value, r, p) == After(None, h, r, p)
    {
      RecoveryReads(d, img, inB, tail, h, a, r, p);
    }
    RecoveryReads(d, img, inB, tail, h, a, [], []);
  }

  /** Mount has selected this commit. */
  predicate Selects(m: Mounted, img: Image) {
    m.sb == img.sb && m.index == img.index && m.free == img.free && m.table == img.table
  }

  /** Commits are atomic. After a crash anywhere mount selects the last completed commit, or the one that was being
      made, and that commit is whole: its table is the one its superblock names, every object of its index reads
      back unchanged, and every tree of its table is all there. */
  lemma {:induction false} CommitWhole(trace: seq<DevState>, log: seq<Promise>, i: nat, fates: seq<Fate>)
    returns (img: Image)
    requires TraceOk(trace, log) && i < |trace| && |fates| == |trace[i].pending| && WellFormed(trace[i])
    ensures Commits(log[i], img)
    ensures var d := Crashed(trace[i], fates); var m := Mount(d);
            && m.Some? && Selects(m.value, img)
            && (forall h :: h in Hashes(img.index) ==>
                  ReadObject(d, ChunkOff(img.sb.walLen), img.index, h) == Some(h.content))
            && img.sb.refTable == Of(EncodeTable(img.table)) && img.sb.refTable in Hashes(img.index)
            && RootsIn(img.table, Hashes(img.index))
  {
    hide DiskInv, Mount, Crashed, AttemptsOk, ReadObject, Hashes, RootsIn, ImageOk, ObjectsAt, Covered, AllPlain,
      RingInv, RowsOk, BirthsOk, TableFits, EncodeTable, TraceOk;
    var inB, tail, h, a;
    img, inB, tail, h, a := CrashedDisk(trace, log, i, fates);
    var d := Crashed(trace[i], fates);
    MountFinds(d, img, inB, tail, h, a);
    DiskParts(d, img, inB, tail, h, a);
    TableNamed(img, |d|);
    forall x | x in Hashes(img.index)
      ensures ReadObject(d, ChunkOff(img.sb.walLen), img.index, x) == Some(x.content)
    {
      ObjectsReadBack(d, ChunkOff(img.sb.walLen), img.index, x);
    }
  }

  lemma {:induction false} TableNamed(img: Image, n: nat)
    requires ImageOk(img, n)
    ensures img.sb.refTable == Of(EncodeTable(img.table)) && img.sb.refTable in Hashes(img.index)
  {
    hide EncodeTable, Hashes, Tiled, IndexFits, RootsIn;
  }

  lemma {:induction false} CrashedDisk(trace: seq<DevState>, log: seq<Promise>, i: nat, fates: seq<Fate>)
    returns (img: Image, inB: bool, tail: nat, h: seq<WalOp>, a: set<WalOp>)
    requires TraceOk(trace, log) && i < |trace| && |fates| == |trace[i].pending| && WellFormed(trace[i])
    ensures DiskInv(Crashed(trace[i], fates), img, inB, tail, h, a) && AttemptsOk(a, img.table)
    ensures Survives(h, log[i]) && a <= log[i].attempted && Commits(log[i], img)
  {
    hide DiskInv, Crashed, AttemptsOk;
    assert CrashSafe(trace[i], log[i]);
    var d, p := Crashed(trace[i], fates), log[i];
    assert Recoverable(d, p);
    img, inB, tail, h, a :| DiskInv(d, img, inB, tail, h, a) && AttemptsOk(a, img.table) && Commits(p, img)
      && ((h == p.hist && a <= p.attempted) || (a == {} && exists x :: x in p.attempted && h == p.hist + [x]));
  }

  // ── Promises are kept ──

  /** What was acknowledged stays: later promises extend earlier ones. */
  lemma {:induction false} NeverTakenBack(trace: seq<DevState>, log: seq<Promise>, i: nat, j: nat)
    requires TraceOk(trace, log) && i <= j < |log|
    ensures log[i].hist <= log[j].hist
    decreases j
  {
    hide CrashSafe, PromiseOk;
    if i < j {
      NeverTakenBack(trace, log, i, j - 1);
      assert Follows(log[j - 1], log[j]);
    }
  }

  /** So an operation acknowledged in one device state is read back after a crash in any later one. */
  lemma {:induction false} AckedSurvives(trace: seq<DevState>, log: seq<Promise>, i: nat, j: nat, fates: seq<Fate>)
    returns (h: seq<WalOp>)
    requires TraceOk(trace, log) && i <= j < |trace| && |fates| == |trace[j].pending|
    ensures log[i].hist <= h && WellFormed(trace[j])
    ensures var m := Mount(Crashed(trace[j], fates));
            m.Some? && forall r, p :: ReadMounted(m.value, r, p) == After(None, h, r, p)
  {
    hide TraceOk, Mount, ReadMounted, After, Crashed;
    h := CrashAnywhere(trace, log, j, fates);
    SameLengths(trace, log);
    NeverTakenBack(trace, log, i, j);
  }

  lemma {:induction false} SameLengths(trace: seq<DevState>, log: seq<Promise>)
    requires TraceOk(trace, log)
    ensures |trace| == |log|
  {
  }

  lemma {:induction false} GrowsTwice(a: RefTable, b: RefTable, c: RefTable)
    requires Grows(b, a) && Grows(c, b)
    ensures Grows(c, a)
  {
  }

  /** Tables of later commits have every ref and every snapshot of earlier ones. */
  lemma {:induction false} TablesGrow(trace: seq<DevState>, log: seq<Promise>, i: nat, j: nat, img: Image)
    requires TraceOk(trace, log) && i <= j < |log| && Commits(log[j], img)
    ensures Grows(img.table, log[i].img.table)
    decreases j
  {
    hide CrashSafe, Grows;
    assert PromiseOk(log[j]);
    GrowsSelf(log[j].img.table);
    if i < j {
      assert Follows(log[j - 1], log[j]);
      TablesGrow(trace, log, i, j - 1, log[j].img);
    }
    GrowsTwice(log[i].img.table, log[j].img.table, img.table);
  }

  lemma {:induction false} GrowsSelf(t: RefTable)
    ensures Grows(t, t)
  {
  }

  /** A ref or a snapshot that was durable in one device state is found by a mount after a crash in any later one. */
  lemma {:induction false} TableSurvives(trace: seq<DevState>, log: seq<Promise>, i: nat, j: nat, fates: seq<Fate>)
    requires TraceOk(trace, log) && i <= j < |trace| && |fates| == |trace[j].pending| && WellFormed(trace[j])
    ensures var m := Mount(Crashed(trace[j], fates)); m.Some? && Grows(m.value.table, log[i].img.table)
  {
    hide TraceOk, Mount, Crashed, Grows;
    var img := CommitWhole(trace, log, j, fates);
    SameLengths(trace, log);
    TablesGrow(trace, log, i, j, img);
  }

  // ── The engine goes on ──

  lemma {:induction false} TraceCut(trace: seq<DevState>, log: seq<Promise>, i: nat)
    requires TraceOk(trace, log) && i < |log|
    ensures TraceOk(trace[..i + 1], log[..i + 1]) && Ends(log[..i + 1], log[i])
  {
    hide CrashSafe, Follows, PromiseOk;
    var cut := log[..i + 1];
    forall k | 0 < k < |cut|
      ensures Follows(cut[k - 1], cut[k])
    {
      assert Follows(log[k - 1], log[k]);
    }
  }

  /** What a power loss leaves; between operations it leaves everything. */
  lemma {:induction false} Leaves(s: Store, i: nat, fates: seq<Fate>)
    returns (img: Image, inB: bool, tail: nat, h: seq<WalOp>, a: set<WalOp>)
    requires s.Safe() && i < |s.dev.trace| && |fates| == |s.dev.trace[i].pending| && WellFormed(s.dev.trace[i])
    ensures |s.log| == |s.dev.trace|
    ensures DiskInv(Crashed(s.dev.trace[i], fates), img, inB, tail, h, a) && AttemptsOk(a, img.table)
    ensures Survives(h, s.log[i]) && a <= s.log[i].attempted && Commits(s.log[i], img)
    ensures s.Valid() && i == |s.dev.trace| - 1 ==> h == s.hist && a == s.attempted && img == s.img
  {
    hide DiskInv, SpaceInv, LogInv, ViewInv, PendingSafe, ObjectsAt, TableFits, Grows, AttemptsOk, BirthsOk, RootsIn,
      Hashes, C.Valid, Current, RowsOk, CrashSafe, Crashed, Store.SpaceOk, Store.MemoryOk;
    if s.Valid() && i == |s.dev.trace| - 1 {
      img, inB, tail, h, a := s.img, s.sbInB, s.walTail, s.hist, s.attempted;
      SafeChunks(s.dev.State(), img, inB, tail, h, a);
    } else {
      img, inB, tail, h, a := CrashedDisk(s.dev.trace, s.log, i, fates);
    }
  }

  ghost predicate SameSetup(a: Store, b: Store)
    reads a, b
  {
    a.ps == b.ps && a.cut == b.cut && a.opts == b.opts
  }

  /** Power loss in any state of the record, then mount on the same device: an engine with its whole invariant,
      whose history is what survived. Nothing is asked of the engine before but what holds even after a failed
      operation. Between operations nothing is lost. */
  method PowerLoss(s: Store, i: nat, fates: seq<Fate>) returns (s': Store)
    requires s.Safe() && i < |s.dev.trace| && |fates| == |s.dev.trace[i].pending|
    modifies s.dev
    ensures fresh(s') && s'.Valid() && s'.dev == s.dev && SameSetup(s', s) && |s.log| == |old(s.dev.trace)|
    ensures s'.dev.trace == old(s.dev.trace)[..i + 1] + [s'.dev.State()]
    ensures s'.log == s.log[..i + 1] + [s'.Now()]
    ensures Survives(s'.hist, s.log[i]) && s'.attempted <= s.log[i].attempted && Commits(s.log[i], s'.img)
    ensures old(s.Valid()) && i == |old(s.dev.trace)| - 1 ==>
              s'.hist == s.hist && s'.attempted == s.attempted && s'.img == s.img
    ensures 1 <= s'.sb.walNextSeq <= |s'.hist| + 1
    ensures forall r :: RefWithin(s'.overlays, s'.acct, s'.opts, r) <==>
              LogWithin(s'.hist[s'.sb.walNextSeq - 1..], s'.opts, r)
  {
    hide DiskInv, TraceOk, Ends, PendingSafe, AttemptsOk, C.Valid, Current, RowsOk, CrashSafe, Crashed, Store.Inv,
      RefWithin, LogWithin;
    ghost var trace, log := s.dev.trace, s.log;
    TracedFormed(s.dev, i);
    ghost var img, inB, tail, h, a := Leaves(s, i, fates);
    s.dev.Crash(i, fates);
    DiskParts(s.dev.durable, img, inB, tail, h, a);
    QuietPending(s.dev.durable, img);
    SafeChunks(s.dev.State(), img, inB, tail, h, a);
    TraceCut(trace, log, i);
    TraceMore(trace[..i + 1], log[..i + 1], s.dev.State(), log[i], Promise(h, a, img, None));
    s' := new Store.Mount(s.dev, s.ps, s.cut, s.opts, img, inB, tail, h, a, log[..i + 1] + [Promise(h, a, img, None)]);
  }

  lemma {:induction false} TracedFormed(dev: CrashDev, i: nat)
    requires dev.Valid() && i < |dev.trace|
    ensures WellFormed(dev.trace[i])
  {
    hide Current, DevStep;
  }

  // ── Any sequence of operations ──

  datatype Command =
    | Log(op: WalOp)
    | Flush(ref: Bytes)
    | Commit
    | Sync
    | Create(name: Bytes)
    | Snap(name: Bytes, args: SnapArgs)
    | Collect
    | Crash(back: nat, fates: seq<Fate>)

  /** A command the engine takes in its present state; others are refused before anything is written. The power
      may be lost `back` device states ago, in the middle of the last operation or of any before it. */
  ghost predicate Taken(table: RefTable, walLen: nat, trace: seq<DevState>, c: Command) {
    match c
    case Log(op) => Plain(op) && Loggable(op) && RefKnown(table, op.ref) && RecLen(op) <= walLen
    case Create(name) => |name| < 256 && !RefKnown(table, name) && |table.refs| + 1 < U32
    case Snap(_, args) => ArgsForm(args)
    case Crash(back, fates) => back < |trace| && |fates| == |trace[|trace| - 1 - back].pending|
    case _ => true
  }

  /** Why a command may fail: a flush or a commit is stuck, or a number is at its ceiling. */
  ghost predicate Cause(m: Mem, ps: C.Params, cut: seq<Cell> -> bool, c: Command)
    requires C.Valid(ps)
  {
    || NoCommit(m) || (exists r :: NoFlush(m, ps, cut, r))
    || (c.Log? && |m.hist| + 2 >= U64)
    || (c.Create? && !Room(m, |Prolly.EmptyRoot().content|))
    || (c.Snap? && NoSnap(m.table, c.name))
  }

  ghost predicate Snapped(was: RefTable, now: RefTable, r: Bytes, args: SnapArgs, hist: seq<WalOp>) {
    exists row :: && now.snaps == was.snaps + [row] && SnapshotOf(row, r, args, hist)
                  && ComesAfter(row, was.snaps) && Timely(row, was.snaps, args.now)
  }

  /** What a command has done when it returns; `durable` is the table of the last commit. */
  ghost predicate Effect(c: Command, was: Mem, dirtyWas: map<Bytes, PO.Overlay>, now: Mem,
                         dirty: map<Bytes, PO.Overlay>, durable: RefTable) {
    match c
    case Log(op) => now.hist == was.hist + [op]
    case Flush(r) => dirty == dirtyWas - {r}
    case Commit => durable == now.table == was.table
    case Sync => dirty == map[] && durable == now.table && SameNames(now.table.refs, was.table.refs)
    case Create(name) =>
      durable == now.table == was.table.(refs := was.table.refs + [NewRow(name, Prolly.EmptyRoot())])
    case Snap(name, args) => durable == now.table && Snapped(was.table, now.table, name, args, now.hist)
    case Collect =>
      dirty == map[] && Hashes(now.space.index) == LiveSet(RootsOf(now.table), Of(EncodeTable(now.table)))
    case Crash(_, _) => true
  }

  /** One command of a running engine. The record only grows, the history is what the caller was told, refs within
      their bounds stay within. */
  method Step(s: Store, c: Command) returns (ok: bool)
    requires s.Valid() && Taken(s.table, s.sb.walLen, s.dev.trace, c) && !c.Crash?
    modifies s, s.dev
    ensures s.Safe() && Onward(old(s.dev.trace), old(s.log), s.dev.trace, s.log)
    ensures ok ==> s.Valid() && Effect(c, old(s.Memory()), old(s.overlays), s.Memory(), s.overlays, s.img.table)
    ensures ok && !c.Log? ==> s.hist == old(s.hist)
    ensures ok ==> KeptWithin(s.overlays, old(s.overlays), s.acct, old(s.acct), s.opts)
    ensures ok && c.Log? ==> Relieved(s.overlays, s.acct, s.hist, s.done, s.opts, c.op)
    ensures ok && !c.Log? ==> Total(s.overlays) <= Total(old(s.overlays))
    ensures !ok ==> Cause(s.Memory(), s.ps, s.cut, c)
  {
    hide Store.Inv, TraceOk, Ends, RefWithin, KeptWithin, Total, RefKnown, Plain, Loggable, RecLen, Shrunk, Onward,
      Store.Halted, Store.Stuck, HasRoom, Overdue, Effect, Cause;
    ghost var o, a := s.overlays, s.acct;
    if c.Log? {
      ok := Logged(s, c.op);
    } else {
      ok := Maintain(s, c);
      if ok {
        WithinShrunk(s.overlays, o, s.acct, a, s.opts);
        TotalLess(s.overlays, o, s.acct, a);
      }
    }
  }

  /** What the scheduler leaves after a logged operation: its ref within bounds, the total low or one ref left, no ref
      past the staleness bound. */
  ghost predicate Relieved(overlays: map<Bytes, PO.Overlay>, acct: map<Bytes, Acct>, hist: seq<WalOp>,
                           done: map<Bytes, nat>, opts: Options, op: WalOp) {
    && RefWithin(overlays, acct, opts, op.ref)
    && !Pressed(overlays, opts)
    && (forall r :: !Overdue(hist, done, r, op.mtime, opts.staleness))
  }

  method Logged(s: Store, op: WalOp) returns (ok: bool)
    requires s.Valid() && Taken(s.table, s.sb.walLen, s.dev.trace, Log(op))
    modifies s, s.dev
    ensures s.Safe() && Onward(old(s.dev.trace), old(s.log), s.dev.trace, s.log)
    ensures ok ==> s.Valid() && Effect(Log(op), old(s.Memory()), old(s.overlays), s.Memory(), s.overlays, s.img.table)
    ensures ok ==> KeptWithin(s.overlays, old(s.overlays), s.acct, old(s.acct), s.opts)
    ensures ok ==> Relieved(s.overlays, s.acct, s.hist, s.done, s.opts, op)
    ensures !ok ==> Cause(s.Memory(), s.ps, s.cut, Log(op))
  {
    hide Store.Inv, TraceOk, Ends, RefWithin, KeptWithin, Total, RefKnown, Plain, Loggable, RecLen, Onward,
      Store.Halted, Store.Stuck, HasRoom, Overdue, Pressed, Cause;
    ok := s.LogThenApply(op);
    if !ok {
      if s.Halted() {
        s.HaltedParts();
        IsCause(s, Log(op));
      } else {
        AtCeiling(s, Log(op));
      }
    }
  }

  lemma {:induction false} IsCause(s: Store, c: Command)
    requires s.Safe() && s.Stuck()
    ensures Cause(s.Memory(), s.ps, s.cut, c)
  {
    hide NoCommit, NoFlush, C.Valid, TraceOk, Recorded, HasRoom;
  }

  lemma {:induction false} AtCeiling(s: Store, c: Command)
    requires s.Valid() && c.Log? && s.walSeq + 1 >= U64 && C.Valid(s.ps)
    ensures Cause(s.Memory(), s.ps, s.cut, c)
  {
    hide NoCommit, NoFlush, C.Valid, TraceOk, Ends, DiskInv, SpaceInv, LogInv, ViewInv, HasRoom;
  }

  /** The commands that log nothing: they leave the history as it is, and overlays only become tree. */
  method Maintain(s: Store, c: Command) returns (ok: bool)
    requires s.Valid() && Taken(s.table, s.sb.walLen, s.dev.trace, c) && !c.Crash? && !c.Log?
    modifies s, s.dev
    ensures s.Safe() && Onward(old(s.dev.trace), old(s.log), s.dev.trace, s.log)
    ensures s.hist == old(s.hist) && (ok ==> s.Valid() && Shrunk(s.overlays, old(s.overlays), s.acct, old(s.acct)))
    ensures ok ==> Effect(c, old(s.Memory()), old(s.overlays), s.Memory(), s.overlays, s.img.table)
    ensures !ok ==> Cause(s.Memory(), s.ps, s.cut, c)
  {
    hide Store.Inv, TraceOk, Ends, RefKnown, Shrunk, Onward, Store.Halted, Store.FlushStuck, Store.CommitStuck, HasRoom,
      Hashes, EncodeTable, Popped, Marked, After, Recorded, C.Valid, Store.DiskOk, Store.SpaceOk, LogInv, SpaceInv,
      Cause, LiveSet, RootsOf, Snapped, ArgsForm;
    ghost var o, a := s.overlays, s.acct;
    ShrunkSelf(o, a);
    ShrunkNone(o, a);
    match c {
      case Flush(r) =>
        ShrunkLess(o, o, a, a, r);
        ok := s.FlushRef(r);
        if !ok {
          IsCause(s, c);
        }
      case Commit =>
        ok := s.Commit();
        if !ok {
          IsCause(s, c);
        }
      case Sync =>
        ok := s.SyncAll();
        if !ok {
          s.HaltedParts();
          IsCause(s, c);
        }
      case Create(name) =>
        ok := s.CreateRef(name);
        if !ok {
          CreateCause(s, c);
        }
      case Snap(name, args) =>
        ShrunkLess(o, o, a, a, name);
        ok := TakeSnapshot(s, name, args);
      case Collect =>
        ghost var before;
        ok, before := s.Collect();
        if !ok {
          IsCause(s, c);
        }
    }
  }

  lemma {:induction false} CreateCause(s: Store, c: Command)
    requires s.Safe() && c.Create? && (s.Halted() || !s.Fits(|Prolly.EmptyRoot().content|))
    ensures Cause(s.Memory(), s.ps, s.cut, c)
  {
    hide NoCommit, NoFlush, C.Valid, TraceOk, Recorded, HasRoom, Store.Halted, Store.Stuck, Prolly.EmptyRoot;
    if s.Halted() {
      s.HaltedParts();
      IsCause(s, c);
    }
  }

  method TakeSnapshot(s: Store, name: Bytes, args: SnapArgs) returns (ok: bool)
    requires s.Valid() && ArgsForm(args)
    modifies s, s.dev
    ensures s.Safe() && Onward(old(s.dev.trace), old(s.log), s.dev.trace, s.log)
    ensures s.hist == old(s.hist)
    ensures ok ==> s.Valid() && s.overlays == old(s.overlays) - {name} && s.acct == old(s.acct) - {name}
    ensures ok ==> s.img.table == s.table && Snapped(old(s.table), s.table, name, args, s.hist)
    ensures !ok ==> Cause(s.Memory(), s.ps, s.cut, Snap(name, args))
  {
    hide Store.Inv, TraceOk, Ends, RefKnown, Onward, Store.Halted, Store.Stuck, HasRoom, Recorded, C.Valid,
      NoCommit, NoFlush, SnapshotOf, ComesAfter, Timely, NoSnap, ArgsForm;
    var row;
    ok, row := s.Snapshot(name, args);
    if !ok {
      if s.Halted() {
        s.HaltedParts();
        IsCause(s, Snap(name, args));
      } else {
        s.TraceIn();
      }
    }
  }

  method Accepts(s: Store, c: Command) returns (b: bool)
    requires s.Safe()
    ensures b == Taken(s.table, s.sb.walLen, s.dev.trace, c)
  {
    hide TraceOk, Plain, Loggable, RecLen;
    match c {
      case Log(op) =>
        var i := FindIndex(s.table.refs, op.ref);
        b := i.Some? && Plain(op) && Loggable(op) && RecLen(op) <= s.sb.walLen;
      case Create(name) =>
        var i := FindIndex(s.table.refs, name);
        b := i.None? && |name| < 256 && |s.table.refs| + 1 < U32;
      case Snap(_, args) =>
        b := ArgsForm(args);
      case Crash(back, fates) =>
        b := back < |s.dev.trace| && |fates| == |s.dev.trace[|s.dev.trace| - 1 - back].pending|;
      case _ =>
        b := true;
    }
  }

  /** Each acknowledged operation is promised in the device state in which it was acknowledged. */
  ghost predicate MarksOk(log: seq<Promise>, acked: seq<WalOp>, marks: seq<nat>) {
    |marks| == |acked| && forall k :: 0 <= k < |acked| ==> marks[k] < |log| && acked[..k + 1] <= log[marks[k]].hist
  }

  lemma {:induction false} MarksOnward(log: seq<Promise>, log': seq<Promise>, acked: seq<WalOp>, marks: seq<nat>)
    requires MarksOk(log, acked, marks) && log <= log'
    ensures MarksOk(log', acked, marks)
  {
  }

  lemma {:induction false} MarksAck(log: seq<Promise>, acked: seq<WalOp>, marks: seq<nat>, op: WalOp, p: Promise)
    requires MarksOk(log, acked, marks) && Ends(log, p) && p.hist == acked + [op]
    ensures MarksOk(log, acked + [op], marks + [|log| - 1])
  {
    var more, ms := acked + [op], marks + [|log| - 1];
    forall k | 0 <= k < |more|
      ensures more[..k + 1] <= log[ms[k]].hist
    {
      if k < |acked| {
        assert more[..k + 1] == acked[..k + 1];
      } else {
        assert more[..k + 1] == more;
      }
    }
  }

  /** A power loss in state `i` keeps every operation acknowledged by then, with its mark. */
  lemma {:induction false} MarksCrash(trace: seq<DevState>, log: seq<Promise>, i: nat, p: Promise, acked: seq<WalOp>,
                                      marks: seq<nat>)
    returns (ms: seq<nat>)
    requires TraceOk(trace, log) && i < |log| && log[i].hist <= p.hist && MarksOk(log, acked, marks)
    ensures MarksOk(log[..i + 1] + [p], p.hist, ms)
    ensures forall k :: 0 <= k < |acked| && marks[k] <= i ==> k < |p.hist| && p.hist[k] == acked[k] && ms[k] == marks[k]
  {
    hide TraceOk;
    var cut := log[..i + 1] + [p];
    ms := seq(|p.hist|, k requires 0 <= k < |p.hist| => if k < |marks| && marks[k] <= i then marks[k] else i + 1);
    forall k | 0 <= k < |acked| && marks[k] <= i
      ensures k < |p.hist| && p.hist[..k + 1] == acked[..k + 1]
    {
      NeverTakenBack(trace, log, marks[k], i);
      PrefixTwice(acked[..k + 1], log[marks[k]].hist, log[i].hist, p.hist);
    }
    forall k | 0 <= k < |p.hist|
      ensures p.hist[..k + 1] <= cut[ms[k]].hist
    {
      if k < |marks| && marks[k] <= i {
        assert acked[..k + 1] <= log[marks[k]].hist;
      }
    }
    forall k | 0 <= k < |acked| && marks[k] <= i
      ensures p.hist[k] == acked[k]
    {
      assert p.hist[..k + 1][k] == acked[..k + 1][k];
    }
  }

  lemma {:induction false} PrefixTwice(a: seq<WalOp>, b: seq<WalOp>, c: seq<WalOp>, d: seq<WalOp>)
    requires a <= b && b <= c && c <= d
    ensures d[..|a|] == a && |a| <= |d|
  {
  }

  lemma {:induction false} NoMarks(log: seq<Promise>)
    ensures MarksOk(log, [], [])
  {
  }

  lemma {:induction false} MarksLength(log: seq<Promise>, acked: seq<WalOp>, marks: seq<nat>)
    requires MarksOk(log, acked, marks)
    ensures |marks| == |acked|
  {
  }

  /** The run goes on within the scheduler's bounds. */
  lemma {:induction false} BoundedStep(overlays: map<Bytes, PO.Overlay>, was: map<Bytes, PO.Overlay>,
                                       acct: map<Bytes, Acct>, acctWas: map<Bytes, Acct>, opts: Options)
    requires KeptWithin(overlays, was, acct, acctWas, opts) && forall r :: RefWithin(was, acctWas, opts, r)
    requires Total(overlays) <= opts.sizeLow || |overlays| <= 1 || Total(overlays) <= Total(was)
    ensures Bounded(was, acctWas, opts) ==> Bounded(overlays, acct, opts)
  {
    hide Total, OverlayBytes;
    if |overlays| <= 1 {
      assert forall r :: r in overlays ==> RefWithin(overlays, acct, opts, r);
      LoneTotal(overlays, opts.perRefBudget);
    }
  }

  // ── A run, moment by moment ──

  /** What the caller is told: the command was refused, is done, or failed; or the power was lost. */
  datatype Outcome = Refused | Done | Failed | Lost

  /** A run between two commands: whether the engine is up, the device record with its promises, the operations
      acknowledged and still standing with the device state of each acknowledgement, the refs the last mount found
      over their bounds, and the memory of the engine. */
  datatype Moment = Moment(up: bool, trace: seq<DevState>, log: seq<Promise>, acked: seq<WalOp>, marks: seq<nat>,
                           over: set<Bytes>, mem: Mem, overlays: map<Bytes, PO.Overlay>, acct: map<Bytes, Acct>)

  ghost function At(e: Store, up: bool, acked: seq<WalOp>, marks: seq<nat>, over: set<Bytes>): Moment
    reads e, e.dev
  {
    Moment(up, e.dev.trace, e.log, acked, marks, over, e.Memory(), e.overlays, e.acct)
  }

  /** What holds at every moment: the record is crash safe for its promises, every acknowledged operation is promised
      from its mark on, the accounts are those of the history, and refs are within their bounds except those the last
      mount found over them. */
  ghost predicate Fine(m: Moment, opts: Options) {
    && TraceOk(m.trace, m.log) && MarksOk(m.log, m.acked, m.marks)
    && (m.up ==> AcctInv(m.acct, m.mem.hist, m.mem.done))
    && (m.up ==> m.mem.hist == m.acked && m.log != [] && m.log[|m.log| - 1].hist == m.acked)
    && (m.up ==> forall r :: r !in m.over ==> RefWithin(m.overlays, m.acct, opts, r))
  }

  ghost predicate Taking(m: Moment, c: Command) {
    Taken(m.mem.table, m.mem.sb.walLen, m.trace, c) && (m.up || c.Crash?)
  }

  /** A command that is done. A logged operation is acknowledged in the last state of the record. */
  ghost predicate Does(a: Moment, c: Command, b: Moment, opts: Options) {
    && a.up && b.up && Onward(a.trace, a.log, b.trace, b.log) && b.over == a.over && b.log != []
    && b.acked == (if c.Log? then a.acked + [c.op] else a.acked)
    && b.marks == (if c.Log? then a.marks + [|b.log| - 1] else a.marks)
    && Effect(c, a.mem, a.overlays, b.mem, b.overlays, b.log[|b.log| - 1].img.table)
    && KeptWithin(b.overlays, a.overlays, b.acct, a.acct, opts)
    && (if c.Log? then Relieved(b.overlays, b.acct, b.mem.hist, b.mem.done, opts, c.op)
        else Total(b.overlays) <= Total(a.overlays))
  }

  /** A command that failed: the engine is down, what was acknowledged stands, and there was a cause. */
  ghost predicate Fails(a: Moment, c: Command, b: Moment, ps: C.Params, cut: seq<Cell> -> bool)
    requires C.Valid(ps)
  {
    && a.up && !b.up && Onward(a.trace, a.log, b.trace, b.log) && b.over == a.over
    && b.acked == a.acked && b.marks == a.marks && Cause(b.mem, ps, cut, c)
  }

  /** A power loss in state `i`, and a mount: what is acknowledged afterwards is what was acknowledged in that state,
      or that and one operation in flight; the commit is one of the two of that state; operations with a mark up to
      `i` keep it; a ref is over its bounds exactly when its records in the log are. */
  ghost predicate Loses(a: Moment, c: Command, b: Moment, opts: Options) {
    c.Crash? && c.back < |a.trace| && |a.log| == |a.trace| && |a.marks| == |a.acked| &&
    var i := |a.trace| - 1 - c.back;
    && b.up && |b.trace| == |b.log| == i + 2 && b.trace[..i + 1] == a.trace[..i + 1] && b.log[..i + 1] == a.log[..i + 1]
    && Survives(b.acked, a.log[i]) && Commits(a.log[i], b.log[i + 1].img)
    && (forall k :: 0 <= k < |a.acked| && a.marks[k] <= i ==>
          k < |b.acked| == |b.marks| && b.acked[k] == a.acked[k] && b.marks[k] == a.marks[k])
    && 1 <= b.mem.sb.walNextSeq <= |b.acked| + 1
    && (forall r :: r in b.over <==> !LogWithin(b.acked[b.mem.sb.walNextSeq - 1..], opts, r))
  }

  /** How a run goes on. A command is refused exactly when it is not taken, and then nothing happens. */
  ghost predicate Next(a: Moment, c: Command, out: Outcome, b: Moment, ps: C.Params, cut: seq<Cell> -> bool,
                       opts: Options)
    requires C.Valid(ps)
  {
    && (out.Refused? <==> !Taking(a, c)) && (out.Lost? <==> Taking(a, c) && c.Crash?)
    && match out
       case Refused => b == a
       case Lost => Loses(a, c, b, opts)
       case Done => Does(a, c, b, opts)
       case Failed => Fails(a, c, b, ps, cut)
  }

  /** Refs that a mount has brought over their bounds. */
  ghost function OverOf(s: Store): set<Bytes>
    reads s
  {
    set r | r in s.overlays && !RefWithin(s.overlays, s.acct, s.opts, r)
  }

  /** Lose the power and mount. */
  method Lose(e: Store, c: Command, ghost m: Moment) returns (e': Store, ghost m': Moment)
    requires e.Safe() && c.Crash? && m == At(e, m.up, m.acked, m.marks, m.over) && Fine(m, e.opts) && Taking(m, c)
    modifies e.dev
    ensures fresh(e') && e'.Valid() && e'.Safe() && e'.dev == e.dev && SameSetup(e', e) && e'.hist == m'.acked
    ensures m' == At(e', true, m'.acked, m'.marks, m'.over) && Loses(m, c, m', e.opts) && Fine(m', e.opts)
  {
    hide Store.Inv, TraceOk, Ends, MarksOk, C.Valid, Recorded, Current, RefWithin, LogWithin, Commits, HasRoom,
      AcctInv;
    var i := |e.dev.trace| - 1 - c.back;
    ghost var trace, log := e.dev.trace, e.log;
    e' := PowerLoss(e, i, c.fates);
    e'.TraceIn();
    e'.AccountsNow();
    ghost var marks := MarksCrash(trace, log, i, e'.Now(), m.acked, m.marks);
    MarksLength(log, m.acked, m.marks);
    MarksLength(e'.log, e'.hist, marks);
    OverIs(e');
    m' := At(e', true, e'.hist, marks, OverOf(e'));
  }

  lemma {:induction false} OverIs(e: Store)
    requires e.Valid()
    ensures forall r :: r in OverOf(e) <==> !RefWithin(e.overlays, e.acct, e.opts, r)
  {
    hide Store.Inv, RefWithin;
    e.KeysMatch();
    forall r | r !in e.overlays
      ensures RefWithin(e.overlays, e.acct, e.opts, r)
    {
      CleanWithin(e.overlays, e.acct, e.opts, r);
    }
  }

  /** One command, with its acknowledgement recorded. */
  method Take(e: Store, c: Command, ghost m: Moment) returns (ok: bool, ghost m': Moment)
    requires e.Valid() && !c.Crash? && m == At(e, true, m.acked, m.marks, m.over) && Fine(m, e.opts) && Taking(m, c)
    requires e.hist == m.acked && C.Valid(e.ps)
    modifies e, e.dev
    ensures e.Safe() && m' == At(e, ok, m'.acked, m'.marks, m'.over) && Fine(m', e.opts)
    ensures ok ==> e.Valid() && e.hist == m'.acked && Does(m, c, m', e.opts)
    ensures !ok ==> Fails(m, c, m', e.ps, e.cut)
  {
    hide Store.Inv, TraceOk, Ends, MarksOk, C.Valid, Recorded, Current, RefWithin, Total, Cause, Effect, Relieved,
      Taken, HasRoom, AcctInv;
    ghost var log := e.log;
    ok := Step(e, c);
    MarksOnward(log, e.log, m.acked, m.marks);
    if ok {
      e.Promised();
      e.AccountsNow();
      EndIs(e);
    }
    if ok && c.Log? {
      EffectHist(c, m.mem, m.overlays, e.Memory(), e.overlays, e.img.table);
      MarksAck(e.log, m.acked, m.marks, c.op, e.Now());
      m' := At(e, true, m.acked + [c.op], m.marks + [|e.log| - 1], m.over);
    } else {
      m' := At(e, ok, m.acked, m.marks, m.over);
    }
  }

  lemma {:induction false} EndIs(e: Store)
    requires Ends(e.log, e.Now())
    ensures e.log != [] && e.log[|e.log| - 1].img == e.img && e.log[|e.log| - 1].hist == e.hist
  {
  }

  lemma {:induction false} EffectHist(c: Command, was: Mem, dirtyWas: map<Bytes, PO.Overlay>, now: Mem,
                                      dirty: map<Bytes, PO.Overlay>, durable: RefTable)
    requires Effect(c, was, dirtyWas, now, dirty, durable) && c.Log?
    ensures now.hist == was.hist + [c.op]
  {
  }

  /** The moments of a run, each from the one before by its command. */
  ghost predicate Goes(run: seq<Moment>, cmds: seq<Command>, outs: seq<Outcome>, ps: C.Params, cut: seq<Cell> -> bool,
                       opts: Options)
    requires C.Valid(ps)
  {
    && |run| == |outs| + 1 && |outs| <= |cmds|
    && (forall n :: 0 <= n < |run| ==> Fine(run[n], opts))
    && (forall n :: 0 <= n < |outs| ==> Next(run[n], cmds[n], outs[n], run[n + 1], ps, cut, opts))
  }

  lemma {:induction false} GoesOn(run: seq<Moment>, cmds: seq<Command>, outs: seq<Outcome>, ps: C.Params,
                                  cut: seq<Cell> -> bool, opts: Options, out: Outcome, m: Moment)
    requires C.Valid(ps) && Goes(run, cmds, outs, ps, cut, opts) && |outs| < |cmds| && Fine(m, opts)
    requires Next(run[|outs|], cmds[|outs|], out, m, ps, cut, opts)
    ensures Goes(run + [m], cmds, outs + [out], ps, cut, opts)
  {
    hide Fine, Next, C.Valid;
    var r, o := run + [m], outs + [out];
    forall n | 0 <= n < |o|
      ensures Next(r[n], cmds[n], o[n], r[n + 1], ps, cut, opts)
    {
      if n < |outs| {
        assert r[n] == run[n] && r[n + 1] == run[n + 1] && o[n] == outs[n];
      }
    }
  }

  ghost predicate Starts(m: Moment, first: DevState) {
    m.up && m.trace == [first] && m.acked == [] && m.overlays == map[] && m.acct == map[] && m.over == {}
  }

  /** A run from a fresh device: commands in any order, refused ones skipped. A command that fails stops the engine
      until the power is lost and it mounts again; the power may be lost in any device state, any number of times.
      The run starts with the formatted device, goes from moment to moment by its commands, and ends where the engine
      is. */
  method Run(dev: CrashDev, ps: C.Params, cut: seq<Cell> -> bool, opts: Options, walLen: nat, cmds: seq<Command>)
    returns (s: Option<Store>, outs: seq<Outcome>, ghost run: seq<Moment>)
    requires dev.Valid() && |dev.durable| <= U64 && C.Valid(ps) && Format.LogClean(dev.current, walLen)
    modifies dev
    ensures s.Some? <==> Format.Formattable(old(dev.current), walLen)
    ensures s.Some? ==> |outs| == |cmds| && Goes(run, cmds, outs, ps, cut, opts)
    ensures s.Some? ==> Starts(run[0], DevState(Format.FormatDisk(old(dev.current), walLen), []))
    ensures s.Some? ==> s.value.Safe() && s.value.dev == dev && s.value.ps == ps && s.value.cut == cut &&
                        s.value.opts == opts
    ensures s.Some? ==> var m := run[|cmds|];
                        m == At(s.value, m.up, m.acked, m.marks, m.over) && (m.up ==> s.value.Valid())
  {
    hide Store.Inv, TraceOk, Ends, Taken, Format.FormatDisk, Format.LogClean, Recorded, Current, MarksOk, C.Valid,
      RefWithin, Does, Fails, Loses, Fine, Goes;
    outs, run := [], [];
    s := FormatStore(dev, ps, cut, opts, walLen);
    if s.None? {
      return;
    }
    var e, up := s.value, true;
    run := [At(e, true, [], [], {})];
    FirstMoment(e, run[0]);
    GoesFrom(run[0], cmds, ps, cut, opts);
    for n := 0 to |cmds|
      invariant |outs| == n && |run| == n + 1 && Goes(run, cmds, outs, ps, cut, opts)
      invariant fresh(e) && e.Safe() && e.dev == dev && e.ps == ps && e.cut == cut && e.opts == opts
      invariant run[n] == At(e, up, run[n].acked, run[n].marks, run[n].over) && Fine(run[n], opts)
      invariant up ==> e.Valid() && e.hist == run[n].acked
      invariant Starts(run[0], DevState(Format.FormatDisk(old(dev.current), walLen), []))
    {
      ghost var m, m' := run[n], run[n];
      var out := Refused;
      var b := Accepts(e, cmds[n]);
      if b && cmds[n].Crash? {
        e, m' := Lose(e, cmds[n], m);
        out, up := Lost, true;
      } else if b && up {
        up, m' := Take(e, cmds[n], m);
        out := if up then Done else Failed;
      }
      GoesOn(run, cmds, outs, ps, cut, opts, out, m');
      outs, run := outs + [out], run + [m'];
    }
    s := Some(e);
  }

  lemma {:induction false} FirstMoment(e: Store, m: Moment)
    requires e.Valid() && e.hist == [] && e.overlays == map[] && e.acct == map[] && m == At(e, true, [], [], {})
    ensures Fine(m, e.opts) && e.Safe()
  {
    hide Store.Inv, TraceOk, Ends, MarksOk, RefWithin, HasRoom, AcctInv;
    e.TraceIn();
    e.Promised();
    e.AccountsNow();
    EndIs(e);
    NoMarks(e.log);
    forall r
      ensures RefWithin(e.overlays, e.acct, e.opts, r)
    {
      CleanWithin(e.overlays, e.acct, e.opts, r);
    }
  }

  lemma {:induction false} GoesFrom(m: Moment, cmds: seq<Command>, ps: C.Params, cut: seq<Cell> -> bool, opts: Options)
    requires C.Valid(ps) && Fine(m, opts)
    ensures Goes([m], cmds, [], ps, cut, opts)
  {
    hide Fine, C.Valid;
  }

  // ── What a run promises ──

  /** The operations the caller was told are done. */
  function Told(cmds: seq<Command>, outs: seq<Outcome>): seq<WalOp>
    requires |outs| <= |cmds|
    decreases |outs|
  {
    if outs == [] then []
    else
      var n := |outs| - 1;
      Told(cmds, outs[..n]) + (if outs[n].Done? && cmds[n].Log? then [cmds[n].op] else [])
  }

  /** While no power is lost, the history is exactly what the caller was told, and an engine that is up is within all
      its bounds. */
  lemma {:induction false} CrashFree(run: seq<Moment>, cmds: seq<Command>, outs: seq<Outcome>, ps: C.Params,
                                     cut: seq<Cell> -> bool, opts: Options, first: DevState, n: nat)
    requires C.Valid(ps) && Goes(run, cmds, outs, ps, cut, opts) && Starts(run[0], first) && n <= |outs|
    requires forall i :: 0 <= i < n ==> !cmds[i].Crash?
    ensures run[n].acked == Told(cmds, outs[..n]) && run[n].over == {}
    ensures run[n].up ==> Bounded(run[n].overlays, run[n].acct, opts)
    decreases n
  {
    hide TraceOk, MarksOk, RefWithin, Total, Effect, Relieved, Cause, Loses, C.Valid, Onward, Taken;
    if n == 0 {
      NoneBounded(opts);
    } else {
      CrashFree(run, cmds, outs, ps, cut, opts, first, n - 1);
      var a, b, c := run[n - 1], run[n], cmds[n - 1];
      assert Next(a, c, outs[n - 1], b, ps, cut, opts);
      assert outs[..n][..n - 1] == outs[..n - 1];
      if outs[n - 1].Done? {
        assert Fine(a, opts) && Fine(b, opts);
        TotalAfter(a, c, b, opts);
        BoundedStep(b.overlays, a.overlays, b.acct, a.acct, opts);
      }
    }
  }

  lemma {:induction false} TotalAfter(a: Moment, c: Command, b: Moment, opts: Options)
    requires Does(a, c, b, opts)
    ensures Total(b.overlays) <= opts.sizeLow || |b.overlays| <= 1 || Total(b.overlays) <= Total(a.overlays)
  {
    hide Total, RefWithin, Effect, Onward;
  }

  /** No power loss between moments `n` and `m` reaches back to device state `mark`. */
  ghost predicate Reaches(run: seq<Moment>, cmds: seq<Command>, outs: seq<Outcome>, n: nat, m: nat, mark: nat)
    requires n <= m <= |outs| <= |cmds| && |run| == |outs| + 1
  {
    forall i :: n <= i < m && outs[i].Lost? && cmds[i].Crash? ==> mark + cmds[i].back < |run[i].trace|
  }

  /** An operation, once acknowledged, stays acknowledged in its place, whatever fails and however often the power is
      lost, unless it is lost in a device state before the acknowledgement. */
  lemma {:induction false} StaysAcked(run: seq<Moment>, cmds: seq<Command>, outs: seq<Outcome>, ps: C.Params,
                                      cut: seq<Cell> -> bool, opts: Options, n: nat, m: nat, k: nat)
    requires C.Valid(ps) && Goes(run, cmds, outs, ps, cut, opts) && n <= m <= |outs|
    requires k < |run[n].acked| == |run[n].marks| && Reaches(run, cmds, outs, n, m, run[n].marks[k])
    ensures k < |run[m].acked| == |run[m].marks|
    ensures run[m].acked[k] == run[n].acked[k] && run[m].marks[k] == run[n].marks[k]
    decreases m
  {
    hide TraceOk, RefWithin, Total, Effect, Relieved, Cause, C.Valid, Onward, Taken, LogWithin, Survives, Commits;
    if n < m {
      StaysAcked(run, cmds, outs, ps, cut, opts, n, m - 1, k);
      assert Next(run[m - 1], cmds[m - 1], outs[m - 1], run[m], ps, cut, opts) && Fine(run[m], opts);
    }
  }

  /** And at every moment of a run, a crash in any state from an operation's acknowledgement on reads it back. */
  lemma {:induction false} RunReads(run: seq<Moment>, cmds: seq<Command>, outs: seq<Outcome>, ps: C.Params,
                                    cut: seq<Cell> -> bool, opts: Options, n: nat, k: nat, j: nat, fates: seq<Fate>)
    returns (h: seq<WalOp>)
    requires C.Valid(ps) && Goes(run, cmds, outs, ps, cut, opts) && n < |run| && k < |run[n].acked| == |run[n].marks|
    requires run[n].marks[k] <= j < |run[n].trace| && |fates| == |run[n].trace[j].pending|
    ensures WellFormed(run[n].trace[j]) && run[n].acked[..k + 1] <= h
    ensures var m := Mount(Crashed(run[n].trace[j], fates));
            m.Some? && forall r, p :: ReadMounted(m.value, r, p) == After(None, h, r, p)
  {
    hide TraceOk, RefWithin, C.Valid, Mount, Crashed, After, ReadMounted, Next, WellFormed;
    var m := run[n];
    assert Fine(m, opts);
    h := AckedSurvives(m.trace, m.log, m.marks[k], j, fates);
  }
}
