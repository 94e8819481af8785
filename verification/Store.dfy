/** The storage engine: its state in memory over the device, and the operations on it. The class
    invariant says of every state the device has ever been in that a crash there can be recovered to the
    history acknowledged by then, or to that and the one operation in flight. */
module Store {
  import opened Cells
  import opened WalCodec
  import opened WalLog
  import opened Ring
  import opened Device
  import Superblock
  import opened Extents
  import opened ChunkIndex
  import opened RefTables
  import opened History
  import opened Durable
  import opened Recovery
  import opened CrashSafety
  import opened ChunkSpace
  import opened Volatile
  import opened Accounts
  import opened CommitStep
  import opened AppendStep
  import opened Sweep
  import opened Scheduler
  import Tree
  import TreeEdit
  import EditShape
  import TreeFlush
  import Prolly
  import Gc
  import C = Chunker
  import PO = PathOverlay

  /** The present promise. */
  ghost predicate Ends(log: seq<Promise>, p: Promise) {
    log != [] && log[|log| - 1] == p
  }

  /** A commit in the making is the next one, and keeps every ref and snapshot. */
  ghost predicate PromiseOk(p: Promise) {
    p.next.Some? ==> p.next.value.sb.generation == p.img.sb.generation + 1 && Grows(p.next.value.table, p.img.table)
  }

  /** What may be promised next: nothing acknowledged is taken back, and the last commit stays or gives way to
      the one that was in the making. */
  ghost predicate Follows(p: Promise, q: Promise) {
    p.hist <= q.hist && Commits(p, q.img)
  }

  /** Every device state was crash safe for what was promised then, and every promise was kept by the next. */
  ghost predicate TraceOk(trace: seq<DevState>, log: seq<Promise>) {
    && |trace| == |log|
    && (forall i :: 0 <= i < |trace| ==> CrashSafe(trace[i], log[i]))
    && (forall i :: 0 <= i < |log| ==> PromiseOk(log[i]))
    && (forall i :: 0 < i < |log| ==> Follows(log[i - 1], log[i]))
  }

  /** The record only grows. */
  ghost predicate Onward(trace: seq<DevState>, log: seq<Promise>, trace': seq<DevState>, log': seq<Promise>) {
    trace <= trace' && log <= log'
  }

  lemma {:induction false} OnwardTwice(t0: seq<DevState>, l0: seq<Promise>, t1: seq<DevState>, l1: seq<Promise>,
                                       t2: seq<DevState>, l2: seq<Promise>)
    requires Onward(t0, l0, t1, l1) && Onward(t1, l1, t2, l2)
    ensures Onward(t0, l0, t2, l2)
  {
  }

  lemma {:induction false} OnwardSelf(trace: seq<DevState>, log: seq<Promise>)
    ensures Onward(trace, log, trace, log)
  {
  }

  lemma {:induction false} IndexGrows(a: seq<IndexRow>, b: seq<IndexRow>, c: seq<IndexRow>)
    requires a <= b && b <= c
    ensures a <= c
  {
  }

  lemma {:induction false} NextGeneration(d: seq<Cell>, img: Image, next: Image, tail: nat, hist: seq<WalOp>,
                                          a: set<WalOp>)
    requires FlipReady(d, img, next, tail, hist, a)
    ensures next.sb.generation == img.sb.generation + 1
  {
  }

  lemma {:induction false} TraceMore(trace: seq<DevState>, log: seq<Promise>, s: DevState, q: Promise, p: Promise)
    requires TraceOk(trace, log) && Ends(log, q) && Follows(q, p) && CrashSafe(s, p) && PromiseOk(p)
    ensures TraceOk(trace + [s], log + [p]) && Ends(log + [p], p) && Onward(trace, log, trace + [s], log + [p])
  {
    hide CrashSafe, Follows, PromiseOk;
    var more := log + [p];
    forall i | 0 < i < |more|
      ensures Follows(more[i - 1], more[i])
    {
      if i < |log| {
        assert Follows(log[i - 1], log[i]);
      }
    }
  }

  lemma {:induction false} AttemptsLater(table: RefTable, committed: RefTable, before: set<WalOp>, a: set<WalOp>)
    requires Grows(table, committed) && AttemptsOk(before, committed) && a <= before
    ensures AttemptsOk(a, table)
  {
    hide Plain, RefKnown, Grows;
    forall x | x in a
      ensures Plain(x) && RefKnown(table, x.ref)
    {
      KnownLater(table, committed, x.ref);
    }
  }

  lemma {:induction false} KnownLater(refs: RefTable, committed: RefTable, r: Bytes)
    requires Grows(refs, committed) && RefKnown(committed, r)
    ensures RefKnown(refs, r)
  {
    var i :| 0 <= i < |committed.refs| && committed.refs[i].name == r;
    assert refs.refs[i].name == r;
  }

  /** The tree under `root` reads as the overlay over the tree under `base`. */
  ghost predicate Merges(base: Hash, o: PO.Overlay, root: Hash) {
    forall p :: Tree.Files(root, p) == PO.View(Tree.TreeAt(base), o, p)
  }

  /** The tree as read through a set of stored objects. */
  function TreeIn(store: set<Hash>, root: Hash): PO.Tree {
    (q: Path) => Tree.FileIn(store, root, q)
  }

  /** What a read may say. */
  datatype ReadResult = Found(content: Option<Bytes>) | NoSuchRef | NotAFile

  /** The path of the committed tree that a read of `p` needs, if any. */
  function CommittedPath(o: PO.Overlay, p: Path): Option<Path> {
    match PO.State(o, p)
    case Unlinked => None
    case Clean => Some(p)
    case Dirty(fo) => if fo.isFresh then None else Some(TreeFlush.OriginOf(fo, p))
  }

  ghost predicate Unreadable(root: Hash, o: PO.Overlay, p: Path) {
    && CommittedPath(o, p).Some?
    && (Tree.DirAt(root, CommittedPath(o, p).value) || Tree.Through(root, CommittedPath(o, p).value))
  }

  lemma {:induction false} LookupKinds(store: set<Hash>, root: Hash, q: Path)
    requires RootIn(root, store)
    ensures TreeFlush.NotDir(Tree.LookupIn(store, root, q)) <==> !Tree.DirAt(root, q) && !Tree.Through(root, q)
  {
    hide Tree.EntryAt, Tree.Through, Tree.Proper, Gc.Reach, Gc.Sane;
    Tree.EntrySame(store, root, q);
    if TreeFlush.NotDir(Tree.LookupIn(store, root, q)) {
      TreeFlush.NotThrough(root, q);
    } else {
      TreeFlush.DirOrThrough(store, root, q);
    }
  }

  ghost predicate BirthsOk(rows: seq<IndexRow>, gen: nat) {
    forall i :: 0 <= i < |rows| ==> rows[i].birth <= gen + 1
  }

  lemma {:induction false} HashesPush(rows: seq<IndexRow>, r: IndexRow)
    ensures Hashes(rows + [r]) == Hashes(rows) + {r.hash}
  {
    assert (rows + [r])[|rows|] == r;
    forall i | 0 <= i < |rows| ensures rows[i].hash in Hashes(rows + [r]) {
      assert (rows + [r])[i] == rows[i];
    }
  }

  lemma {:induction false} RootsGrow(table: RefTable, a: set<Hash>, b: set<Hash>)
    requires RootsIn(table, a) && a <= b
    ensures RootsIn(table, b)
  {
  }

  // ── Why an operation may fail ──

  /** The part of the engine's state that a flush or a commit can fail on; `size` is that of the device. */
  datatype Mem = Mem(space: Space, sb: Sb, table: RefTable, hist: seq<WalOp>, done: map<Bytes, nat>, size: nat)

  /** An object of `n` cells can be stored. */
  predicate Room(m: Mem, n: nat) {
    HasRoom(m.space, n, m.size - ChunkOff(m.sb.walLen))
  }

  /** The object is not stored yet and cannot be. */
  ghost predicate Unplaced(m: Mem, h: Hash) {
    h !in Hashes(m.space.index) && !Room(m, |h.content|)
  }

  /** The generation is at its ceiling, or the ref table or the index frame has no room. */
  ghost predicate NoCommit(m: Mem) {
    || m.sb.generation + 2 >= U64
    || (Of(EncodeTable(m.table)) !in Hashes(m.space.index) && !Room(m, |EncodeTable(m.table)|))
    || !Room(m, IndexPayloadLen(|m.space.index|, |m.space.free| + |m.space.pending| + 1))
  }

  /** The overlay cannot become tree: the flush is refused, or an object it needs has no room. */
  ghost predicate NoTree(m: Mem, ps: C.Params, cut: seq<Cell> -> bool, root: Hash, o: PO.Overlay)
    requires C.Valid(ps)
  {
    TreeFlush.Blocked(root, o, ps, cut) || exists h :: TreeFlush.Needed(root, o, ps, cut, h) && Unplaced(m, h)
  }

  /** The operations of ref `r` since its last flush cannot become tree. */
  ghost predicate NoFlush(m: Mem, ps: C.Params, cut: seq<Cell> -> bool, r: Bytes)
    requires C.Valid(ps)
  {
    && DoneOf(m.done, r) <= |m.hist|
    && exists i :: && 0 <= i < |m.table.refs| && m.table.refs[i].name == r
                   && NoTree(m, ps, cut, m.table.refs[i].root, ReplayOverlay(m.hist[DoneOf(m.done, r)..], r))
  }

  class Store {
    const dev: CrashDev
    const ps: C.Params
    const cut: seq<Cell> -> bool
    const opts: Options
    var space: Space
    var sb: Sb
    var sbInB: bool
    var table: RefTable
    var overlays: map<Bytes, PO.Overlay>
    var acct: map<Bytes, Acct>
    var walTail: nat
    var walSeq: nat
    var walRecords: seq<RecMeta>

    /** The durable commit, the acknowledged operations, the records that earlier crashes may have left
        half written at the tail, and how far each ref's tree has got. */
    ghost var img: Image
    ghost var hist: seq<WalOp>
    ghost var attempted: set<WalOp>
    ghost var done: map<Bytes, nat>
    ghost var log: seq<Promise>

    ghost function Now(): Promise
      reads this`hist, this`attempted, this`img
    {
      Promise(hist, attempted, img, None)
    }

    ghost predicate DiskOk()
      reads this`img, this`sb, this`sbInB, this`walTail, this`hist, this`attempted, dev
    {
      && dev.Valid() && sb == img.sb
      && DiskInv(dev.durable, img, sbInB, walTail, hist, attempted)
      && RowsOk(img.index) && PendingSafe(dev.State(), img)
      && AttemptsOk(attempted, img.table)
    }

    ghost predicate SpaceOk()
      reads this`img, this`sb, this`space, this`table, dev
    {
      && SpaceInv(space, img, |dev.durable|)
      && ObjectsAt(dev.current, ChunkOff(sb.walLen), space.index)
      && BirthsOk(space.index, sb.generation)
      && TableFits(table) && RootsIn(table, Hashes(space.index))
      && Grows(table, img.table)
    }

    ghost predicate MemoryOk()
      reads this`walRecords, this`walSeq, this`sb, this`hist, this`done, this`table, this`overlays, this`acct
    {
      && LogInv(walRecords, sb, hist, done) && walSeq == |hist| + 1
      && ViewInv(table, overlays, hist, done) && acct.Keys == overlays.Keys && AcctInv(acct, hist, done)
    }

    ghost predicate Inv()
      reads this, dev
    {
      C.Valid(ps) && DiskOk() && SpaceOk() && MemoryOk() && TraceOk(dev.trace, log) && Ends(log, Now())
    }

    /** What holds even after a failure. */
    ghost predicate Safe()
      reads this`log, dev
    {
      C.Valid(ps) && dev.Valid() && TraceOk(dev.trace, log)
    }

    /** Between operations: every ref is committed. */
    ghost predicate Valid()
      reads this, dev
    {
      Inv() && |table.refs| == |img.table.refs| && space.pending == []
    }

    // ── Why an operation may fail ──

    ghost function Memory(): Mem
      reads this`space, this`sb, this`table, this`hist, this`done, dev
    {
      Mem(space, sb, table, hist, done, |dev.durable|)
    }

    ghost predicate Fits(n: nat)
      reads this`space, this`sb, this`table, this`hist, this`done, dev
    {
      Room(Memory(), n)
    }

    ghost predicate NoRoom(h: Hash)
      reads this`space, this`sb, this`table, this`hist, this`done, dev
    {
      Unplaced(Memory(), h)
    }

    ghost predicate CommitStuck()
      reads this`space, this`sb, this`table, this`hist, this`done, dev
    {
      NoCommit(Memory())
    }

    ghost predicate RefStuck(root: Hash, o: PO.Overlay)
      reads this`space, this`sb, this`table, this`hist, this`done, dev
    {
      C.Valid(ps) && NoTree(Memory(), ps, cut, root, o)
    }

    ghost predicate FlushStuck(r: Bytes)
      reads this`space, this`sb, this`table, this`hist, this`done, dev
    {
      C.Valid(ps) && NoFlush(Memory(), ps, cut, r)
    }

    /** Either way a flush of `r` and a commit can fail. */
    ghost predicate StuckOn(r: Bytes)
      reads this`space, this`sb, this`table, this`hist, this`done, dev
    {
      CommitStuck() || FlushStuck(r)
    }

    ghost predicate Stuck()
      reads this`space, this`sb, this`table, this`hist, this`done, dev
    {
      CommitStuck() || exists r :: FlushStuck(r)
    }

    /** Where a failure leaves the engine: the disk stands for the whole history and the region is accounted for,
        except that a commit without room for its index frame has already deferred the old one. */
    ghost predicate Halted()
      reads this, dev
    {
      && Stuck() && DiskOk() && LogInv(walRecords, sb, hist, done)
      && SpaceInv(space.(pending := []), img, |dev.durable|)
      && (space.pending == [] || space.pending == [space.ext])
    }

    lemma {:induction false} DiskIs()
      requires dev.Valid() && sb == img.sb && DiskInv(dev.durable, img, sbInB, walTail, hist, attempted)
      requires RowsOk(img.index) && PendingSafe(dev.State(), img) && AttemptsOk(attempted, img.table)
      ensures DiskOk()
    {
      hide DiskInv, RowsOk, PendingSafe, AttemptsOk, WellFormed, Current;
    }

    lemma {:induction false} SpaceIs()
      requires SpaceInv(space, img, |dev.durable|) && ObjectsAt(dev.current, ChunkOff(sb.walLen), space.index)
      requires BirthsOk(space.index, sb.generation) && TableFits(table) && RootsIn(table, Hashes(space.index))
      requires Grows(table, img.table)
      ensures SpaceOk()
    {
      hide SpaceInv, ObjectsAt, BirthsOk, TableFits, RootsIn, Hashes, Grows;
    }

    lemma {:induction false} MemoryIs()
      requires LogInv(walRecords, sb, hist, done) && walSeq == |hist| + 1 && ViewInv(table, overlays, hist, done)
      requires acct.Keys == overlays.Keys && AcctInv(acct, hist, done)
      ensures MemoryOk()
    {
      hide LogInv, AcctInv, ViewInv;
    }

    lemma {:induction false} MemoryHas()
      requires MemoryOk()
      ensures LogInv(walRecords, sb, hist, done) && walSeq == |hist| + 1 && ViewInv(table, overlays, hist, done)
      ensures acct.Keys == overlays.Keys && AcctInv(acct, hist, done)
    {
      hide LogInv, ViewInv, AcctInv;
    }

    lemma {:induction false} ValidIs()
      requires C.Valid(ps) && DiskOk() && SpaceOk() && MemoryOk() && TraceOk(dev.trace, log) && Ends(log, Now()) &&
               |table.refs| == |img.table.refs| && space.pending == []
      ensures Valid()
    {
      hide C.Valid, DiskOk, SpaceOk, MemoryOk, TraceOk, Ends;
    }

    /** Mount a disk that stands for a history: take the surviving commit and replay its log. */
    constructor Mount(dev: CrashDev, ps: C.Params, cut: seq<Cell> -> bool, opts: Options, ghost img: Image,
                      ghost inB: bool, ghost tail: nat, ghost hist: seq<WalOp>, ghost attempted: set<WalOp>,
                      ghost log: seq<Promise>)
      requires C.Valid(ps) && dev.Valid() && dev.pending == [] && TraceOk(dev.trace, log)
      requires Ends(log, Promise(hist, attempted, img, None))
      requires DiskInv(dev.durable, img, inB, tail, hist, attempted) && AttemptsOk(attempted, img.table)
      ensures Valid() && this.dev == dev && this.ps == ps && this.cut == cut && this.opts == opts
      ensures this.hist == hist && this.attempted == attempted && this.img == img && this.log == log
      ensures table == img.table && sb == img.sb && sbInB == inB && walTail == tail
      ensures 1 <= sb.walNextSeq <= |hist| + 1
      ensures forall r :: RefWithin(overlays, acct, opts, r) <==> LogWithin(hist[sb.walNextSeq - 1..], opts, r)
    {
      hide DiskInv, SpaceInv, LogInv, AcctInv, ViewInv, TraceOk, Ends, PendingSafe, ObjectsAt, RootsIn, TableFits,
        AttemptsOk, BirthsOk, CrashSafe, Count, Recovery.Mount, Current, ImageOk, Covered, RingInv, AllPlain, C.Valid,
        Recs, MountTail, MountDone, RefWithin, LogWithin, OpsOn, ReplayOverlay, OpsIn, Recorded;
      QuietCurrent(dev.durable);
      MountFinds(dev.durable, img, inB, tail, hist, attempted);
      DiskParts(dev.durable, img, inB, tail, hist, attempted);
      var m := Recovery.Mount(dev.current).value;
      var o, a, q := Rebuild(m.recs, m.sb);
      this.dev, this.ps, this.cut, this.opts := dev, ps, cut, opts;
      space, sb, sbInB := Space(m.index, m.free, [], m.ext, m.sb.chunkTail), m.sb, m.inB;
      table, overlays, acct := m.table, o, a;
      walTail, walSeq, walRecords := MountTail(m.recs, m.sb), m.sb.walNextSeq + |m.recs|, q;
      this.img, this.hist, this.attempted, this.log := img, hist, attempted, log;
      done := MountDone(m.table, m.sb.walNextSeq - 1);
      new;
      NextSpace(img, |dev.durable|);
      QuietPending(dev.durable, img);
      TailFound(WalRegion(dev.durable, sb.walLen), sb, tail, hist, attempted);
      QueueRebuilt(table, sb, hist, m.recs, walRecords);
      ViewRebuilt(table, sb, hist, m.recs, overlays);
      RecsOps(hist[sb.walNextSeq - 1..], 0, sb.walNextSeq);
      PlainSuffix(hist, sb.walNextSeq - 1);
      forall r
        ensures RefWithin(overlays, acct, this.opts, r) <==> LogWithin(hist[sb.walNextSeq - 1..], this.opts, r)
      {
        MountedWithin(overlays, acct, hist[sb.walNextSeq - 1..], this.opts, r);
      }
      AcctRebuilt(table, hist, sb.walNextSeq - 1, acct);
    }

    /** Store an object: found by its hash, or written into space the durable commit does not use. */
    method Put(obj: seq<Cell>) returns (ok: bool)
      requires Inv()
      modifies this`space, this`log, dev
      ensures Inv() && dev.durable == old(dev.durable) && Onward(old(dev.trace), old(log), dev.trace, log)
      ensures old(space.index) <= space.index && space.pending == old(space.pending) && space.ext == old(space.ext)
      ensures ok <==> Of(obj) in old(Hashes(space.index)) || old(Fits(|obj|))
      ensures Tighter(space, old(space), |dev.durable| - ChunkOff(sb.walLen))
      ensures ok ==> Hashes(space.index) == old(Hashes(space.index)) + {Of(obj)}
      ensures !ok || Of(obj) in old(Hashes(space.index)) ==> space == old(space)
      ensures ok && Of(obj) !in old(Hashes(space.index)) ==> Placed(space, old(space), obj)
    {
      hide MemoryOk, DiskInv, SpaceInv, LogInv, AcctInv, ViewInv, TraceOk, Ends, PendingSafe, ObjectsAt, RootsIn,
        TableFits, Grows, AttemptsOk, CrashSafe, Frame, Handed, BirthsOk, Count, Avail, Ordered, Hashes, C.Valid,
        Current, FindRow, Recorded;
      var h := Of(obj);
      if FindRow(space.index, h).Some? {
        FoundIn(space.index, h);
        return true;
      }
      NotFound(space.index, h);
      var co := ChunkOff(sb.walLen);
      SpaceBasics(space, img, |dev.durable|);
      if |obj| >= U32 {
        return false;
      }
      var off, free', tail' := Alloc(space.free, space.tail, CHUNK_HEADER + |obj|, |dev.current| - co);
      if off.None? {
        return false;
      }
      LessRoom(space, free', tail', |dev.durable| - co);
      var r := IndexRow(h, off.value + CHUNK_HEADER, |obj|, sb.generation + 1);
      IsHanded(space, FrameOf(r), free', tail');
      PutStep(dev.State(), img, sbInB, walTail, hist, attempted, space, table, obj, r, free', tail');
      var w := dev.Write(co + off.value, Frame(obj, sb.generation + 1));
      TraceMore(old(dev.trace), log, dev.State(), Now(), Now());
      log := log + [Now()];
      space := space.(index := space.index + [r], free := free', tail := tail');
      return true;
    }

    /** Write the index frame into space free in the durable commit and in the next one. The frame
        records the free list it was itself carved from; the pad makes it fill its extent. */
    method WriteIndexFrame(ghost c: Space)
      returns (ok: bool, off: nat, need: nat, merged: seq<Extent>, ghost free': seq<Extent>, ghost frame: seq<Cell>)
      requires SpaceInv(c, img, |dev.durable|) && sb == img.sb && dev.Valid()
      requires space == c.(pending := c.pending + [c.ext])
      modifies this`space, dev
      ensures ok <==> old(Fits(IndexPayloadLen(|space.index|, |space.free| + |space.pending| + 1)))
      ensures !ok ==> dev.State() == old(dev.State()) && dev.trace == old(dev.trace) && space == old(space)
      ensures dev.Valid() && space == old(space).(free := space.free, tail := space.tail)
      ensures ok ==> FirstFit(old(space.free), old(space.tail), need, off, space.free, space.tail)
      ensures ok ==> space.free == free' && Prepared(c, img, |old(dev.durable)|, need, off, free', space.tail, merged)
      ensures ok ==>
        && ChunkOff(sb.walLen) + off + need <= |old(dev.durable)|
        && need >= CHUNK_HEADER + IndexPayloadLen(|c.index|, |merged|)
        && frame == IndexCells(c.index, merged, need, sb.generation + 1) && |frame| == need
        && dev.State() == Written(old(dev.State()), ChunkOff(sb.walLen) + off, frame)
        && dev.trace == old(dev.trace) + [dev.State()]
    {
      hide SpaceInv, Frame, Handed, Count, Avail, Ordered, Current, EncodeIndex, Recorded;
      SpaceBasics(c, img, |dev.durable|);
      var co := ChunkOff(sb.walLen);
      need := CHUNK_HEADER + IndexPayloadLen(|space.index|, |space.free| + |space.pending| + 1);
      ok, off, merged, free', frame := false, 0, [], [], [];
      if need >= CHUNK_HEADER + U32 {
        return;
      }
      var at, f, t := Alloc(space.free, space.tail, need, |dev.current| - co);
      if at.None? {
        return;
      }
      off, free' := at.value, f;
      space := space.(free := f, tail := t);
      IsHanded(c, Extent(off, need), f, t);
      MergeReady(c, img, |dev.durable|, Extent(off, need), f, t);
      merged := MergedFree(space.free, space.pending);
      IsPrepared(c, img, |dev.durable|, need, off, f, t, merged);
      PadFits(|c.index|, |c.free| + |c.pending| + 2, |merged|);
      var pad := need - CHUNK_HEADER - IndexPayloadLen(|space.index|, |merged|);
      frame := Frame(EncodeIndex(space.index, merged, pad), sb.generation + 1);
      ok := dev.Write(co + off, Frame(EncodeIndex(space.index, merged, pad), sb.generation + 1));
    }

    /** Barrier 1: the ref table and the index frame are durable, and nothing refers to them yet. */
    method PrepareCommit()
      returns (ok: bool, off: nat, need: nat, merged: seq<Extent>, ghost c: Space, ghost cur: seq<Cell>,
               ghost free': seq<Extent>)
      requires Inv()
      modifies this`space, this`log, dev
      ensures Safe() && Onward(old(dev.trace), old(log), dev.trace, log)
      ensures DiskOk() && (!ok ==> CommitStuck() && SpaceInv(c, img, |dev.durable|))
      ensures old(CommitStuck()) ==> !ok
      ensures c.pending == old(space.pending) && c.ext == space.ext && space.index == c.index
      ensures !ok ==> space == c || space == c.(pending := c.pending + [c.ext])
      ensures ok ==> dev.pending == [] && sb.generation + 2 < U64 && Ends(log, Now())
      ensures ok ==> Barrier1(dev.durable, cur, img, c, need, off, free', space.tail, merged, table)
      ensures old(space.index) <= c.index
      ensures ok && Of(EncodeTable(table)) in old(Hashes(space.index)) ==> c.index == old(space.index)
      ensures ok ==> Hashes(c.index) == old(Hashes(space.index)) + {Of(EncodeTable(table))}
    {
      hide MemoryOk, DiskInv, SpaceInv, LogInv, AcctInv, ViewInv, TraceOk, Ends, PendingSafe, ObjectsAt, RootsIn,
        TableFits, Grows, AttemptsOk, CrashSafe, Frame, BirthsOk, Hashes, C.Valid, Current, EncodeTable, EncodeIndex,
        IndexPayloadLen, Overwrite, Prepared, RowsOk, Handed, Recorded, HasRoom, Onward;
      ok := Put(EncodeTable(table));
      c, cur := space, dev.current;
      FrameTighter(c, old(space), |dev.durable| - ChunkOff(sb.walLen));
      off, need, merged, free' := 0, 0, [], [];
      if !ok || sb.generation + 2 >= U64 {
        return false, off, need, merged, c, cur, free';
      }
      ghost var s, t1, l1 := dev.State(), dev.trace, log;
      space := space.(pending := space.pending + [space.ext]);
      ghost var frame;
      ok, off, need, merged, free', frame := WriteIndexFrame(c);
      if !ok {
        return;
      }
      FrameStep(s, img, sbInB, walTail, hist, attempted, c, need, off, free', space.tail, merged, frame);
      TraceMore(t1, log, dev.State(), Now(), Now());
      OnwardTwice(old(dev.trace), old(log), t1, l1, dev.trace, log + [Now()]);
      log := log + [Now()];
      ghost var t2, l2 := dev.trace, log;
      dev.Flush();
      TraceMore(t2, log, dev.State(), Now(), Now());
      OnwardTwice(old(dev.trace), old(log), t2, l2, dev.trace, log + [Now()]);
      log := log + [Now()];
      QuietPending(dev.durable, img);
      AtBarrier1(dev.durable, cur, img, c, need, off, free', space.tail, merged, table, frame);
    }

    /** Barrier 2: the superblock goes to the slot that is not live. */
    method Flip(sb': Sb, ghost img': Image, ghost tail': nat, ghost a': set<WalOp>)
      requires DiskOk() && dev.pending == [] && Safe() && Ends(log, Now())
      requires FlipReady(dev.durable, img, img', tail', hist, a') && a' <= attempted && img'.sb == sb'
      requires AttemptsOk(a', img'.table) && Grows(img'.table, img.table)
      modifies this`log, dev
      ensures Safe() && Onward(old(dev.trace), old(log), dev.trace, log)
      ensures Ends(log, Promise(hist, a', img', None)) && dev.pending == [] && |dev.durable| == |old(dev.durable)|
      ensures DiskInv(dev.durable, img', !sbInB, tail', hist, a')
    {
      hide DiskInv, TraceOk, Ends, CrashSafe, Current, Superblock.Encode, FlipReady, Overwrite, Flushed, AttemptsOk,
        PendingSafe, RowsOk, Recorded, Grows, C.Valid, Onward;
      ghost var s, t0, l0 := dev.State(), dev.trace, log;
      FlipStep(dev.durable, img, img', sbInB, walTail, tail', hist, attempted, a');
      assert img'.sb.generation == img.sb.generation + 1 by {
        NextGeneration(dev.durable, img, img', tail', hist, a');
      }
      ghost var during, after := Promise(hist, attempted, img, Some(img')), Promise(hist, a', img', None);
      var ok := dev.Write(SlotOff(!sbInB), Superblock.Encode(sb'));
      TraceMore(t0, log, dev.State(), Now(), during);
      log := log + [during];
      ghost var t1, l1 := dev.trace, log;
      dev.Flush();
      TraceMore(t1, log, dev.State(), during, after);
      OnwardTwice(t0, l0, t1, l1, dev.trace, log + [after]);
      log := log + [after];
    }

    /** The flip has landed: what it freed is reusable, and the queue starts at the new head. */
    method Land(n: nat, sb': Sb, ext: Extent, merged: seq<Extent>, ghost img': Image, ghost a': set<WalOp>)
      requires Safe() && Ends(log, Promise(hist, a', img', None)) && dev.pending == [] && n <= |walRecords|
      requires DiskInv(dev.durable, img', !sbInB, TailAfter(n, walRecords, walTail), hist, a')
      requires img'.sb == sb' && img'.index == space.index && img'.free == merged && img'.table == table
      requires IndexExtent(img') == ext && sb'.chunkTail == space.tail
      requires Grows(table, img.table) && AttemptsOk(attempted, img.table) && a' <= attempted
      requires LogInv(walRecords[n..], sb', hist, done) && walSeq == |hist| + 1 && ViewInv(table, overlays, hist, done)
      requires acct.Keys == overlays.Keys && AcctInv(acct, hist, done)
      modifies this`space, this`sb, this`sbInB, this`walTail, this`walRecords, this`img, this`attempted
      ensures Valid() && img == img' && attempted == a' && sb == sb' && walRecords == old(walRecords)[n..]
      ensures space == Space(old(space.index), merged, [], ext, old(space.tail))
    {
      hide Valid, Inv, DiskOk, SpaceOk, MemoryOk, DiskInv, SpaceInv, LogInv, AcctInv, ViewInv, TraceOk, Ends,
        PendingSafe, ObjectsAt, RootsIn, TableFits, Grows, AttemptsOk, BirthsOk, Hashes, C.Valid, Current, RowsOk,
        IndexExtent, WellFormed, Recorded;
      Committed(dev.durable, img', !sbInB, TailAfter(n, walRecords, walTail), hist, a', img.table, attempted);
      SetCommit(TailAfter(n, walRecords, walTail), walRecords[n..], sb',
                Space(space.index, merged, [], ext, space.tail), img', a');
      DiskIs();
      SpaceIs();
      MemoryIs();
      ValidIs();
    }

    method SetCommit(tail: nat, records: seq<RecMeta>, sb': Sb, space': Space, ghost img': Image, ghost a': set<WalOp>)
      modifies this`space, this`sb, this`sbInB, this`walTail, this`walRecords, this`img, this`attempted
      ensures walTail == tail && walRecords == records && sb == sb' && sbInB == !old(sbInB) && space == space'
      ensures img == img' && attempted == a'
    {
      walTail, walRecords := tail, records;
      sb, sbInB, space := sb', !sbInB, space';
      img, attempted := img', a';
    }

    /** Store every object of a set. */
    method PutAll(objs: set<Hash>) returns (ok: bool)
      requires Inv()
      modifies this`space, this`log, dev
      ensures Inv() && dev.durable == old(dev.durable) && space.pending == old(space.pending)
      ensures Onward(old(dev.trace), old(log), dev.trace, log)
      ensures old(space.index) <= space.index && space.ext == old(space.ext)
      ensures ok ==> Hashes(space.index) == old(Hashes(space.index)) + objs
      ensures !ok ==> exists h :: h in objs && NoRoom(h)
      ensures (exists h :: h in objs && old(NoRoom(h))) ==> !ok
    {
      hide Inv, Hashes, Onward, HasRoom;
      OnwardSelf(dev.trace, log);
      var todo := objs;
      while todo != {}
        invariant Inv() && dev.durable == old(dev.durable) && space.pending == old(space.pending)
        invariant Onward(old(dev.trace), old(log), dev.trace, log)
        invariant old(space.index) <= space.index && todo <= objs && space.ext == old(space.ext)
        invariant Hashes(space.index) == old(Hashes(space.index)) + (objs - todo)
        invariant forall n :: Fits(n) ==> old(Fits(n))
        invariant forall h :: h in objs - todo ==> !old(NoRoom(h))
        decreases todo
      {
        var h :| h in todo;
        ghost var t1, l1, rows := dev.trace, log, space.index;
        ok := Put(h.content);
        OnwardTwice(old(dev.trace), old(log), t1, l1, dev.trace, log);
        if !ok {
          return;
        }
        IndexGrows(old(space.index), rows, space.index);
        todo := todo - {h};
      }
      ok := true;
    }

    /** Turn a ref's overlay into tree and mark its log records. Nothing on disk refers to the new tree
        until the next commit. When it fails the overlay is gone all the same: the operations are in the log, but
        reads no longer see them until the next mount. */
    method FlushRef(r: Bytes) returns (ok: bool)
      requires Inv()
      modifies this`space, this`log, this`table, this`overlays, this`acct, this`walRecords, this`done, dev
      ensures Safe() && Onward(old(dev.trace), old(log), dev.trace, log)
      ensures old(space.index) <= space.index && dev.durable == old(dev.durable)
      ensures space.pending == old(space.pending) && overlays == old(overlays) - {r} && acct == old(acct) - {r}
      ensures ok ==> Inv() && walRecords == Marked(old(walRecords), r)
      ensures ok ==> SameNames(table.refs, old(table.refs)) && table.snaps == old(table.snaps)
      ensures !ok ==> FlushStuck(r) && DiskOk() && SpaceOk() && LogInv(walRecords, sb, hist, done)
      ensures old(FlushStuck(r)) ==> !ok
      ensures !ok ==> table == old(table) && walRecords == old(walRecords) && done == old(done)
    {
      hide Inv, MemoryOk, SpaceOk, DiskOk, LogInv, AcctInv, ViewInv, TraceOk, Hashes, Marked, PO.IsEmpty, OverlayOf,
        PO.View, RootIn, C.Valid, Onward, FlushStuck, RefStuck, Merges, PO.Valid;
      TraceIn();
      OnwardSelf(dev.trace, log);
      if FlushStuck(r) {
        StuckIs(r);
      }
      if PO.IsEmpty(OverlayOf(overlays, r)) {
        DropEmpty(r);
        TraceIn();
        return true;
      }
      DirtyKnown(r);
      var i := FindIndex(table.refs, r);
      FlushNeeds(r, i.value);
      var root;
      ok, root := BuildTree(table.refs[i.value].root, OverlayOf(overlays, r));
      TraceIn();
      if !ok {
        IsStuck(r, i.value);
        InvParts();
        overlays, acct := overlays - {r}, acct - {r};
        return;
      }
      Repoint(i.value, root);
      TraceIn();
    }

    /** Build and store the tree an overlay makes of a ref's tree. */
    method BuildTree(base: Hash, o: PO.Overlay) returns (ok: bool, root: Hash)
      requires PO.Valid(o) && RootIn(base, Hashes(space.index)) && Inv()
      modifies this`space, this`log, dev
      ensures Onward(old(dev.trace), old(log), dev.trace, log)
      ensures old(space.index) <= space.index && dev.durable == old(dev.durable) && space.pending == old(space.pending)
      ensures ok ==> RootIn(root, Hashes(space.index)) && Merges(base, o, root)
      ensures !ok ==> RefStuck(base, o)
      ensures old(RefStuck(base, o)) ==> !ok
      ensures Inv()
    {
      hide Inv, Hashes, PO.View, PO.Valid, Gc.Reach, Gc.Sane, Tree.Files, Tree.Proper, C.Valid, Onward,
        TreeFlush.Blocked, TreeFlush.Needed, HasRoom;
      TraceIn();
      OnwardSelf(dev.trace, log);
      var hs := Hashes(space.index);
      var store;
      ok, store, root := TreeFlush.FlushTree(hs, base, o, ps, cut);
      if ok {
        ok := PutAll(store - hs);
        assert hs + (store - hs) == store;
      }
    }

    /** Only known refs are dirty. */
    lemma {:induction false} DirtyKnown(r: Bytes)
      requires Inv() && !PO.IsEmpty(OverlayOf(overlays, r))
      ensures RefKnown(table, r)
    {
      hide DiskInv, SpaceInv, LogInv, AcctInv, TraceOk, Ends, PendingSafe, ObjectsAt, TableFits, Grows, AttemptsOk,
        BirthsOk, RootsIn, Hashes, C.Valid, Current, RowsOk, RefOk, Plain, WellFormed, RefKnown;
    }

    lemma {:induction false} InvParts()
      requires Inv()
      ensures DiskOk() && SpaceOk() && LogInv(walRecords, sb, hist, done)
    {
      hide DiskOk, SpaceOk, LogInv, AcctInv, ViewInv, TraceOk, Ends, C.Valid;
    }

    /** A ref's overlay is the history since its last flush. */
    lemma {:induction false} RowOverlay(i: nat)
      requires Inv() && i < |table.refs|
      ensures var r := table.refs[i].name;
              && DoneOf(done, r) <= |hist| && OverlayOf(overlays, r) == ReplayOverlay(hist[DoneOf(done, r)..], r)
              && (forall j :: 0 <= j < |table.refs| && table.refs[j].name == r ==> j == i)
    {
      hide DiskInv, SpaceInv, LogInv, AcctInv, TraceOk, Ends, PendingSafe, ObjectsAt, TableFits, Grows, AttemptsOk,
        BirthsOk, RootsIn, Hashes, C.Valid, Current, RowsOk, Plain, WellFormed, RefKnown, ReplayOverlay, OverlayOf;
      assert RefOk(table.refs[i], overlays, hist, done);
    }

    /** A ref with nothing to flush is not stuck, and a stuck one is so in its one row. */
    lemma {:induction false} StuckIs(r: Bytes)
      requires Inv() && FlushStuck(r)
      ensures !PO.IsEmpty(OverlayOf(overlays, r))
      ensures forall i :: 0 <= i < |table.refs| && table.refs[i].name == r ==>
                RefStuck(table.refs[i].root, OverlayOf(overlays, r))
    {
      hide Inv, NoTree, ReplayOverlay, OverlayOf, PO.IsEmpty, C.Valid;
      var i :| 0 <= i < |table.refs| && table.refs[i].name == r &&
               NoTree(Memory(), ps, cut, table.refs[i].root, ReplayOverlay(hist[DoneOf(done, r)..], r));
      RowOverlay(i);
      if PO.IsEmpty(OverlayOf(overlays, r)) {
        NeverStuck(table.refs[i].root, OverlayOf(overlays, r));
      }
    }

    lemma {:induction false} NeverStuck(root: Hash, o: PO.Overlay)
      requires PO.IsEmpty(o)
      ensures !RefStuck(root, o)
    {
      hide C.Valid, Hashes, HasRoom;
      if C.Valid(ps) {
        TreeFlush.NothingToDo(root, o, ps, cut);
      }
    }

    /** What the flush ran into is a matter of the history since the ref's last flush. */
    lemma {:induction false} IsStuck(r: Bytes, i: nat)
      requires Inv() && i < |table.refs| && table.refs[i].name == r
      requires RefStuck(table.refs[i].root, OverlayOf(overlays, r))
      ensures FlushStuck(r)
    {
      hide Inv, NoTree, ReplayOverlay, OverlayOf, C.Valid;
      RowOverlay(i);
    }

    lemma {:induction false} TraceIn()
      requires Inv()
      ensures Safe()
    {
      hide C.Valid, TraceOk, DiskInv, SpaceOk, MemoryOk, PendingSafe, AttemptsOk, RowsOk;
    }

    lemma {:induction false} Promised()
      requires Inv()
      ensures Ends(log, Now()) && log != []
    {
      hide C.Valid, TraceOk, DiskOk, SpaceOk, MemoryOk;
    }

    /** A ref with nothing dirty: only the empty overlay goes. */
    method DropEmpty(r: Bytes)
      requires Inv() && PO.IsEmpty(OverlayOf(overlays, r))
      modifies this`overlays, this`acct
      ensures Inv() && overlays == old(overlays) - {r} && acct == old(acct) - {r} && Marked(walRecords, r) == walRecords
    {
      hide DiskOk, SpaceOk, DiskInv, SpaceInv, LogInv, AcctInv, ViewInv, TraceOk, Ends, PendingSafe, ObjectsAt, RootsIn,
        TableFits, Grows, AttemptsOk, BirthsOk, Hashes, C.Valid, Current, RowsOk, PO.IsEmpty, OverlayOf, Marked,
        WellFormed;
      CleanMarked(table, overlays, walRecords, sb, hist, done, r);
      ViewDrop(table, overlays, hist, done, r);
      CleanAccount(table, overlays, acct, hist, done, r);
      assert acct - {r} == acct;
      overlays, acct := overlays - {r}, acct - {r};
    }

    lemma {:induction false} FlushNeeds(r: Bytes, i: nat)
      requires Inv() && i < |table.refs| && table.refs[i].name == r
      ensures PO.Valid(OverlayOf(overlays, r)) && RootIn(table.refs[i].root, Hashes(space.index))
    {
      hide DiskInv, SpaceInv, LogInv, AcctInv, TraceOk, Ends, PendingSafe, ObjectsAt, TableFits, Grows, AttemptsOk,
        BirthsOk, Hashes, C.Valid, Current, RowsOk, PO.Valid, OverlayOf, Gc.Reach, Gc.Sane, RefOk, Plain, RefKnown,
        WellFormed, Tree.Proper;
      assert RootIn(table.refs[i].root, Hashes(space.index));
      ViewReads(table.refs[i], overlays, hist, done, []);
    }

    /** The ref's row takes the new root, and its records count as flushed. */
    method Repoint(i: nat, root: Hash)
      requires i < |table.refs| && RootIn(root, Hashes(space.index))
      requires Merges(table.refs[i].root, OverlayOf(overlays, table.refs[i].name), root)
      requires Inv()
      modifies this`table, this`overlays, this`acct, this`walRecords, this`done
      ensures Inv() && table == Repointed(old(table), i, root) && overlays == old(overlays) - {old(table.refs[i].name)}
      ensures walRecords == Marked(old(walRecords), old(table.refs[i].name)) &&
              acct == old(acct) - {old(table.refs[i].name)}
    {
      hide DiskOk, DiskInv, SpaceInv, LogInv, AcctInv, ViewInv, TraceOk, Ends, PendingSafe, ObjectsAt, AttemptsOk,
        BirthsOk, RootsIn, TableFits, Grows, Hashes, C.Valid, Current, RowsOk, PO.View, OverlayOf, RootIn, WellFormed,
        Marked, Tree.Files;
      var r := table.refs[i].name;
      ViewFlush(table, overlays, hist, done, i, root);
      LogFlush(walRecords, sb, hist, done, r);
      AcctFlush(acct, hist, done, r);
      TableRepointed(table, i, root, Hashes(space.index), img.table);
      table := Repointed(table, i, root);
      overlays, acct := overlays - {r}, acct - {r};
      walRecords := Marked(walRecords, r);
      done := done[r := |hist|];
    }

    function WalUsage(): nat
      reads this
    {
      UsageOf(walRecords, sb, walTail)
    }

    /** Write a record at the tail of the ring, split where the ring ends, then flush once. */
    method WalWrite(op: WalOp, rec: seq<Cell>)
      requires Safe() && sb == img.sb && Ends(log, Now()) && rec == EncodeRecord(op, |hist| + 1)
      requires Appendable(dev.State(), img, sbInB, walTail, hist, attempted, op)
      requires ChunkOff(sb.walLen) <= |dev.durable| && walTail <= sb.walLen && |rec| <= sb.walLen
      modifies this`log, dev
      ensures Safe() && Onward(old(dev.trace), old(log), dev.trace, log)
      ensures Ends(log, Promise(hist + [op], {}, img, None)) && dev.pending == [] &&
              |dev.current| == |old(dev.current)|
      ensures DiskInv(dev.durable, img, sbInB, Wrap(walTail + RecLen(op), sb.walLen), hist + [op], {})
      ensures forall p :: ChunkOff(sb.walLen) <= p < |dev.current| ==> dev.current[p] == old(dev.current)[p]
    {
      hide DiskInv, TraceOk, Ends, CrashSafe, Current, Appendable, EncodeRecord, RecLen, Wrap, Recorded, C.Valid,
        Onward;
      ghost var s, t0, l0 := dev.State(), dev.trace, log;
      ghost var during, after := Promise(hist, attempted + {op}, img, None), Promise(hist + [op], {}, img, None);
      if walTail + |rec| <= sb.walLen {
        AppendWhole(s, img, sbInB, walTail, hist, attempted, op, rec, Written(s, WAL_OFF + walTail, rec));
        var ok := dev.Write(WAL_OFF + walTail, rec);
        TraceMore(t0, log, dev.State(), Now(), during);
        log := log + [during];
      } else {
        var k := sb.walLen - walTail;
        ghost var s1 := Written(s, WAL_OFF + walTail, rec[..k]);
        AppendSplit(s, img, sbInB, walTail, hist, attempted, op, rec, s1, Written(s1, WAL_OFF, rec[k..]));
        var ok := dev.Write(WAL_OFF + walTail, rec[..k]);
        TraceMore(t0, log, dev.State(), Now(), during);
        log := log + [during];
        ghost var t1, l1 := dev.trace, log;
        ok := dev.Write(WAL_OFF, rec[k..]);
        TraceMore(t1, log, dev.State(), during, during);
        OnwardTwice(t0, l0, t1, l1, dev.trace, log + [during]);
        log := log + [during];
      }
      ghost var t2, l2 := dev.trace, log;
      dev.Flush();
      QuietCurrent(dev.durable);
      TraceMore(t2, log, dev.State(), during, after);
      OnwardTwice(t0, l0, t2, l2, dev.trace, log + [after]);
      log := log + [after];
    }

    /** Log one operation and apply it to its ref's overlay. The acknowledgement is the flush. */
    method Append(op: WalOp) returns (ok: bool)
      requires Valid() && Plain(op) && Loggable(op) && RefKnown(table, op.ref)
      requires WalUsage() + RecLen(op) <= sb.walLen
      modifies this`log, this`walTail, this`walSeq, this`walRecords, this`overlays, this`acct, this`hist,
        this`attempted, dev
      ensures Safe() && Onward(old(dev.trace), old(log), dev.trace, log)
      ensures Valid() && (ok <==> old(walSeq) + 1 < U64)
      ensures ok ==> hist == old(hist) + [op] && attempted == {}
      ensures ok ==> overlays == old(overlays)[op.ref := ApplyOp(OverlayOf(old(overlays), op.ref), op, op.ref)]
      ensures ok ==> acct == Account(old(acct), op) && |walRecords| == |old(walRecords)| + 1
      ensures !ok ==> hist == old(hist) && walSeq == old(walSeq)
    {
      hide DiskInv, SpaceInv, LogInv, AcctInv, ViewInv, TraceOk, Ends, PendingSafe, ObjectsAt, RootsIn, TableFits,
        Grows, AttemptsOk, BirthsOk, Hashes, C.Valid, Current, RowsOk, Appendable, EncodeRecord, RecLen, Wrap, LogLen,
        Plain, Loggable, RefKnown, ApplyOp, UsageOf, Recorded, Onward;
      OnwardSelf(dev.trace, log);
      if walSeq + 1 >= U64 {
        return false;
      }
      CanAppendNow(dev.State(), img, sbInB, walTail, hist, attempted, op, walRecords, done, table);
      var rec := EncodeRecord(op, walSeq);
      ghost var cur := dev.current;
      WalWrite(op, rec);
      ObjectsElsewhere(cur, dev.current, ChunkOff(sb.walLen), space.index);
      Acked(op);
      ok := true;
    }

    /** The record is durable: queue it and let the overlay see the operation. */
    method Acked(op: WalOp)
      requires Safe() && Ends(log, Promise(hist + [op], {}, img, None)) && dev.pending == [] && space.pending == []
      requires sb == img.sb && RowsOk(img.index)
      requires DiskInv(dev.durable, img, sbInB, Wrap(walTail + RecLen(op), sb.walLen), hist + [op], {})
      requires SpaceOk() && |table.refs| == |img.table.refs|
      requires MemoryOk() && Plain(op) && RefKnown(table, op.ref)
      requires walTail == Wrap(sb.walHead + LogLen(hist[sb.walNextSeq - 1..]), sb.walLen)
      modifies this`walTail, this`walSeq, this`walRecords, this`overlays, this`acct, this`hist, this`attempted
      ensures Valid() && hist == old(hist) + [op] && attempted == {} && |walRecords| == |old(walRecords)| + 1
      ensures acct == Account(old(acct), op)
      ensures overlays == old(overlays)[op.ref := ApplyOp(OverlayOf(old(overlays), op.ref), op, op.ref)]
    {
      hide Valid, Inv, DiskOk, SpaceOk, MemoryOk, DiskInv, LogInv, AcctInv, ViewInv, TraceOk, Ends, PendingSafe,
        AttemptsOk, C.Valid, Current, RowsOk, RecLen, Wrap, LogLen, Plain, RefKnown, ApplyOp, WellFormed, Recorded;
      MemoryHas();
      ViewAppend(table, overlays, hist, done, op);
      LogAppend(walRecords, sb, hist, done, op, walTail);
      AcctAppend(acct, hist, done, op);
      AccountKeys(acct, op);
      QuietPending(dev.durable, img);
      NoAttempts(img.table);
      SetLog(walRecords + [RecMeta(walSeq, walTail, op.ref, false)], Wrap(walTail + RecLen(op), sb.walLen), walSeq + 1,
             overlays[op.ref := ApplyOp(OverlayOf(overlays, op.ref), op, op.ref)], Account(acct, op), hist + [op]);
      DiskIs();
      MemoryIs();
      ValidIs();
    }

    method SetLog(records: seq<RecMeta>, tail: nat, seqno: nat, dirty: map<Bytes, PO.Overlay>,
                  accounts: map<Bytes, Acct>, ghost acked: seq<WalOp>)
      modifies this`walTail, this`walSeq, this`walRecords, this`overlays, this`acct, this`hist, this`attempted
      ensures walRecords == records && walTail == tail && walSeq == seqno && overlays == dirty && acct == accounts
      ensures hist == acked && attempted == {}
    {
      walRecords, walTail, walSeq := records, tail, seqno;
      overlays, acct := dirty, accounts;
      hist, attempted := acked, {};
    }

    /** The ring has room for a record of `incoming` bytes and its usage is below the watermark. */
    predicate Roomy(incoming: nat, watermark: nat)
      reads this
    {
      WalUsage() + incoming <= sb.walLen && WalUsage() < watermark
    }

    /** Make room on the ring for a record: flush the ref that pins the oldest record and commit, until
        the record fits and usage is below the watermark. Each round drops at least that oldest record, so room is
        made unless a flush or a commit is stuck. A ref goes only if, with the log crowded, its record was the oldest;
        when there is room already, nothing happens. */
    method RelieveWal(incoming: nat, watermark: nat) returns (ok: bool)
      requires Valid() && incoming <= sb.walLen
      modifies this`space, this`log, this`table, this`overlays, this`acct, this`walRecords, this`done, this`sb,
        this`sbInB, this`walTail, this`img, this`attempted, dev
      ensures Safe() && Onward(old(dev.trace), old(log), dev.trace, log)
      ensures ok ==> Valid() && attempted <= old(attempted) && SameNames(table.refs, old(table.refs))
      ensures ok ==> sb.walLen == old(sb.walLen) && WalUsage() + incoming <= sb.walLen
      ensures ok ==> WalUsage() < watermark || walRecords == []
      ensures ok ==> Shrunk(overlays, old(overlays), acct, old(acct))
      ensures ok ==> forall r :: r in old(overlays) && r !in overlays ==>
                       Pinned(hist, r, sb.walLen, incoming, watermark)
      ensures old(Roomy(incoming, watermark)) ==> ok && unchanged(this) && unchanged(dev)
      ensures !ok ==> Halted() && walRecords != [] && StuckOn(walRecords[0].ref)
    {
      hide Inv, TraceOk, Ends, Popped, Marked, UsageOf, Shrunk, Onward, Halted, FlushStuck, CommitStuck, DiskOk,
        SpaceOk, LogInv, AcctInv, SpaceInv, Count, Pinned;
      TraceIn();
      OnwardSelf(dev.trace, log);
      ShrunkSelf(overlays, acct);
      while true
        invariant Valid() && attempted <= old(attempted) && SameNames(table.refs, old(table.refs))
        invariant Safe() && Onward(old(dev.trace), old(log), dev.trace, log)
        invariant sb.walLen == old(sb.walLen)
        invariant Shrunk(overlays, old(overlays), acct, old(acct))
        invariant forall r :: r in old(overlays) && r !in overlays ==>
                    Pinned(hist, r, sb.walLen, incoming, watermark)
        invariant old(Roomy(incoming, watermark)) ==> unchanged(this) && unchanged(dev)
        decreases |walRecords|
      {
        if Roomy(incoming, watermark) {
          break;
        }
        if walRecords == [] {
          EmptyUsage(sb, walTail);
          break;
        }
        ghost var queue, t1, l1 := walRecords, dev.trace, log;
        var r := walRecords[0].ref;
        Pins(incoming, watermark);
        ShrunkLess(overlays, old(overlays), acct, old(acct), r);
        ok := FlushAndCommit(r);
        OnwardTwice(old(dev.trace), old(log), t1, l1, dev.trace, log);
        if !ok {
          MarkedFront(queue, r);
          return;
        }
        FrontPopped(queue, r, walRecords);
      }
      ok := true;
    }

    /** The ref of the oldest record pins the log. */
    lemma {:induction false} Pins(incoming: nat, watermark: nat)
      requires Inv() && walRecords != [] && !Roomy(incoming, watermark)
      ensures Pinned(hist, walRecords[0].ref, sb.walLen, incoming, watermark)
    {
      hide SpaceOk, ViewInv, AcctInv, TraceOk, Ends, C.Valid, UsageOf, LogInv, LogLen, DiskInv, PendingSafe, AttemptsOk,
        RowsOk, WellFormed, Pinned;
      UsageNow(dev.durable, img, sbInB, walTail, hist, attempted, walRecords, done);
      FrontPins(walRecords, sb, hist, done, WalUsage(), incoming, watermark);
    }

    /** Flush one ref and make the result durable. */
    method FlushAndCommit(r: Bytes) returns (ok: bool)
      requires Valid()
      modifies this`space, this`log, this`table, this`overlays, this`acct, this`walRecords, this`done, this`sb,
        this`sbInB, this`walTail, this`img, this`attempted, dev
      ensures Safe() && Onward(old(dev.trace), old(log), dev.trace, log)
      ensures ok ==> Valid() && attempted <= old(attempted) && sb.walLen == old(sb.walLen)
      ensures ok ==> overlays == old(overlays) - {r} && acct == old(acct) - {r}
      ensures ok ==> SameNames(table.refs, old(table.refs)) && Popped(Marked(old(walRecords), r), walRecords)
      ensures !ok ==> Halted() && StuckOn(r)
      ensures !ok ==> walRecords == old(walRecords) || walRecords == Marked(old(walRecords), r)
      ensures old(FlushStuck(r)) ==> !ok
    {
      hide Inv, TraceOk, Ends, Popped, Marked, Onward, Halted, FlushStuck, CommitStuck, DiskOk, SpaceOk, LogInv,
        AcctInv, SpaceInv, Count, Hashes, EncodeTable;
      ok := FlushRef(r);
      if !ok {
        HaltFlush(r);
        return;
      }
      ghost var t1, l1 := dev.trace, log;
      ok := Commit();
      OnwardTwice(old(dev.trace), old(log), t1, l1, dev.trace, log);
      if !ok {
        HaltCommit();
      }
    }

    lemma {:induction false} HaltFlush(r: Bytes)
      requires FlushStuck(r) && DiskOk() && SpaceOk() && LogInv(walRecords, sb, hist, done) && space.pending == []
      ensures Halted()
    {
      hide FlushStuck, CommitStuck, DiskOk, LogInv, AcctInv, SpaceInv, ObjectsAt, BirthsOk, TableFits, RootsIn, Hashes,
        Grows;
      assert space.(pending := []) == space;
    }

    lemma {:induction false} HaltCommit()
      requires CommitStuck() && DiskOk() && LogInv(walRecords, sb, hist, done)
      requires SpaceInv(space.(pending := []), img, |dev.durable|)
      requires space.pending == [] || space.pending == [space.ext]
      ensures Halted()
    {
      hide FlushStuck, CommitStuck, DiskOk, LogInv, AcctInv, SpaceInv;
    }

    /** Keep one ref within its own bounds: flush and commit it when it is over, and only then. */
    method Contain(r: Bytes) returns (ok: bool)
      requires Valid() && r in overlays
      modifies this`space, this`log, this`table, this`overlays, this`acct, this`walRecords, this`done, this`sb,
        this`sbInB, this`walTail, this`img, this`attempted, dev
      ensures Safe() && Onward(old(dev.trace), old(log), dev.trace, log)
      ensures ok ==> Valid() && attempted <= old(attempted) && sb.walLen == old(sb.walLen)
      ensures old(RefWithin(overlays, acct, opts, r)) ==> ok && unchanged(this) && unchanged(dev)
      ensures ok && !old(RefWithin(overlays, acct, opts, r)) ==>
                overlays == old(overlays) - {r} && acct == old(acct) - {r}
      ensures !ok ==> Halted() && StuckOn(r)
    {
      hide Inv, TraceOk, Ends, Popped, Marked, Hashes, EncodeTable, OverlayBytes, Onward, Halted;
      TraceIn();
      OnwardSelf(dev.trace, log);
      KeysMatch();
      var bytes := BytesOf(overlays[r]);
      if bytes <= opts.perRefBudget && acct[r].ops <= opts.opBound {
        return true;
      }
      ok := FlushAndCommit(r);
    }

    /** Without refs nothing is dirty. */
    lemma {:induction false} NothingDirty()
      requires Inv() && table.refs == []
      ensures overlays == map[] && acct == map[]
    {
      hide DiskInv, SpaceInv, LogInv, AcctInv, TraceOk, Ends, PendingSafe, ObjectsAt, TableFits, Grows, AttemptsOk,
        BirthsOk, RootsIn, Hashes, C.Valid, Current, RowsOk, RefOk, Plain, WellFormed;
      assert forall r :: r in overlays ==> RefKnown(table, r);
    }

    lemma {:induction false} KeysMatch()
      requires Inv()
      ensures acct.Keys == overlays.Keys
    {
    }

    /** Size pressure: flush the biggest refs until the total is low enough or one ref is left, then
        commit once. Without pressure nothing happens; under it the biggest refs go, and no more than it takes. */
    method RelieveSize() returns (ok: bool)
      requires Valid()
      modifies this`space, this`log, this`table, this`overlays, this`acct, this`walRecords, this`done, this`sb,
        this`sbInB, this`walTail, this`img, this`attempted, dev
      ensures Safe() && Onward(old(dev.trace), old(log), dev.trace, log)
      ensures ok ==> Valid() && attempted <= old(attempted) && sb.walLen == old(sb.walLen)
      ensures ok ==> Shrunk(overlays, old(overlays), acct, old(acct))
      ensures ok ==> !Pressed(overlays, opts)
      ensures !old(Pressed(overlays, opts)) ==> ok && unchanged(this) && unchanged(dev)
      ensures ok && old(Pressed(overlays, opts)) ==> Trimmed(overlays, old(overlays), opts)
      ensures !ok ==> Halted() && (CommitStuck() || exists r :: r in old(overlays) && FlushStuck(r))
    {
      hide Inv, TraceOk, Ends, Popped, Marked, Hashes, EncodeTable, OverlayBytes, Total, Shrunk, SizeMap, Onward,
        Halted, FlushStuck, CommitStuck, DiskOk, SpaceOk, LogInv, AcctInv, SpaceInv, Count, FromTop, LastGone, Before;
      TraceIn();
      OnwardSelf(dev.trace, log);
      ShrunkSelf(overlays, acct);
      NoneGone(overlays);
      var sizes, total := Measure(overlays);
      if total <= opts.sizeLow {
        return true;
      }
      var flushed := false;
      while |overlays| > 1 && total > opts.sizeLow
        invariant Valid() && attempted == old(attempted) && sb == old(sb)
        invariant Safe() && Onward(old(dev.trace), old(log), dev.trace, log)
        invariant Shrunk(overlays, old(overlays), acct, old(acct)) && overlays.Keys <= old(overlays).Keys
        invariant sizes == SizeMap(overlays) && total == Total(overlays) && FromTop(overlays, old(overlays))
        invariant if flushed then old(Pressed(overlays, opts)) && Trimmed(overlays, old(overlays), opts)
                  else unchanged(this) && unchanged(dev)
        decreases |overlays|
      {
        SizeKeys(overlays);
        var r := Biggest(sizes);
        OneFewer(overlays, r);
        TrimMore(overlays, old(overlays), acct, old(acct), opts, r);
        ShrunkLess(overlays, old(overlays), acct, old(acct), r);
        ok := FlushMore(r, old(dev.trace), old(log));
        if !ok {
          return;
        }
        sizes, total := Measure(overlays);
        flushed := true;
      }
      ok := true;
      if flushed {
        ok := CommitMore(old(dev.trace), old(log));
      }
    }

    /** One flush of several: the record goes on from where it started. */
    method FlushMore(r: Bytes, ghost trace: seq<DevState>, ghost promises: seq<Promise>) returns (ok: bool)
      requires Valid() && Onward(trace, promises, dev.trace, log)
      modifies this`space, this`log, this`table, this`overlays, this`acct, this`walRecords, this`done, dev
      ensures Safe() && Onward(trace, promises, dev.trace, log)
      ensures old(space.index) <= space.index && overlays == old(overlays) - {r} && acct == old(acct) - {r}
      ensures ok ==> Valid() && walRecords == Marked(old(walRecords), r)
      ensures ok ==> SameNames(table.refs, old(table.refs)) && table.snaps == old(table.snaps)
      ensures !ok ==> Halted() && FlushStuck(r)
    {
      hide Inv, TraceOk, Ends, Marked, Onward, Halted, FlushStuck, CommitStuck, DiskOk, SpaceOk, LogInv, AcctInv,
        SpaceInv, Count;
      ghost var t1, l1 := dev.trace, log;
      ok := FlushRef(r);
      OnwardTwice(trace, promises, t1, l1, dev.trace, log);
      if !ok {
        HaltFlush(r);
      }
    }

    method CommitMore(ghost trace: seq<DevState>, ghost promises: seq<Promise>) returns (ok: bool)
      requires Valid() && Onward(trace, promises, dev.trace, log)
      modifies this`space, this`log, this`sb, this`sbInB, this`walTail, this`walRecords, this`img, this`attempted, dev
      ensures Safe() && Onward(trace, promises, dev.trace, log)
      ensures ok ==> Valid() && img.table == table && attempted <= old(attempted) && sb.walLen == old(sb.walLen)
      ensures ok ==> old(space.index) <= space.index && img.index == space.index
      ensures ok ==> Of(EncodeTable(table)) in Hashes(space.index) && Popped(old(walRecords), walRecords)
      ensures !ok ==> Halted() && CommitStuck()
    {
      hide Inv, TraceOk, Ends, Popped, Onward, Halted, FlushStuck, CommitStuck, DiskOk, SpaceOk, LogInv, AcctInv,
        SpaceInv, Count, Hashes, EncodeTable;
      ghost var t1, l1 := dev.trace, log;
      ok := Commit();
      OnwardTwice(trace, promises, t1, l1, dev.trace, log);
      if !ok {
        HaltCommit();
      }
    }

    lemma {:induction false} AccountsNow()
      requires Inv()
      ensures AcctInv(acct, hist, done)
    {
      hide DiskOk, SpaceOk, LogInv, ViewInv, AcctInv, TraceOk, Ends, C.Valid;
    }

    lemma {:induction false} FewNow(r: Bytes)
      requires Inv() && RefWithin(overlays, acct, opts, r)
      ensures FewOps(hist, done, r, opts.opBound)
    {
      hide Inv, AcctInv, FewOps, OverlayBytes;
      AccountsNow();
      FewIs(acct, hist, done, r, opts.opBound);
    }

    /** The accounts are those of the history. */
    lemma {:induction false} StaleNow(now: nat)
      requires Inv()
      ensures forall r :: Overdue(hist, done, r, now, opts.staleness) <==>
                            r in acct && Stale(acct[r], now, opts.staleness)
    {
      hide DiskOk, SpaceOk, LogInv, ViewInv, AcctInv, TraceOk, Ends, C.Valid, Overdue, Stale;
      forall r
        ensures Overdue(hist, done, r, now, opts.staleness) <==> r in acct && Stale(acct[r], now, opts.staleness)
      {
        StaleIs(acct, hist, done, r, now, opts.staleness);
      }
    }

    /** Flush every ref whose first operation since its last flush is too old, and no other, then commit once. */
    method RelieveStaleness(now: nat) returns (ok: bool)
      requires Valid()
      modifies this`space, this`log, this`table, this`overlays, this`acct, this`walRecords, this`done, this`sb,
        this`sbInB, this`walTail, this`img, this`attempted, dev
      ensures Safe() && Onward(old(dev.trace), old(log), dev.trace, log)
      ensures ok ==> Valid() && attempted <= old(attempted) && sb.walLen == old(sb.walLen)
      ensures ok ==> Shrunk(overlays, old(overlays), acct, old(acct))
      ensures ok ==> forall r :: !Overdue(hist, done, r, now, opts.staleness)
      ensures ok ==> forall r :: r in old(overlays) && r !in overlays ==>
                       old(Overdue(hist, done, r, now, opts.staleness))
      ensures (forall r :: !old(Overdue(hist, done, r, now, opts.staleness))) ==>
                ok && unchanged(this) && unchanged(dev)
      ensures !ok ==> Halted() && (CommitStuck() || exists r :: && old(Overdue(hist, done, r, now, opts.staleness))
                                                                && FlushStuck(r))
    {
      hide Inv, TraceOk, Ends, Popped, Marked, Hashes, EncodeTable, Stale, Shrunk, Onward, Halted, CommitStuck,
        FlushStuck, Overdue;
      TraceIn();
      OnwardSelf(dev.trace, log);
      ShrunkSelf(overlays, acct);
      StaleNow(now);
      var todo := set r | r in acct && Stale(acct[r], now, opts.staleness);
      assert forall r :: Overdue(hist, done, r, now, opts.staleness) <==> r in todo;
      if todo == {} {
        return true;
      }
      while todo != {}
        invariant Valid() && attempted == old(attempted) && sb == old(sb)
        invariant Safe() && Onward(old(dev.trace), old(log), dev.trace, log)
        invariant Shrunk(overlays, old(overlays), acct, old(acct))
        invariant forall r :: r in acct && r !in todo ==> !Stale(acct[r], now, opts.staleness)
        invariant forall r :: r in todo ==> old(Overdue(hist, done, r, now, opts.staleness))
        invariant forall r :: r in old(overlays) && r !in overlays ==>
                    old(Overdue(hist, done, r, now, opts.staleness))
        decreases todo
      {
        var r :| r in todo;
        ShrunkLess(overlays, old(overlays), acct, old(acct), r);
        ok := FlushMore(r, old(dev.trace), old(log));
        if !ok {
          return;
        }
        todo := todo - {r};
      }
      ok := CommitMore(old(dev.trace), old(log));
      if ok {
        StaleNow(now);
      }
    }

    /** The ref's overlay with the operation applied. */
    ghost function Applied(op: WalOp): map<Bytes, PO.Overlay>
      reads this
    {
      overlays[op.ref := ApplyOp(OverlayOf(overlays, op.ref), op, op.ref)]
    }

    /** The operation has a sequence number to take and leaves its own ref within its bounds. */
    ghost predicate Modest(op: WalOp)
      reads this
    {
      walSeq + 1 < U64 && RefWithin(Applied(op), Account(acct, op), opts, op.ref)
    }

    /** Neither the ring, nor a ref's bounds, nor the total, nor any ref's age calls for a flush. */
    ghost predicate Calm(op: WalOp)
      reads this
    {
      && Roomy(RecLen(op), opts.walWatermark) && Modest(op) && !Pressed(Applied(op), opts)
      && forall r :: !Overdue(hist + [op], done, r, op.mtime, opts.staleness)
    }

    /** One logged operation, from making room on the ring to the scheduler's reliefs. On return the
        operation is acknowledged, its ref is within its bounds, and every ref that was within still is. When nothing
        calls for a flush, it succeeds and nothing but its own ref's overlay and account changes in memory, apart from
        the log's bookkeeping. */
    method LogThenApply(op: WalOp) returns (ok: bool)
      requires Valid() && Plain(op) && Loggable(op) && RefKnown(table, op.ref) && RecLen(op) <= sb.walLen
      modifies this`space, this`log, this`table, this`overlays, this`acct, this`walRecords, this`walSeq, this`hist,
        this`done, this`sb, this`sbInB, this`walTail, this`img, this`attempted, dev
      ensures Safe() && Onward(old(dev.trace), old(log), dev.trace, log)
      ensures ok ==> Valid() && hist == old(hist) + [op] && attempted == {} && sb.walLen == old(sb.walLen)
      ensures ok ==> RefWithin(overlays, acct, opts, op.ref) &&
                     KeptWithin(overlays, old(overlays), acct, old(acct), opts)
      ensures ok ==> !Pressed(overlays, opts)
      ensures ok ==> FewOps(hist, done, op.ref, opts.opBound)
      ensures ok ==> forall r :: !Overdue(hist, done, r, op.mtime, opts.staleness)
      ensures old(Calm(op)) ==> ok && overlays == old(Applied(op)) && acct == Account(old(acct), op)
      ensures old(Calm(op)) ==> unchanged(this`table, this`space, this`sb, this`sbInB, this`done, this`img)
      ensures !ok ==> Halted() || (Valid() && walSeq + 1 >= U64)
    {
      hide Inv, TraceOk, Ends, Plain, Loggable, RefKnown, RecLen, OverlayBytes, Pressed, Overdue, RefWithin, KeptWithin,
        Onward, Halted, Shrunk, CommitStuck, FlushStuck, Account, Modest, Applied, Roomy, FewOps;
      ok := LogAndContain(op);
      if !ok {
        return;
      }
      ghost var o3, a3, t3, l3 := overlays, acct, dev.trace, log;
      ok := Relieve(op.mtime);
      OnwardTwice(old(dev.trace), old(log), t3, l3, dev.trace, log);
      if ok {
        WithinShrunk(overlays, o3, acct, a3, opts);
        KeptTwice(old(overlays), old(acct), o3, a3, overlays, acct, opts);
        StillWithin(overlays, o3, acct, a3, opts, op.ref);
        FewNow(op.ref);
      }
    }

    /** Up to the bounds of the operation's own ref. */
    method LogAndContain(op: WalOp) returns (ok: bool)
      requires Valid() && Plain(op) && Loggable(op) && RefKnown(table, op.ref) && RecLen(op) <= sb.walLen
      modifies this`space, this`log, this`table, this`overlays, this`acct, this`walRecords, this`walSeq, this`hist,
        this`done, this`sb, this`sbInB, this`walTail, this`img, this`attempted, dev
      ensures Safe() && Onward(old(dev.trace), old(log), dev.trace, log)
      ensures ok ==> Valid() && hist == old(hist) + [op] && attempted == {} && sb.walLen == old(sb.walLen)
      ensures ok ==> RefWithin(overlays, acct, opts, op.ref) &&
                     KeptWithin(overlays, old(overlays), acct, old(acct), opts)
      ensures old(Roomy(RecLen(op), opts.walWatermark) && Modest(op)) ==>
                ok && overlays == old(Applied(op)) && acct == Account(old(acct), op)
      ensures old(Roomy(RecLen(op), opts.walWatermark) && Modest(op)) ==>
                unchanged(this`table, this`space, this`sb, this`sbInB, this`done, this`img)
      ensures !ok ==> Halted() || (Valid() && walSeq + 1 >= U64)
    {
      hide Inv, TraceOk, Ends, Plain, Loggable, RefKnown, RecLen, UsageOf, Applied, Account, RefWithin, KeptWithin,
        Onward, Halted, Shrunk, CommitStuck, FlushStuck, Pinned, Modest;
      ok := RelieveWal(RecLen(op), opts.walWatermark);
      if !ok {
        return;
      }
      KnownStill(old(table), table, op.ref);
      WithinShrunk(overlays, old(overlays), acct, old(acct), opts);
      ghost var o1, a1, t1, l1 := overlays, acct, dev.trace, log;
      ok := AppendAndContain(op);
      OnwardTwice(old(dev.trace), old(log), t1, l1, dev.trace, log);
      if ok {
        KeptTwice(old(overlays), old(acct), o1, a1, overlays, acct, opts);
      }
    }

    /** With room on the ring: log the operation, then see to its ref's bounds. */
    method AppendAndContain(op: WalOp) returns (ok: bool)
      requires Plain(op) && Loggable(op) && RefKnown(table, op.ref) && WalUsage() + RecLen(op) <= sb.walLen
      requires Valid()
      modifies this`space, this`log, this`table, this`overlays, this`acct, this`walRecords, this`walSeq, this`hist,
        this`done, this`sb, this`sbInB, this`walTail, this`img, this`attempted, dev
      ensures Safe() && Onward(old(dev.trace), old(log), dev.trace, log)
      ensures ok ==> Valid() && hist == old(hist) + [op] && attempted == {} && sb.walLen == old(sb.walLen)
      ensures ok ==> RefWithin(overlays, acct, opts, op.ref) &&
                     KeptWithin(overlays, old(overlays), acct, old(acct), opts)
      ensures old(Modest(op)) ==> ok && overlays == old(Applied(op)) && acct == Account(old(acct), op)
      ensures old(Modest(op)) ==> unchanged(this`table, this`space, this`sb, this`sbInB, this`done, this`img)
      ensures !ok ==> Halted() || (Valid() && walSeq + 1 >= U64)
    {
      hide Inv, TraceOk, Ends, Plain, Loggable, RefKnown, RecLen, UsageOf, OverlayBytes, Within, ApplyOp,
        OverlayOf, RefWithin, KeptWithin, Onward, Halted, CommitStuck, FlushStuck;
      ok := Append(op);
      if !ok {
        return;
      }
      WithinAfter(old(overlays), old(acct), op.ref, overlays[op.ref], acct[op.ref], opts);
      ghost var t1, l1 := dev.trace, log;
      ok := Contain(op.ref);
      OnwardTwice(old(dev.trace), old(log), t1, l1, dev.trace, log);
    }

    method Relieve(now: nat) returns (ok: bool)
      requires Valid()
      modifies this`space, this`log, this`table, this`overlays, this`acct, this`walRecords, this`done, this`sb,
        this`sbInB, this`walTail, this`img, this`attempted, dev
      ensures Safe() && Onward(old(dev.trace), old(log), dev.trace, log)
      ensures ok ==> Valid() && attempted <= old(attempted) && sb.walLen == old(sb.walLen)
      ensures ok ==> Shrunk(overlays, old(overlays), acct, old(acct))
      ensures ok ==> !Pressed(overlays, opts)
      ensures ok ==> forall r :: !Overdue(hist, done, r, now, opts.staleness)
      ensures !old(Pressed(overlays, opts)) && (forall r :: !old(Overdue(hist, done, r, now, opts.staleness))) ==>
                ok && unchanged(this) && unchanged(dev)
      ensures !ok ==> Halted()
    {
      hide Inv, TraceOk, Ends, OverlayBytes, Total, Overdue, Shrunk, Onward, Halted;
      ok := RelieveSize();
      if !ok {
        return;
      }
      ghost var o1, a1, t1, l1 := overlays, acct, dev.trace, log;
      ok := RelieveStaleness(now);
      OnwardTwice(old(dev.trace), old(log), t1, l1, dev.trace, log);
      if ok {
        ShrunkTwice(overlays, o1, old(overlays), acct, a1, old(acct));
        TotalLess(overlays, o1, acct, a1);
      }
    }

    /** A read: overlay over tree, through the indexed objects. It returns what was acknowledged. It is refused for
        an unknown ref, and where the tree has a directory, or a file on the way, at the path it would read. */
    method Read(r: Bytes, p: Path) returns (c: ReadResult)
      requires Valid()
      ensures c.NoSuchRef? <==> !RefKnown(table, r)
      ensures c.NotAFile? <==> exists i :: 0 <= i < |table.refs| && table.refs[i].name == r &&
                                 Unreadable(table.refs[i].root, OverlayOf(overlays, r), p)
      ensures c.Found? ==> c.content == After(None, hist, r, p)
    {
      hide Inv, Hashes, PO.View, OverlayOf, After, TreeIn, Tree.EntryAt, Tree.Through, RootIn, PO.State;
      var i := FindIndex(table.refs, r);
      if i.None? {
        return NoSuchRef;
      }
      RefRead(i.value, p);
      var hs, root, o := Hashes(space.index), table.refs[i.value].root, OverlayOf(overlays, r);
      OneRow(i.value);
      var q := CommittedPath(o, p);
      if q.Some? {
        var at := Tree.Lookup(hs, root, q.value);
        LookupKinds(hs, root, q.value);
        if !TreeFlush.NotDir(at) {
          return NotAFile;
        }
      }
      return Found(PO.View(TreeIn(hs, root), o, p));
    }

    /** Reading one ref through the indexed objects. */
    lemma {:induction false} RefRead(i: nat, p: Path)
      requires i < |table.refs| && Inv()
      ensures RootIn(table.refs[i].root, Hashes(space.index))
      ensures PO.View(TreeIn(Hashes(space.index), table.refs[i].root), OverlayOf(overlays, table.refs[i].name), p) ==
              After(None, hist, table.refs[i].name, p)
    {
      hide DiskInv, SpaceInv, LogInv, AcctInv, TraceOk, Ends, PendingSafe, ObjectsAt, TableFits, Grows, AttemptsOk,
        BirthsOk, Hashes, C.Valid, Current, RowsOk, PO.View, PO.Valid, OverlayOf, Gc.Reach, Gc.Sane, RefOk, Plain,
        WellFormed, After, Tree.FileIn, Tree.Proper, Recorded;
      var hs, root, o := Hashes(space.index), table.refs[i].root, OverlayOf(overlays, table.refs[i].name);
      assert RootIn(root, hs);
      ViewReads(table.refs[i], overlays, hist, done, p);
      forall q
        ensures TreeIn(hs, root)(q) == Tree.TreeAt(root)(q)
      {
        Tree.ReachSuffices(hs, root, q);
      }
      ViewSame(TreeIn(hs, root), Tree.TreeAt(root), o, p);
    }

    /** Names are unique. */
    lemma {:induction false} OneRow(i: nat)
      requires i < |table.refs| && Inv()
      ensures forall k :: 0 <= k < |table.refs| && table.refs[k].name == table.refs[i].name ==> k == i
    {
      hide DiskOk, SpaceOk, LogInv, AcctInv, TraceOk, Ends, C.Valid, RefOk, Plain, RefKnown;
    }

    /** A new, empty ref, durable on return. */
    method CreateRef(name: Bytes) returns (ok: bool)
      requires Valid() && |name| < 256 && !RefKnown(table, name) && |table.refs| + 1 < U32
      modifies this`space, this`log, this`table, this`walRecords, this`done, this`sb, this`sbInB, this`walTail,
        this`img, this`attempted, dev
      ensures Safe() && Onward(old(dev.trace), old(log), dev.trace, log)
      ensures ok ==> Valid() && attempted <= old(attempted) && RefKnown(table, name) && img.table == table
      ensures ok ==> table == old(table).(refs := old(table.refs) + [NewRow(name, Prolly.EmptyRoot())])
      ensures ok ==> sb.walLen == old(sb.walLen)
      ensures !ok ==> Halted() || (Valid() && !Fits(|Prolly.EmptyRoot().content|))
    {
      hide Inv, TraceOk, Ends, Hashes, Prolly.EmptyRoot, RefKnown, Popped, Onward, Halted, FlushStuck, CommitStuck,
        DiskOk, SpaceOk, LogInv, AcctInv, SpaceInv, Count, HasRoom;
      ok := Put(Prolly.EmptyRoot().content);
      TraceIn();
      if !ok {
        return;
      }
      assert Of(Prolly.EmptyRoot().content) == Prolly.EmptyRoot();
      AddRow(name);
      ghost var t1, l1 := dev.trace, log;
      ok := Commit();
      OnwardTwice(old(dev.trace), old(log), t1, l1, dev.trace, log);
      if !ok {
        HaltCommit();
        return;
      }
      LastKnown(table, name);
    }

    lemma {:induction false} NotAccounted(name: Bytes)
      requires Inv() && !RefKnown(table, name)
      ensures name !in acct
    {
      hide DiskOk, SpaceOk, LogInv, AcctInv, TraceOk, Ends, C.Valid, RefOk, Plain, RefKnown;
    }

    method AddRow(name: Bytes)
      requires Valid() && |name| < 256 && !RefKnown(table, name) && |table.refs| + 1 < U32
      requires Prolly.EmptyRoot() in Hashes(space.index)
      modifies this`table, this`done
      ensures Inv() && table == old(table).(refs := old(table.refs) + [NewRow(name, Prolly.EmptyRoot())])
    {
      hide DiskOk, DiskInv, SpaceInv, LogInv, AcctInv, ViewInv, TraceOk, Ends, PendingSafe, ObjectsAt, AttemptsOk,
        BirthsOk, RootsIn, TableFits, Grows, Hashes, C.Valid, Current, RowsOk, Gc.Reach, Gc.Sane, WellFormed,
        Tree.Files, RefKnown, Prolly.EmptyRoot, Tree.Proper;
      var root := Prolly.EmptyRoot();
      forall p
        ensures Tree.Files(root, p) == None
      {
        TreeEdit.EmptyTree(p);
      }
      TreeEdit.EmptyTree([]);
      EditShape.EmptyProper();
      ViewCreate(table, overlays, hist, done, name, root);
      LogIgnores(walRecords, sb, hist, done, name, |hist|);
      assert name !in acct by {
        NotAccounted(name);
      }
      AcctNew(acct, hist, done, name);
      TableAdded(table, NewRow(name, root), Hashes(space.index), img.table);
      table := table.(refs := table.refs + [NewRow(name, root)]);
      done := done[name := |hist|];
    }

    /** Flush every ref and commit: the log is empty and every ref's tree is its whole history. */
    method SyncAll() returns (ok: bool)
      requires Valid()
      modifies this`space, this`log, this`table, this`overlays, this`acct, this`walRecords, this`done, this`sb,
        this`sbInB, this`walTail, this`img, this`attempted, dev
      ensures Safe() && Onward(old(dev.trace), old(log), dev.trace, log)
      ensures ok ==> Valid() && overlays == map[] && acct == map[] && walRecords == [] && img.table == table
      ensures ok ==> img.index == space.index && old(space.index) <= space.index
      ensures ok ==> Of(EncodeTable(table)) in Hashes(space.index) && table.snaps == old(table.snaps)
      ensures ok ==> SameNames(table.refs, old(table.refs))
      ensures ok ==> attempted <= old(attempted) && sb.walLen == old(sb.walLen)
      ensures !ok ==> Halted()
    {
      hide Inv, TraceOk, Ends, Popped, Marked, Hashes, EncodeTable, Onward, Halted, CommitStuck, FlushStuck;
      ok := FlushAll();
      if !ok {
        return;
      }
      KeysMatch();
      assert acct == map[];
      AllFlushed();
      ghost var queue, rows := walRecords, space.index;
      ok := CommitMore(old(dev.trace), old(log));
      if ok {
        IndexGrows(old(space.index), rows, space.index);
        PoppedEmpty(queue, walRecords);
      }
    }

    method FlushAll() returns (ok: bool)
      requires Valid()
      modifies this`space, this`log, this`table, this`overlays, this`acct, this`walRecords, this`done, dev
      ensures Safe() && Onward(old(dev.trace), old(log), dev.trace, log)
      ensures ok ==> Valid() && overlays == map[] && old(space.index) <= space.index
      ensures ok ==> SameNames(table.refs, old(table.refs)) && table.snaps == old(table.snaps)
      ensures !ok ==> Halted()
    {
      hide Inv, TraceOk, Ends, Marked, Onward, Halted, CommitStuck, FlushStuck;
      TraceIn();
      OnwardSelf(dev.trace, log);
      var todo := overlays.Keys;
      while todo != {}
        invariant Valid() && SameNames(table.refs, old(table.refs)) && table.snaps == old(table.snaps)
        invariant Safe() && Onward(old(dev.trace), old(log), dev.trace, log) && old(space.index) <= space.index
        invariant overlays.Keys == todo
        decreases todo
      {
        var r :| r in todo;
        ghost var rows := space.index;
        ok := FlushMore(r, old(dev.trace), old(log));
        if !ok {
          return;
        }
        IndexGrows(old(space.index), rows, space.index);
        todo := todo - {r};
      }
      ok := true;
      assert overlays == map[];
    }

    lemma {:induction false} AllFlushed()
      requires Inv() && overlays == map[]
      ensures forall i :: 0 <= i < |walRecords| ==> walRecords[i].flushed
    {
      hide DiskInv, SpaceInv, LogInv, AcctInv, ViewInv, TraceOk, Ends, PendingSafe, ObjectsAt, TableFits, Grows,
        AttemptsOk, BirthsOk, Hashes, C.Valid, Current, RowsOk, WellFormed, RootsIn;
      forall i | 0 <= i < |walRecords|
        ensures walRecords[i].flushed
      {
        CleanMarked(table, overlays, walRecords, sb, hist, done, walRecords[i].ref);
        assert Marked(walRecords, walRecords[i].ref)[i] == walRecords[i];
      }
    }

    /** Drop the rows that are not live from the index; their space waits for the next commit. */
    method Condemn(live: set<Hash>)
      requires Valid() && img.index == space.index
      requires forall i :: 0 <= i < |table.refs| ==> Gc.Reach(table.refs[i].root) <= live
      requires forall i :: 0 <= i < |table.snaps| ==> Gc.Reach(table.snaps[i].root) <= live
      modifies this`space
      ensures RowsOk(old(space.index)) && DeadIn(old(space.index), live, space.pending)
      ensures space == old(space).(index := LiveRows(old(space.index), live), pending := space.pending)
      ensures Inv()
    {
      hide MemoryOk, DiskInv, SpaceInv, LogInv, AcctInv, ViewInv, TraceOk, Ends, PendingSafe, ObjectsAt, RootsIn,
        TableFits, Grows, AttemptsOk, BirthsOk, Hashes, C.Valid, Current, RowsOk, WellFormed, LiveRows, Count, Gc.Reach,
        ImageOk, Recorded, DeadIn;
      SpaceBasics(space, img, |dev.durable|);
      OldBirths(dev.durable, img, sbInB, walTail, hist, attempted);
      var kept, dead := SweepRows(space.index, live, sb.generation + 1);
      SweepSpace(space, img, |dev.durable|, kept, dead);
      KeptGood(dev.current, ChunkOff(sb.walLen), space.index, live, sb.generation, table);
      assert space.pending + dead == dead;
      space := space.(index := kept, pending := space.pending + dead);
    }

    /** Collect garbage. Afterwards the index holds exactly the live objects, each where it was, and every byte of
        a dead object is available again. */
    method Collect() returns (ok: bool, ghost before: seq<IndexRow>)
      requires Valid()
      modifies this`space, this`log, this`table, this`overlays, this`acct, this`walRecords, this`done, this`sb,
        this`sbInB, this`walTail, this`img, this`attempted, dev
      ensures Safe() && Onward(old(dev.trace), old(log), dev.trace, log)
      ensures ok ==> Valid() && overlays == map[] && acct == map[] && walRecords == []
      ensures ok ==> SameNames(table.refs, old(table.refs)) && sb.walLen == old(sb.walLen)
      ensures ok ==> table.snaps == old(table.snaps) && attempted <= old(attempted)
      ensures ok ==> Hashes(space.index) == LiveSet(RootsOf(table), Of(EncodeTable(table)))
      ensures ok ==> old(space.index) <= before && RowsOk(before) && AllFreed(before, Hashes(space.index))
      ensures ok ==> space.index == LiveRows(before, LiveSet(RootsOf(table), Of(EncodeTable(table))))
      ensures ok ==> forall row :: row in old(space.index) && row.hash in Hashes(space.index) ==> row in space.index
      ensures !ok ==> Stuck() && DiskOk()
    {
      hide Inv, TraceOk, Ends, Popped, Hashes, EncodeTable, LiveRows, LiveSet, Gc.Reach, RootIn, Onward, Halted,
        FlushStuck, CommitStuck, DiskOk, SpaceOk, LogInv, AcctInv, SpaceInv, Count, RowsOk, DeadIn, AllFreed;
      before := [];
      ok := SyncAll();
      if !ok {
        HaltedParts();
        return;
      }
      before := space.index;
      RootsHere();
      var live;
      ok, live := MarkAll(Hashes(space.index), RootsOf(table), table, sb.refTable);
      RootsLive(table, sb.refTable);
      LiveHere(RootsOf(table), sb.refTable, Hashes(space.index));
      KeptHashes(space.index, live);
      assert Hashes(space.index) * live == live;
      LiveTable(RootsOf(table), sb.refTable);
      Condemn(live);
      ghost var queue, t1, l1, dead := walRecords, dev.trace, log, space.pending;
      ok := Commit();
      OnwardTwice(old(dev.trace), old(log), t1, l1, dev.trace, log);
      if ok {
        StillEmpty(queue, walRecords);
        AfterSweep(old(space.index), before, live, dead);
      }
    }

    /** Every byte of the extent is available, once. */
    ghost predicate Freed(e: Extent)
      reads this`space
    {
      forall p :: Has(e, p) ==> Avail(space.free, space.tail, p) == 1
    }

    ghost predicate AllFreed(rows: seq<IndexRow>, live: set<Hash>)
      requires RowsOk(rows)
      reads this`space
    {
      forall i :: 0 <= i < |rows| && rows[i].hash !in live ==> Freed(FrameOf(rows[i]))
    }

    /** What the sweep and the commit after it leave of the rows there were. */
    lemma {:induction false} AfterSweep(was: seq<IndexRow>, before: seq<IndexRow>, live: set<Hash>, dead: seq<Extent>)
      requires Inv() && was <= before && RowsOk(before) && space.index == LiveRows(before, live)
      requires Hashes(space.index) == live
      requires DeadIn(before, live, dead)
      requires forall p :: Count(dead, p) <= Count(space.free, p)
      ensures forall row :: row in was && row.hash in Hashes(space.index) ==> row in space.index
      ensures AllFreed(before, Hashes(space.index))
    {
      hide Inv, Hashes, LiveRows, Count, RowsOk, Avail;
      forall row | row in was && row.hash in live
        ensures row in space.index
      {
        KeptRows(before, live, row);
      }
      forall i | 0 <= i < |before| && before[i].hash !in live
        ensures Freed(FrameOf(before[i]))
      {
        var k :| 0 <= k < |dead| && dead[k] == FrameOf(before[i]);
        forall p | Has(dead[k], p)
          ensures Avail(space.free, space.tail, p) == 1
        {
          CountMember(dead, k, p);
          FreeOnce(p);
        }
      }
    }

    /** A byte of a free extent is available, once. */
    lemma {:induction false} FreeOnce(p: int)
      requires Inv() && Count(space.free, p) > 0
      ensures Avail(space.free, space.tail, p) == 1
    {
      hide DiskOk, MemoryOk, C.Valid, TraceOk, Ends, Count, Used, RowsOk, Ordered, ObjectsAt, BirthsOk, TableFits,
        RootsIn, Grows, Hashes;
      if p < 0 {
        NoneNegative(space.free, p);
      }
    }

    lemma {:induction false} HaltedParts()
      requires Halted()
      ensures Stuck() && DiskOk()
    {
      hide Stuck, DiskOk, LogInv, AcctInv, SpaceInv;
    }

    lemma {:induction false} RootsHere()
      requires Inv() && img.table == table
      ensures sb.refTable == Of(EncodeTable(table))
      ensures forall i :: 0 <= i < |RootsOf(table)| ==> RootIn(RootsOf(table)[i], Hashes(space.index))
    {
      hide SpaceInv, LogInv, AcctInv, ViewInv, TraceOk, Ends, PendingSafe, ObjectsAt, TableFits, Grows, AttemptsOk,
        BirthsOk, Hashes, C.Valid, Current, RowsOk, WellFormed, RootIn, EncodeTable, SlotsAt, IndexAt, RingInv,
        AllPlain, Covered, Tiled, IndexFits, Recorded;
    }

    /** Record a ref's current tree as a snapshot. The tree is the ref's whole acknowledged history; the row is numbered
        by the ref and stands after its other snapshots. */
    method Snapshot(r: Bytes, a: SnapArgs) returns (ok: bool, row: SnapRow)
      requires Valid() && ArgsForm(a)
      modifies this`space, this`log, this`table, this`overlays, this`acct, this`walRecords, this`done, this`sb,
        this`sbInB, this`walTail, this`img, this`attempted, dev
      ensures Safe() && Onward(old(dev.trace), old(log), dev.trace, log)
      ensures ok ==> Valid() && attempted <= old(attempted) && SameNames(table.refs, old(table.refs))
      ensures ok ==> table.snaps == old(table.snaps) + [row] && img.table == table && SnapshotOf(row, r, a, hist)
      ensures ok ==> ComesAfter(row, old(table.snaps)) && Timely(row, old(table.snaps), a.now)
      ensures ok ==> overlays == old(overlays) - {r} && acct == old(acct) - {r} && sb.walLen == old(sb.walLen)
      ensures !ok ==> Halted() || (Valid() && NoSnap(table, r))
    {
      hide Inv, TraceOk, Ends, Popped, Marked, Hashes, EncodeTable, Tree.Files, After, Onward, Halted, FlushStuck,
        CommitStuck, DiskOk, SpaceOk, LogInv, AcctInv, SpaceInv, Count, ComesAfter, Timely, TableFits, NextSnap;
      row := SnapRow(r, 0, Prolly.EmptyRoot(), SnapInfo(0, [], None, [], 0));
      OnwardSelf(dev.trace, log);
      ok := FlushMore(r, old(dev.trace), old(log));
      if !ok {
        return;
      }
      TraceIn();
      var i := FindIndex(table.refs, r);
      if i.None? || table.refs[i.value].meta.nextSnap + 1 >= U64 || |table.snaps| + 1 >= U32 {
        return false, row;
      }
      row := NextSnap(table.refs[i.value], table.snaps, a);
      FlushedTree(i.value);
      SnapReady(i.value, a);
      NextIs(table.refs[i.value], table.snaps, a, hist);
      ok := KeepSnap(i.value, a, old(dev.trace), old(log));
    }

    lemma {:induction false} SnapReady(i: nat, a: SnapArgs)
      requires Inv() && i < |table.refs| && ArgsForm(a)
      ensures ComesAfter(NextSnap(table.refs[i], table.snaps, a), table.snaps)
      ensures Timely(NextSnap(table.refs[i], table.snaps, a), table.snaps, a.now)
    {
      hide Inv, TableFits, ComesAfter, NextSnap, Timely;
      SpaceHas();
      OneRow(i);
      NextFollows(table, i, a);
    }

    lemma {:induction false} SpaceHas()
      requires Inv()
      ensures TableFits(table) && RootsIn(table, Hashes(space.index)) && Grows(table, img.table)
    {
      hide DiskOk, MemoryOk, TraceOk, Ends, SpaceInv, ObjectsAt, BirthsOk, TableFits, RootsIn, Hashes, Grows, C.Valid;
    }

    method KeepSnap(i: nat, a: SnapArgs, ghost trace: seq<DevState>, ghost promises: seq<Promise>) returns (ok: bool)
      requires i < |table.refs| && ArgsForm(a) && table.refs[i].meta.nextSnap + 1 < U64 && |table.snaps| + 1 < U32
      requires Onward(trace, promises, dev.trace, log)
      requires Valid()
      modifies this`space, this`log, this`table, this`sb, this`sbInB, this`walTail, this`walRecords, this`img,
        this`attempted, dev
      ensures Safe() && Onward(trace, promises, dev.trace, log)
      ensures table == WithSnap(old(table), i, a)
      ensures ok ==> Valid() && attempted <= old(attempted) && img.table == table && sb.walLen == old(sb.walLen)
      ensures !ok ==> Halted()
    {
      hide Inv, TraceOk, Ends, Popped, Hashes, EncodeTable, Onward, Halted, FlushStuck, CommitStuck, DiskOk, SpaceOk,
        LogInv, AcctInv, SpaceInv, Count, WithSnap;
      AddSnap(i, a);
      ghost var t1, l1 := dev.trace, log;
      ok := Commit();
      OnwardTwice(trace, promises, t1, l1, dev.trace, log);
      if !ok {
        HaltCommit();
      }
    }

    /** A ref without an overlay: its tree is its history. */
    lemma {:induction false} FlushedTree(i: nat)
      requires Inv() && i < |table.refs| && table.refs[i].name !in overlays
      ensures forall p :: Tree.Files(table.refs[i].root, p) == After(None, hist, table.refs[i].name, p)
    {
      hide DiskInv, SpaceInv, LogInv, AcctInv, TraceOk, Ends, PendingSafe, ObjectsAt, TableFits, Grows, AttemptsOk,
        BirthsOk, RootsIn, Hashes, C.Valid, Current, RowsOk, RefOk, Plain, RefKnown, WellFormed, After, Tree.Files,
        PO.Valid;
      forall p
        ensures Tree.Files(table.refs[i].root, p) == After(None, hist, table.refs[i].name, p)
      {
        ViewReads(table.refs[i], overlays, hist, done, p);
        EmptyReads(Tree.TreeAt(table.refs[i].root), p);
      }
    }

    method AddSnap(i: nat, a: SnapArgs)
      requires i < |table.refs| && ArgsForm(a) && table.refs[i].meta.nextSnap + 1 < U64 && |table.snaps| + 1 < U32
      requires Valid()
      modifies this`table
      ensures Inv() && table == WithSnap(old(table), i, a)
    {
      hide DiskOk, DiskInv, SpaceInv, LogInv, AcctInv, TraceOk, Ends, PendingSafe, ObjectsAt, AttemptsOk, BirthsOk,
        Grows, RootsIn, TableFits, ViewInv, Hashes, C.Valid, Current, RowsOk, WellFormed, WithSnap;
      OneRow(i);
      SpaceHas();
      SnapKeeps(table, i, a);
      SnapRoots(table, i, a, Hashes(space.index), img.table);
      WithSame(table, i, a);
      ViewMeta(table, WithSnap(table, i, a), overlays, hist, done);
      table := WithSnap(table, i, a);
    }

    /** The commit: table and index frame, barrier 1, the superblock into the other slot, barrier 2. Every
        device state it passes through is crash safe. It fails only for want of room or of a generation. */
    method Commit() returns (ok: bool)
      requires Inv()
      modifies this`space, this`log, this`sb, this`sbInB, this`walTail, this`walRecords, this`img, this`attempted, dev
      ensures Safe() && Onward(old(dev.trace), old(log), dev.trace, log)
      ensures ok ==> Valid() && img.table == table && attempted <= old(attempted)
      ensures old(space.index) <= space.index && (ok ==> img.index == space.index)
      ensures ok && Of(EncodeTable(table)) in old(Hashes(space.index)) ==> space.index == old(space.index)
      ensures ok ==> Hashes(space.index) == old(Hashes(space.index)) + {Of(EncodeTable(table))}
      ensures ok ==> sb.generation == old(sb.generation) + 1 && sb.walLen == old(sb.walLen)
      ensures ok ==> Popped(old(walRecords), walRecords)
      ensures ok ==> forall p :: Count(old(space.pending), p) <= Count(space.free, p)
      ensures !ok ==> CommitStuck() && DiskOk() && LogInv(walRecords, sb, hist, done)
      ensures old(CommitStuck()) ==> !ok
      ensures !ok ==> SpaceInv(space.(pending := old(space.pending)), img, |dev.durable|)
      ensures !ok ==> space.pending == old(space.pending) || space.pending == old(space.pending) + [space.ext]
      ensures !ok ==> walRecords == old(walRecords) && sb == old(sb) && img == old(img)
    {
      hide Popped, DiskInv, SpaceInv, LogInv, AcctInv, ViewInv, TraceOk, Ends, PendingSafe, ObjectsAt, RootsIn,
        TableFits, Grows, AttemptsOk, CrashSafe, BirthsOk, Hashes, C.Valid, Current, EncodeTable, Superblock.Encode,
        FlipReady, RowsOk, IndexExtent, Barrier1, Overwrite, Flushed, Recorded, Onward, CommitStuck, Count;
      var off, need, merged;
      ghost var c, cur, free';
      ok, off, need, merged, c, cur, free' := PrepareCommit();
      if !ok {
        assert space.(pending := old(space.pending)) == c;
        return;
      }
      ghost var t1, l1 := dev.trace, log;
      var n, head, next := AdvanceHead(walRecords, walSeq);
      var sb' := NextSb(sb, Of(EncodeTable(table)), head, next, space.tail, off);
      ghost var img' := FlipAt(dev.durable, cur, img, sbInB, walTail, hist, attempted, c, need, off, free', space.tail,
                               merged, sb', table, walRecords,
                               overlays, done, n);
      ghost var a' := LostAfter(n, walRecords, walTail, attempted);
      AttemptsLater(table, img.table, attempted, a');
      Deferred(dev.durable, cur, img, c, need, off, free', space.tail, merged, table);
      Flip(sb', img', TailAfter(n, walRecords, walTail), a');
      OnwardTwice(old(dev.trace), old(log), t1, l1, dev.trace, log);
      PoppedAt(walRecords, n);
      Land(n, sb', Extent(off, need), merged, img', a');
    }
  }

  /** The object has a row of its own, and its frame is where first fit puts it. */
  ghost predicate Placed(now: Space, was: Space, obj: seq<Cell>) {
    && |now.index| == |was.index| + 1 && now.index[..|was.index|] == was.index
    && var row := now.index[|was.index|];
       && row.hash == Of(obj) && row.len == |obj| && row.off >= CHUNK_HEADER
       && FirstFit(was.free, was.tail, CHUNK_HEADER + |obj|, row.off - CHUNK_HEADER, now.free, now.tail)
  }

  /** After an object is put there is room for nothing there was no room for, and the lists of the next index frame
      are at most one extent shorter. */
  ghost predicate Tighter(now: Space, was: Space, limit: int) {
    && |was.index| <= |now.index| && now.pending == was.pending && |was.free| <= |now.free| + 1
    && forall n :: HasRoom(now, n, limit) ==> HasRoom(was, n, limit)
  }

  lemma {:induction false} FrameTighter(now: Space, was: Space, limit: int)
    requires Tighter(now, was, limit)
    ensures HasRoom(now.(pending := now.pending + [now.ext]),
                    IndexPayloadLen(|now.index|, |now.free| + |now.pending| + 1 + 1), limit) ==>
            HasRoom(was, IndexPayloadLen(|was.index|, |was.free| + |was.pending| + 1), limit)
  {
    var n, m := IndexPayloadLen(|now.index|, |now.free| + |now.pending| + 1 + 1),
                IndexPayloadLen(|was.index|, |was.free| + |was.pending| + 1);
    assert m <= n;
    if HasRoom(now.(pending := now.pending + [now.ext]), n, limit) {
      assert HasRoom(now, m, limit);
    }
  }

  lemma {:induction false} MarkedFront(queue: seq<RecMeta>, r: Bytes)
    requires queue != []
    ensures Marked(queue, r) != [] && Marked(queue, r)[0].ref == queue[0].ref
  {
  }

  /** What was deferred is in the free list the commit records. */
  lemma {:induction false} Deferred(d: seq<Cell>, cur: seq<Cell>, img: Image, c: Space, need: nat, off: nat,
                                    free: seq<Extent>, tail: nat, merged: seq<Extent>, table: RefTable)
    requires Barrier1(d, cur, img, c, need, off, free, tail, merged, table)
    ensures forall p :: Count(c.pending, p) <= Count(merged, p)
  {
    hide SpaceInv, Handed, Ordered, ObjectsAt, BirthsOk, TableFits, EncodeTable, Hashes, RootsIn, IndexCells, Overwrite,
      Count;
    forall p
      ensures Count(c.pending, p) <= Count(merged, p)
    {
      CountConcat(c.pending, [c.ext], p);
    }
  }

  lemma {:induction false} PoppedEmpty(queue: seq<RecMeta>, left: seq<RecMeta>)
    requires Popped(queue, left) && forall i :: 0 <= i < |queue| ==> queue[i].flushed
    ensures left == []
  {
  }

  lemma {:induction false} StillEmpty(queue: seq<RecMeta>, left: seq<RecMeta>)
    requires Popped(queue, left) && queue == []
    ensures left == []
  {
  }

  /** Every root: ref heads and snapshots. */
  function RootsOf(table: RefTable): seq<Hash> {
    seq(|table.refs|, i requires 0 <= i < |table.refs| => table.refs[i].root)
    + seq(|table.snaps|, i requires 0 <= i < |table.snaps| => table.snaps[i].root)
  }

  lemma {:induction false} RootsLive(table: RefTable, t: Hash)
    ensures forall i :: 0 <= i < |table.refs| ==> Gc.Reach(table.refs[i].root) <= LiveSet(RootsOf(table), t)
    ensures forall i :: 0 <= i < |table.snaps| ==> Gc.Reach(table.snaps[i].root) <= LiveSet(RootsOf(table), t)
  {
    hide Gc.Reach, LiveSet;
    var roots := RootsOf(table);
    forall i | 0 <= i < |table.refs|
      ensures Gc.Reach(table.refs[i].root) <= LiveSet(roots, t)
    {
      InLiveSet(roots, t, i);
    }
    forall i | 0 <= i < |table.snaps|
      ensures Gc.Reach(table.snaps[i].root) <= LiveSet(roots, t)
    {
      InLiveSet(roots, t, |table.refs| + i);
    }
  }

  lemma {:induction false} LiveTable(roots: seq<Hash>, t: Hash)
    ensures t in LiveSet(roots, t)
  {
    hide Gc.Reach;
    if roots != [] {
      LiveTable(roots[..|roots| - 1], t);
    }
  }

  lemma {:induction false} LiveHere(roots: seq<Hash>, t: Hash, hs: set<Hash>)
    requires t in hs && forall i :: 0 <= i < |roots| ==> RootIn(roots[i], hs)
    ensures LiveSet(roots, t) <= hs
  {
    hide Gc.Reach, Gc.Sane;
    if roots != [] {
      assert RootIn(roots[|roots| - 1], hs);
      LiveHere(roots[..|roots| - 1], t, hs);
    }
  }

  lemma {:induction false} OldBirths(d: seq<Cell>, img: Image, inB: bool, tail: nat, hist: seq<WalOp>, a: set<WalOp>)
    requires DiskInv(d, img, inB, tail, hist, a)
    ensures forall i :: 0 <= i < |img.index| ==> img.index[i].birth < img.sb.generation + 1
  {
    hide RingInv, Covered, AllPlain, RootsIn, TableFits, ObjectsAt, SlotsAt, IndexAt, Tiled, IndexFits, Superblock.Fits,
      Hashes;
  }

  lemma {:induction false} KeptGood(d: seq<Cell>, co: nat, rows: seq<IndexRow>, live: set<Hash>, gen: nat,
                                    table: RefTable)
    requires ObjectsAt(d, co, rows) && BirthsOk(rows, gen) && RootsIn(table, Hashes(rows))
    requires forall i :: 0 <= i < |table.refs| ==> Gc.Reach(table.refs[i].root) <= live
    requires forall i :: 0 <= i < |table.snaps| ==> Gc.Reach(table.snaps[i].root) <= live
    ensures ObjectsAt(d, co, LiveRows(rows, live)) && BirthsOk(LiveRows(rows, live), gen) &&
            RootsIn(table, Hashes(LiveRows(rows, live)))
  {
    hide ObjectAt, Gc.Reach, Gc.Sane, Hashes, LiveRows;
    var kept := LiveRows(rows, live);
    KeptHashes(rows, live);
    forall i | 0 <= i < |kept|
      ensures ObjectAt(d, co, kept[i]) && kept[i].birth <= gen + 1
    {
      KeptRows(rows, live, kept[i]);
      var k :| 0 <= k < |rows| && rows[k] == kept[i];
    }
    forall i | 0 <= i < |table.refs|
      ensures RootIn(table.refs[i].root, Hashes(kept))
    {
      assert RootIn(table.refs[i].root, Hashes(rows));
    }
    forall i | 0 <= i < |table.snaps|
      ensures RootIn(table.snaps[i].root, Hashes(kept))
    {
      assert RootIn(table.snaps[i].root, Hashes(rows));
    }
  }

  lemma {:induction false} EmptyUsage(sb: Sb, tail: nat)
    ensures UsageOf([], sb, tail) == 0
  {
  }

  /** The record at the front of the queue is dropped by a commit that follows the flush of its ref. */
  lemma {:induction false} FrontPopped(queue: seq<RecMeta>, r: Bytes, left: seq<RecMeta>)
    requires queue != [] && queue[0].ref == r && Popped(Marked(queue, r), left)
    ensures |left| < |queue|
  {
  }

  lemma {:induction false} ViewSame(t: PO.Tree, t': PO.Tree, o: PO.Overlay, p: Path)
    requires forall q :: t(q) == t'(q)
    ensures PO.View(t, o, p) == PO.View(t', o, p)
  {
  }

  lemma {:induction false} LastKnown(table: RefTable, name: Bytes)
    requires table.refs != [] && table.refs[|table.refs| - 1].name == name
    ensures RefKnown(table, name)
  {
  }

  lemma {:induction false} TableAdded(table: RefTable, row: RefRow, hs: set<Hash>, committed: RefTable)
    requires TableFits(table) && |table.refs| + 1 < U32 && RefForm(row) && RootsIn(table, hs)
    requires Grows(table, committed) && RootIn(row.root, hs)
    ensures var table' := table.(refs := table.refs + [row]);
            TableFits(table') && RootsIn(table', hs) && Grows(table', committed)
  {
    hide RootIn, Numbered, InTime, SnapForm, TagForm;
    RowsKeep(table, table.refs + [row]);
  }

  lemma {:induction false} KnownStill(was: RefTable, table: RefTable, r: Bytes)
    requires SameNames(table.refs, was.refs) && RefKnown(was, r)
    ensures RefKnown(table, r)
  {
    var i :| 0 <= i < |was.refs| && was.refs[i].name == r;
    assert table.refs[i].name == r;
  }

  /** The row of a snapshot: the caller's words, and a tree that is the ref's whole history. */
  ghost predicate SnapshotOf(row: SnapRow, r: Bytes, a: SnapArgs, hist: seq<WalOp>) {
    && row.ref == r && row.info.provenance == a.provenance && row.info.message == a.message
    && row.info.retention == a.retention && forall p :: Tree.Files(row.root, p) == After(None, hist, r, p)
  }

  /** There is no such ref, or its snapshots or the table's are at their ceiling. */
  ghost predicate NoSnap(table: RefTable, r: Bytes) {
    || !RefKnown(table, r) || |table.snaps| + 1 >= U32
    || (exists i :: 0 <= i < |table.refs| && table.refs[i].name == r && table.refs[i].meta.nextSnap + 1 >= U64)
  }

  lemma {:induction false} NextIs(row: RefRow, snaps: seq<SnapRow>, a: SnapArgs, hist: seq<WalOp>)
    requires forall p :: Tree.Files(row.root, p) == After(None, hist, row.name, p)
    ensures SnapshotOf(NextSnap(row, snaps, a), row.name, a, hist)
  {
    hide LastSnap, SnapTime, Tree.Files, After;
  }

  lemma {:induction false} SnapRoots(table: RefTable, i: nat, a: SnapArgs, hs: set<Hash>, committed: RefTable)
    requires i < |table.refs| && RootsIn(table, hs) && Grows(table, committed)
    ensures RootsIn(WithSnap(table, i, a), hs) && Grows(WithSnap(table, i, a), committed)
  {
    hide RootIn, LastSnap, SnapTime;
  }

  lemma {:induction false} WithSame(table: RefTable, i: nat, a: SnapArgs)
    requires i < |table.refs|
    ensures var refs := WithSnap(table, i, a).refs;
            SameNames(refs, table.refs) && forall k :: 0 <= k < |table.refs| ==> refs[k].root == table.refs[k].root
  {
    hide NextSnap;
  }

  /** What refs read does not depend on anything but names and roots. */
  lemma {:induction false} ViewMeta(table: RefTable, table': RefTable, overlays: map<Bytes, PO.Overlay>,
                                    hist: seq<WalOp>, done: map<Bytes, nat>)
    requires ViewInv(table, overlays, hist, done) && SameNames(table'.refs, table.refs)
    requires forall i :: 0 <= i < |table.refs| ==> table'.refs[i].root == table.refs[i].root
    ensures ViewInv(table', overlays, hist, done)
  {
    hide Plain;
    forall i | 0 <= i < |table'.refs|
      ensures RefOk(table'.refs[i], overlays, hist, done)
    {
      assert RefOk(table.refs[i], overlays, hist, done);
    }
    forall r | RefKnown(table, r)
      ensures RefKnown(table', r)
    {
      KnownStill(table, table', r);
    }
  }

  method FindIndex(refs: seq<RefRow>, r: Bytes) returns (i: Option<nat>)
    ensures i.Some? ==> i.value < |refs| && refs[i.value].name == r
    ensures i.None? ==> forall k :: 0 <= k < |refs| ==> refs[k].name != r
  {
    for k := 0 to |refs|
      invariant forall j :: 0 <= j < k ==> refs[j].name != r
    {
      if refs[k].name == r {
        return Some(k);
      }
    }
    return None;
  }

  lemma {:induction false} TableRepointed(table: RefTable, i: nat, root: Hash, hs: set<Hash>, committed: RefTable)
    requires i < |table.refs| && TableFits(table) && RootsIn(table, hs) && Grows(table, committed)
    requires RootIn(root, hs)
    ensures TableFits(Repointed(table, i, root)) && RootsIn(Repointed(table, i, root), hs)
    ensures Grows(Repointed(table, i, root), committed)
  {
    hide RootIn, Numbered, InTime, SnapForm, TagForm;
    assert RefForm(table.refs[i]);
    RowsKeep(table, Repointed(table, i, root).refs);
  }

  /** What the append needs, from the invariant. */
  lemma {:induction false} CanAppendNow(s: DevState, img: Image, inB: bool, tail: nat, hist: seq<WalOp>, a: set<WalOp>,
                                        op: WalOp, recs: seq<RecMeta>, done: map<Bytes, nat>, table: RefTable)
    requires WellFormed(s) && RowsOk(img.index) && DiskInv(s.durable, img, inB, tail, hist, a) && PendingSafe(s, img)
    requires AttemptsOk(a, img.table) && LogInv(recs, img.sb, hist, done) && Plain(op) && Loggable(op) &&
             |hist| + 2 < U64
    requires Grows(table, img.table) && |table.refs| == |img.table.refs| && RefKnown(table, op.ref)
    requires UsageOf(recs, img.sb, tail) + RecLen(op) <= img.sb.walLen
    ensures Appendable(s, img, inB, tail, hist, a, op) && RefKnown(img.table, op.ref)
    ensures |EncodeRecord(op, |hist| + 1)| == RecLen(op) && tail <= img.sb.walLen &&
            ChunkOff(img.sb.walLen) <= |s.durable|
    ensures 1 <= img.sb.walNextSeq <= |hist| + 1
    ensures tail == Wrap(img.sb.walHead + LogLen(hist[img.sb.walNextSeq - 1..]), img.sb.walLen)
  {
    hide DiskInv, PendingSafe, RowsOk, RingInv, ImageOk, Covered, Plain, Loggable, LogLen, ObjectsAt, RootsIn,
      TableFits, AllPlain, EncodePayload;
    DiskParts(s.durable, img, inB, tail, hist, a);
    RingHead(WalRegion(s.durable, img.sb.walLen), img.sb.walHead, img.sb.walNextSeq, tail, hist, a);
    UsageLog(WalRegion(s.durable, img.sb.walLen), img.sb, tail, hist, a, recs, done);
    KnownEarlier(table, img.table, op.ref);
    RecordLength(op, |hist| + 1);
    LogNone();
  }

  lemma {:induction false} RecordLength(op: WalOp, seqno: nat)
    ensures |EncodeRecord(op, seqno)| == RecLen(op) > 0
  {
  }

  lemma {:induction false} KnownEarlier(table: RefTable, committed: RefTable, r: Bytes)
    requires Grows(table, committed) && |table.refs| == |committed.refs| && RefKnown(table, r)
    ensures RefKnown(committed, r)
  {
    var i :| 0 <= i < |table.refs| && table.refs[i].name == r;
    assert committed.refs[i].name == r;
  }

  /** The log from operation `f` on leaves no room for a record of `incoming` bytes, or reaches the watermark. */
  ghost predicate Crowded(hist: seq<WalOp>, f: nat, walLen: nat, incoming: nat, watermark: nat) {
    f < |hist| && (LogLen(hist[f..]) + incoming > walLen || LogLen(hist[f..]) >= watermark)
  }

  /** An operation of ref `r` is the oldest of a log that is crowded. */
  ghost predicate Pinned(hist: seq<WalOp>, r: Bytes, walLen: nat, incoming: nat, watermark: nat) {
    exists f: nat :: Crowded(hist, f, walLen, incoming, watermark) && hist[f].ref == r
  }

  /** Bytes of the ring in use, as the engine computes them. */
  function UsageOf(recs: seq<RecMeta>, sb: Sb, tail: nat): nat {
    if sb.walHead <= sb.walLen && tail <= sb.walLen then Usage(recs == [], sb.walHead, tail, sb.walLen) else 0
  }

  lemma {:induction false} UsageLog(w: seq<Cell>, sb: Sb, tail: nat, hist: seq<WalOp>, a: set<WalOp>,
                                    recs: seq<RecMeta>, done: map<Bytes, nat>)
    requires |w| == sb.walLen && RingInv(w, sb.walHead, sb.walNextSeq, tail, hist, a) && LogInv(recs, sb, hist, done)
    ensures UsageOf(recs, sb, tail) == LogLen(hist[sb.walNextSeq - 1..])
  {
    hide RingView, Rot, LogLen;
    var ops := hist[sb.walNextSeq - 1..];
    UsageIsLogLen(sb.walHead, tail, ops, sb.walLen);
  }

  lemma {:induction false} UsageNow(d: seq<Cell>, img: Image, inB: bool, tail: nat, hist: seq<WalOp>, a: set<WalOp>,
                                    recs: seq<RecMeta>, done: map<Bytes, nat>)
    requires DiskInv(d, img, inB, tail, hist, a) && LogInv(recs, img.sb, hist, done)
    ensures UsageOf(recs, img.sb, tail) == LogLen(hist[img.sb.walNextSeq - 1..])
  {
    hide DiskInv, RingInv, ImageOk, Covered, UsageOf, LogLen, LogInv;
    DiskParts(d, img, inB, tail, hist, a);
    UsageLog(WalRegion(d, img.sb.walLen), img.sb, tail, hist, a, recs, done);
  }

  lemma {:induction false} FrontPins(recs: seq<RecMeta>, sb: Sb, hist: seq<WalOp>, done: map<Bytes, nat>, usage: nat,
                                     incoming: nat, watermark: nat)
    requires LogInv(recs, sb, hist, done) && recs != [] && usage == LogLen(hist[sb.walNextSeq - 1..])
    requires usage + incoming > sb.walLen || usage >= watermark
    ensures Pinned(hist, recs[0].ref, sb.walLen, incoming, watermark)
  {
    hide LogLen, Wrap;
    assert RecOk(recs[0], 0, sb, hist, done);
    assert Crowded(hist, sb.walNextSeq - 1, sb.walLen, incoming, watermark);
  }

  lemma {:induction false} PoppedAt(recs: seq<RecMeta>, n: nat)
    requires n <= |recs| && (forall i :: 0 <= i < n ==> recs[i].flushed) && (n < |recs| ==> !recs[n].flushed)
    ensures Popped(recs, recs[n..])
  {
  }

  /** The disk at barrier 1: `d` is `cur` with the index frame of the next commit written into it. */
  ghost predicate Barrier1(d: seq<Cell>, cur: seq<Cell>, img: Image, c: Space, need: nat, off: nat, free: seq<Extent>,
                           tail: nat, merged: seq<Extent>, table: RefTable) {
    && |cur| == |d| && Prepared(c, img, |d|, need, off, free, tail, merged)
    && ObjectsAt(cur, ChunkOff(img.sb.walLen), c.index) && BirthsOk(c.index, img.sb.generation)
    && TableFits(table) && Of(EncodeTable(table)) in Hashes(c.index) && RootsIn(table, Hashes(c.index))
    && ChunkOff(img.sb.walLen) + off + need <= |d|
    && var f := IndexCells(c.index, merged, need, img.sb.generation + 1);
       |f| == need && d == Overwrite(cur, ChunkOff(img.sb.walLen) + off, f)
  }

  /** An index frame padded to fill `need` cells. */
  function IndexCells(index: seq<IndexRow>, free: seq<Extent>, need: nat, birth: nat): seq<Cell>
    requires need >= CHUNK_HEADER + IndexPayloadLen(|index|, |free|)
  {
    Frame(EncodeIndex(index, free, need - CHUNK_HEADER - IndexPayloadLen(|index|, |free|)), birth)
  }

  lemma {:induction false} AtBarrier1(d: seq<Cell>, cur: seq<Cell>, img: Image, c: Space, need: nat, off: nat,
                                      free: seq<Extent>, tail: nat, merged: seq<Extent>, table: RefTable, f: seq<Cell>)
    requires |cur| == |d| && Prepared(c, img, |d|, need, off, free, tail, merged)
    requires ObjectsAt(cur, ChunkOff(img.sb.walLen), c.index) && BirthsOk(c.index, img.sb.generation)
    requires TableFits(table) && Of(EncodeTable(table)) in Hashes(c.index) && RootsIn(table, Hashes(c.index))
    requires ChunkOff(img.sb.walLen) + off + need <= |d| && need >= CHUNK_HEADER + IndexPayloadLen(|c.index|, |merged|)
    requires f == IndexCells(c.index, merged, need, img.sb.generation + 1) && |f| == need
    requires d == Overwrite(cur, ChunkOff(img.sb.walLen) + off, f)
    ensures Barrier1(d, cur, img, c, need, off, free, tail, merged, table)
  {
    hide Prepared, ObjectsAt, BirthsOk, TableFits, EncodeTable, Hashes, RootsIn, IndexCells, Overwrite;
  }

  /** From barrier 1 to the flip. */
  lemma {:induction false} FlipAt(d: seq<Cell>, cur: seq<Cell>, img: Image, inB: bool, tail: nat, hist: seq<WalOp>,
                                  a: set<WalOp>, c: Space, need: nat, off: nat, free: seq<Extent>, tail': nat,
                                  merged: seq<Extent>, sb: Sb, table: RefTable, recs: seq<RecMeta>,
                                  overlays: map<Bytes, PO.Overlay>, done: map<Bytes, nat>, n: nat) returns (next: Image)
    requires Barrier1(d, cur, img, c, need, off, free, tail', merged, table) && DiskInv(d, img, inB, tail, hist, a)
    requires sb == NextSb(img.sb, Of(EncodeTable(table)), sb.walHead, sb.walNextSeq, tail', off) &&
             img.sb.generation + 2 < U64
    requires LogInv(recs, img.sb, hist, done) && ViewInv(table, overlays, hist, done)
    requires n <= |recs| && forall i :: 0 <= i < n ==> recs[i].flushed
    requires n < |recs| ==> sb.walHead == recs[n].off && sb.walNextSeq == recs[n].seqno
    requires n == |recs| ==> sb.walHead == 0 && sb.walNextSeq == |hist| + 1
    ensures FlipReady(d, img, next, TailAfter(n, recs, tail), hist, LostAfter(n, recs, tail, a))
    ensures next.sb == sb && next.index == c.index && next.free == merged && next.table == table
    ensures IndexExtent(next) == Extent(off, need) && LogInv(recs[n..], sb, hist, done)
  {
    hide DiskInv, LogInv, AcctInv, ViewInv, ObjectsAt, RootsIn, TableFits, Hashes, EncodeTable, Frame, EncodeIndex,
      Overwrite, FlipReady, SpaceInv, Handed, Ordered;
    BirthsNext(c.index, img.sb.generation);
    next := NextImage(c, sb, off, need, merged, sb.generation, table);
    ReadyStep(cur, d, img, inB, tail, hist, a, c, need, off, free, tail', merged, sb, table, recs, overlays, done, n);
  }

  lemma {:induction false} BirthsNext(rows: seq<IndexRow>, gen: nat)
    requires BirthsOk(rows, gen)
    ensures forall i :: 0 <= i < |rows| ==> rows[i].birth <= gen + 1
  {
  }

  /** The new commit, as the invariant wants it. */
  lemma {:induction false} Committed(d: seq<Cell>, img: Image, inB: bool, tail: nat, hist: seq<WalOp>, a: set<WalOp>,
                                     was: RefTable, before: set<WalOp>)
    requires DiskInv(d, img, inB, tail, hist, a) && Grows(img.table, was) && AttemptsOk(before, was) &&
             a <= before
    ensures RowsOk(img.index) && PendingSafe(DevState(d, []), img) && AttemptsOk(a, img.table)
    ensures SpaceInv(Space(img.index, img.free, [], IndexExtent(img), img.sb.chunkTail), img, |d|)
    ensures Current(DevState(d, [])) == d && ObjectsAt(d, ChunkOff(img.sb.walLen), img.index)
    ensures BirthsOk(img.index, img.sb.generation) && TableFits(img.table) && RootsIn(img.table, Hashes(img.index))
    ensures Grows(img.table, img.table)
  {
    hide DiskInv, SpaceInv, PendingSafe, ObjectsAt, RootsIn, TableFits, BirthsOk, Hashes, Current, IndexExtent, ImageOk,
      Plain, RefKnown, RowsOk, Covered, AllPlain, RingInv, Superblock.Fits;
    DiskParts(d, img, inB, tail, hist, a);
    NextSpace(img, |d|);
    QuietPending(d, img);
    QuietCurrent(d);
    forall x | x in a
      ensures RefKnown(img.table, x.ref)
    {
      KnownLater(img.table, was, x.ref);
    }
  }

  lemma {:induction false} MergeReady(c: Space, img: Image, devLen: nat, e: Extent, free: seq<Extent>, tail: nat)
    requires SpaceInv(c, img, devLen) && Handed(c, e, free, tail) && Ordered(free)
    ensures forall i :: 0 <= i < |free| ==> free[i].len > 0
    ensures forall i :: 0 <= i < |c.pending + [c.ext]| ==> (c.pending + [c.ext])[i].len > 0
    ensures forall p :: Count(free, p) + Count(c.pending + [c.ext], p) <= 1
  {
    hide Count, Handed;
    forall p
      ensures Count(free, p) + Count(c.pending + [c.ext], p) <= 1
    {
      MergeDisjoint(c, img, devLen, e, free, tail, p);
    }
  }

  lemma {:induction false} IsPrepared(c: Space, img: Image, devLen: nat, need: nat, off: nat, free: seq<Extent>,
                                      tail: nat, merged: seq<Extent>)
    requires SpaceInv(c, img, devLen) && Handed(c, Extent(off, need), free, tail) &&
             ChunkOff(img.sb.walLen) + tail <= devLen
    requires forall p :: Count(merged, p) == Count(free, p) + Count(c.pending + [c.ext], p)
    requires Ordered(merged) && |merged| <= |free| + |c.pending| + 1 && |free| <= |c.free|
    requires need == CHUNK_HEADER + IndexPayloadLen(|c.index|, |c.free| + |c.pending| + 2) < CHUNK_HEADER + U32
    ensures Prepared(c, img, devLen, need, off, free, tail, merged)
    ensures ChunkOff(img.sb.walLen) + off + need <= devLen
  {
    hide Count, Handed, SpaceInv, Ordered;
    PadFits(|c.index|, |c.free| + |c.pending| + 2, |merged|);
    FrameBounds(c, img, devLen, need, off, free, tail, merged);
  }

  /** The write of one object keeps everything the invariant says. */
  lemma {:induction false} PutStep(s: DevState, img: Image, inB: bool, tail: nat, hist: seq<WalOp>, a: set<WalOp>,
                                   c: Space, table: RefTable, obj: seq<Cell>, r: IndexRow, free: seq<Extent>,
                                   tail': nat)
    requires RowsOk(img.index) && DiskInv(s.durable, img, inB, tail, hist, a) && PendingSafe(s, img)
    requires AttemptsOk(a, img.table) && SpaceInv(c, img, |s.durable|) && WellFormed(s)
    requires ObjectsAt(Current(s), ChunkOff(img.sb.walLen), c.index) && BirthsOk(c.index, img.sb.generation)
    requires RootsIn(table, Hashes(c.index))
    requires r.hash == Of(obj) && RowOk(r) && r.len == |obj| && r.birth == img.sb.generation + 1
    requires Handed(c, FrameOf(r), free, tail') && Ordered(free) && ChunkOff(img.sb.walLen) + tail' <= |s.durable|
    ensures var o := ChunkOff(img.sb.walLen) + r.off - CHUNK_HEADER;
            var frame := Frame(obj, r.birth);
            && o + |frame| <= |s.durable|
            && var s' := Written(s, o, frame);
               var c' := c.(index := c.index + [r], free := free, tail := tail');
               && PendingSafe(s', img) && CrashSafe(s', Promise(hist, a, img, None)) && SpaceInv(c', img, |s.durable|)
               && ObjectsAt(Current(s'), ChunkOff(img.sb.walLen), c'.index) && BirthsOk(c'.index, img.sb.generation)
               && Hashes(c'.index) == Hashes(c.index) + {r.hash} && RootsIn(table, Hashes(c'.index))
  {
    hide DiskInv, SpaceInv, PendingSafe, ObjectsAt, RootsIn, CrashSafe, Frame, Handed, BirthsOk, Count, Avail, Ordered,
      Hashes, Current, ObjectAt, Overwrite, ChunkSafe;
    var co, frame := ChunkOff(img.sb.walLen), Frame(obj, r.birth);
    var o := co + r.off - CHUNK_HEADER;
    ClearWrite(c, img, |s.durable|, FrameOf(r), free, tail', frame);
    PutSpace(c, img, |s.durable|, r, free, tail');
    ObjectsKept(c, img, Current(s), FrameOf(r), free, tail', frame);
    ObjectWritten(Current(s), co, r.off - CHUNK_HEADER, obj, r.birth);
    CurrentWritten(s, o, frame);
    PendingMore(s, img, PWrite(o, frame));
    SafeChunks(Written(s, o, frame), img, inB, tail, hist, a);
    RowAdded(Current(Written(s, o, frame)), co, c.index, r, img.sb.generation);
    HashesPush(c.index, r);
    RootsGrow(table, Hashes(c.index), Hashes(c.index) + {r.hash});
  }

  lemma {:induction false} DiskParts(d: seq<Cell>, img: Image, inB: bool, tail: nat, hist: seq<WalOp>, a: set<WalOp>)
    requires DiskInv(d, img, inB, tail, hist, a)
    ensures ImageOk(img, |d|) && RowsOk(img.index) && ChunkOff(img.sb.walLen) <= |d|
    ensures ObjectsAt(d, ChunkOff(img.sb.walLen), img.index) && BirthsOk(img.index, img.sb.generation)
    ensures TableFits(img.table) && RootsIn(img.table, Hashes(img.index))
    ensures Superblock.Fits(img.sb) && img.sb.generation + 1 < U64
    ensures Covered(img.table, img.sb.walNextSeq - 1, hist) && AllPlain(hist)
    ensures 1 <= img.sb.walNextSeq <= |hist| + 1
    ensures RingInv(WalRegion(d, img.sb.walLen), img.sb.walHead, img.sb.walNextSeq, tail, hist, a)
  {
    hide RingView, TailAt, Rot, LogLen, Covered, AllPlain, RootsIn, TableFits, ObjectsAt, SlotsAt, IndexAt, Tiled,
      IndexFits, Superblock.Fits, Hashes;
  }

  lemma {:induction false} FoundIn(rows: seq<IndexRow>, h: Hash)
    requires FindRow(rows, h).Some?
    ensures h in Hashes(rows) && Hashes(rows) == Hashes(rows) + {h}
  {
    hide FindRow;
    var r := FindRow(rows, h).value;
    var i :| 0 <= i < |rows| && rows[i] == r;
  }

  lemma {:induction false} NotFound(rows: seq<IndexRow>, h: Hash)
    requires FindRow(rows, h).None?
    ensures h !in Hashes(rows)
  {
    hide FindRow;
  }

  lemma {:induction false} SpaceBasics(c: Space, img: Image, devLen: nat)
    requires SpaceInv(c, img, devLen)
    ensures Ordered(c.free) && RowsOk(c.index) && ChunkOff(img.sb.walLen) + c.tail <= devLen <= U64
  {
    hide Count, Ordered;
  }

  lemma {:induction false} IsHanded(c: Space, e: Extent, free: seq<Extent>, tail: nat)
    requires c.tail <= tail && forall p :: Avail(c.free, c.tail, p) == Avail(free, tail, p) + Once(e, p)
    ensures Handed(c, e, free, tail)
  {
    hide Avail;
  }

  lemma {:induction false} RowAdded(d: seq<Cell>, co: nat, rows: seq<IndexRow>, r: IndexRow, gen: nat)
    requires ObjectsAt(d, co, rows) && ObjectAt(d, co, r) && BirthsOk(rows, gen) && r.birth <= gen + 1
    ensures ObjectsAt(d, co, rows + [r]) && BirthsOk(rows + [r], gen)
  {
    hide ObjectAt;
  }
}
