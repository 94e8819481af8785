/** The commit, step by step on values: what barrier 1 makes durable, and what the flip then lands on. */
module CommitStep {
  import opened Cells
  import opened WalCodec
  import opened WalLog
  import opened Ring
  import opened Device
  import Superblock
  import opened Extents
  import opened ChunkIndex
  import opened RefTables
  import opened History
  import opened Durable
  import opened CrashSafety
  import opened ChunkSpace
  import opened Volatile
  import opened Accounts
  import PO = PathOverlay

  /** What a commit has in hand when it writes its index frame. */
  ghost predicate Prepared(c: Space, img: Image, devLen: nat, need: nat, off: nat, free: seq<Extent>, tail: nat,
                           merged: seq<Extent>) {
    && SpaceInv(c, img, devLen) && Handed(c, Extent(off, need), free, tail)
    && ChunkOff(img.sb.walLen) + tail <= devLen
    && (forall p :: Count(merged, p) == Count(free, p) + Count(c.pending + [c.ext], p)) && Ordered(merged)
    && CHUNK_HEADER + IndexPayloadLen(|c.index|, |merged|) <= need < CHUNK_HEADER + U32
  }

  /** The superblock of the next commit. */
  function NextSb(sb: Sb, refTable: Hash, head: nat, next: nat, tail: nat, off: nat): Sb {
    Superblock.Superblock(sb.generation + 1, refTable, head, next, sb.walLen, tail, off)
  }

  lemma {:induction false} FrameBounds(c: Space, img: Image, devLen: nat, need: nat, off: nat, free: seq<Extent>,
                                       tail: nat, merged: seq<Extent>)
    requires Prepared(c, img, devLen, need, off, free, tail, merged)
    ensures off + need <= tail < U64 && |c.index| < U32 && |merged| < U32
    ensures forall p :: p >= tail ==> Count(merged, p) == 0
    ensures forall p :: p >= 0 ==> Count(Frames(c.index), p) + Once(Extent(off, need), p) + Avail(merged, tail, p) == 1
  {
    hide Count, Used, Ordered, Taken;
    var e := Extent(off, need);
    HandedClear(c, img, devLen, e, free, tail, off + need - 1);
    forall p | p >= 0
      ensures Count(Frames(c.index), p) + Once(e, p) + Avail(merged, tail, p) == 1
    {
      NextTiled(c, img, devLen, e, free, tail, merged, p);
    }
    forall p | p >= tail
      ensures Count(merged, p) == 0
    {
      assert Count(Frames(c.index), p) + Once(e, p) + Avail(merged, tail, p) == 1;
    }
  }

  /** The next commit is in order. */
  lemma {:induction false} NextOk(c: Space, img: Image, d: seq<Cell>, need: nat, off: nat, free: seq<Extent>, tail: nat,
                                  merged: seq<Extent>, sb: Sb, table: RefTable)
    requires Prepared(c, img, |d|, need, off, free, tail, merged)
    requires sb == NextSb(img.sb, Of(EncodeTable(table)), sb.walHead, sb.walNextSeq, tail, off)
    requires Superblock.Fits(img.sb) && sb.walHead < U64 && sb.walNextSeq < U64 && img.sb.generation + 2 < U64
    requires ObjectsAt(d, ChunkOff(img.sb.walLen), c.index)
    requires forall i :: 0 <= i < |c.index| ==> c.index[i].birth <= sb.generation
    requires TableFits(table) && sb.refTable in Hashes(c.index) && RootsIn(table, Hashes(c.index))
    ensures ImageOk(NextImage(c, sb, off, need, merged, sb.generation, table), |d|)
    ensures IndexExtent(NextImage(c, sb, off, need, merged, sb.generation, table)) == Extent(off, need)
  {
    hide Count, Used, Ordered, Taken, TableFits, RootsIn, Hashes, EncodeTable, ObjectsAt, IndexFits;
    FrameBounds(c, img, |d|, need, off, free, tail, merged);
    NextIndexFits(c, merged, tail, ChunkOff(img.sb.walLen), d, sb.generation);
  }

  /** Writing the index frame puts it on the disk and leaves every object where it is. */
  lemma {:induction false} FrameWritten(c: Space, img: Image, d: seq<Cell>, need: nat, off: nat, free: seq<Extent>,
                                        tail: nat, merged: seq<Extent>, next: Image)
    requires Prepared(c, img, |d|, need, off, free, tail, merged)
    requires ObjectsAt(d, ChunkOff(img.sb.walLen), c.index)
    requires next.sb.walLen == img.sb.walLen && next.sb.indexOff == off && IndexExtent(next).len == need
    requires next.index == c.index
    ensures var co := ChunkOff(img.sb.walLen);
            && co + off + need <= |d|
            && var d' := Overwrite(d, co + off, IndexFrame(next));
               IndexAt(d', next) && ObjectsAt(d', co, c.index)
  {
    hide Count, Used, Ordered, Taken, ObjectsAt, IndexFrame, Overwrite;
    FrameBounds(c, img, |d|, need, off, free, tail, merged);
    var co := ChunkOff(img.sb.walLen);
    ObjectsKept(c, img, d, Extent(off, need), free, tail, IndexFrame(next));
    OverwriteSlice(d, co + off, IndexFrame(next), need);
  }

  /** The log head moves past the flushed prefix; an emptied log starts over. */
  function TailAfter(n: nat, recs: seq<RecMeta>, tail: nat): nat {
    if n == |recs| then 0 else tail
  }

  function LostAfter(n: nat, recs: seq<RecMeta>, tail: nat, a: set<WalOp>): set<WalOp> {
    if n == |recs| && tail != 0 then {} else a
  }

  lemma {:induction false} RingNext(w: seq<Cell>, sb: Sb, tail: nat, hist: seq<WalOp>, a: set<WalOp>,
                                    recs: seq<RecMeta>, done: map<Bytes, nat>, n: nat, head: nat, next: nat)
    requires |w| == sb.walLen && RingInv(w, sb.walHead, sb.walNextSeq, tail, hist, a) && LogInv(recs, sb, hist, done)
    requires n <= |recs| && (n < |recs| ==> head == recs[n].off && next == recs[n].seqno)
    requires n == |recs| ==> head == 0 && next == |hist| + 1
    ensures RingInv(w, head, next, TailAfter(n, recs, tail), hist, LostAfter(n, recs, tail, a))
    ensures head <= |w| && 1 <= next <= |hist| + 1 && |hist| + 1 < U64
  {
    hide LogLen, RingView, TailAt, Rot;
    RingSize(w, sb.walHead, sb.walNextSeq, tail, hist, a);
    if n < |recs| {
      assert RecOk(recs[n], n, sb, hist, done);
      RingAdvance(w, sb.walHead, sb.walNextSeq, tail, hist, a, n);
      RingHead(w, head, next, tail, hist, a);
    } else {
      RingReset(w, sb.walHead, sb.walNextSeq, tail, hist, a);
    }
  }

  lemma {:induction false} RingSize(w: seq<Cell>, head: nat, next: nat, tail: nat, hist: seq<WalOp>, a: set<WalOp>)
    requires RingInv(w, head, next, tail, hist, a)
    ensures |hist| + 1 < U64
  {
    hide LogLen, TailAt, Rot, Live, Spent, Lost;
  }

  lemma {:induction false} RingHead(w: seq<Cell>, head: nat, next: nat, tail: nat, hist: seq<WalOp>, a: set<WalOp>)
    requires RingInv(w, head, next, tail, hist, a)
    ensures head <= |w| && (hist[next - 1..] != [] ==> head < |w|) && LogLen(hist[next - 1..]) <= |w|
    ensures tail == if hist[next - 1..] == [] then 0 else Wrap(head + LogLen(hist[next - 1..]), |w|)
    ensures hist[next - 1..] == [] ==> head == 0
  {
    hide RingView, Rot;
    var ops := hist[next - 1..];
    if ops != [] {
      LogLenPositive(ops);
    }
  }

  /** The queue after the commit. */
  lemma {:induction false} LogNext(w: seq<Cell>, recs: seq<RecMeta>, sb: Sb, tail: nat, hist: seq<WalOp>, a: set<WalOp>,
                                   done: map<Bytes, nat>, n: nat, sb': Sb)
    requires |w| == sb.walLen && RingInv(w, sb.walHead, sb.walNextSeq, tail, hist, a) && LogInv(recs, sb, hist, done)
    requires n <= |recs| && forall i :: 0 <= i < n ==> recs[i].flushed
    requires sb'.walLen == sb.walLen
    requires n < |recs| ==> sb'.walHead == recs[n].off && sb'.walNextSeq == recs[n].seqno
    requires n == |recs| ==> sb'.walNextSeq == |hist| + 1
    ensures LogInv(recs[n..], sb', hist, done)
  {
    hide LogLen, RingInv;
    RingHead(w, sb.walHead, sb.walNextSeq, tail, hist, a);
    if n < |recs| {
      LogMoved(recs, sb, hist, done, n, sb');
    } else {
      LogReset(recs, sb, hist, done, sb');
      assert recs[n..] == [];
    }
  }

  lemma {:induction false} LogCovers(recs: seq<RecMeta>, sb: Sb, hist: seq<WalOp>, done: map<Bytes, nat>)
    requires LogInv(recs, sb, hist, done)
    ensures forall j :: 0 <= j < sb.walNextSeq - 1 ==> j < DoneOf(done, hist[j].ref)
  {
  }

  /** Barrier 1: while the index frame is written, and once it is flushed, the old commit stands. */
  lemma {:induction false} FrameStep(s: DevState, img: Image, inB: bool, tail: nat, hist: seq<WalOp>, a: set<WalOp>,
                                     c: Space, need: nat, off: nat, free: seq<Extent>, tail': nat, merged: seq<Extent>,
                                     frame: seq<Cell>)
    requires WellFormed(s) && RowsOk(img.index) && DiskInv(s.durable, img, inB, tail, hist, a) && PendingSafe(s, img)
    requires Prepared(c, img, |s.durable|, need, off, free, tail', merged) && |frame| == need &&
             AttemptsOk(a, img.table)
    ensures var o := ChunkOff(img.sb.walLen) + off;
            && o + need <= |s.durable|
            && var s1 := Written(s, o, frame); var s2 := Flushed(s1);
               && CrashSafe(s1, Promise(hist, a, img, None)) && CrashSafe(s2, Promise(hist, a, img, None))
               && DiskInv(s2.durable, img, inB, tail, hist, a) && s2.durable == Overwrite(Current(s), o, frame)
  {
    hide DiskInv, SpaceInv, PendingSafe, CrashSafe, Handed, Count, Avail, Ordered, Current, Overwrite, ChunkSafe,
      Crashed, AttemptsOk;
    var o := ChunkOff(img.sb.walLen) + off;
    ClearWrite(c, img, |s.durable|, Extent(off, need), free, tail', frame);
    PendingMore(s, img, PWrite(o, frame));
    var s1 := Written(s, o, frame);
    SafeChunks(s1, img, inB, tail, hist, a);
    CurrentWritten(s, o, frame);
    CurrentIsCrash(s1);
    QuietPending(Current(s1), img);
    SafeChunks(Flushed(s1), img, inB, tail, hist, a);
  }

  lemma {:induction false} CurrentIsCrash(s: DevState)
    requires WellFormed(s)
    ensures Current(s) == Crashed(s, AllKept(|s.pending|))
  {
  }

  /** Barrier 2: while the superblock is written either commit stands; once it is flushed, the new one. */
  lemma {:induction false} FlipStep(d: seq<Cell>, img: Image, next: Image, inB: bool, tail: nat, tail': nat,
                                    hist: seq<WalOp>, a: set<WalOp>, a': set<WalOp>)
    requires DiskInv(d, img, inB, tail, hist, a) && FlipReady(d, img, next, tail', hist, a') && a' <= a
    requires AttemptsOk(a, img.table) && AttemptsOk(a', next.table)
    ensures var slot, e := SlotOff(!inB), Superblock.Encode(next.sb);
            && slot + |e| <= |d|
            && CrashSafe(Written(DevState(d, []), slot, e), Promise(hist, a, img, Some(next)))
            && var d' := Overwrite(d, slot, e);
               && Flushed(Written(DevState(d, []), slot, e)) == DevState(d', [])
               && DiskInv(d', next, !inB, tail', hist, a') && CrashSafe(DevState(d', []), Promise(hist, a', next, None))
  {
    hide Superblock.Encode, Superblock.Fits, SlotsAt, IndexAt, ObjectsAt, Covered, RingInv, AllPlain, CrashSafe,
      Overwrite, Current, TableFits, RootsIn, IndexFits, Tiled, Ordered, Hashes, AttemptsOk;
    var slot, e := SlotOff(!inB), Superblock.Encode(next.sb);
    assert |d| >= WAL_OFF;
    var s := DevState(d, []);
    assert Written(s, slot, e) == DevState(d, [PWrite(slot, e)]);
    SafeFlip(d, img, next, inB, tail, tail', hist, a, a');
    CurrentWritten(s, slot, e);
    QuietCurrent(d);
    var d' := Overwrite(d, slot, e);
    assert e[..Superblock.SB_SIZE] == e;
    FlipSlots(d, d', img.sb, next.sb, inB, Superblock.SB_SIZE);
    FlipLands(d, d', img, next, !inB, tail', hist, a');
    QuietPending(d', next);
    SafeChunks(DevState(d', []), next, !inB, tail', hist, a');
  }

  /** Everything the flip needs, from what the commit has computed. */
  lemma {:induction false} ReadyStep(cur: seq<Cell>, d: seq<Cell>, img: Image, inB: bool, tail: nat, hist: seq<WalOp>,
                                     a: set<WalOp>, c: Space, need: nat, off: nat, free: seq<Extent>, tail': nat,
                                     merged: seq<Extent>, sb: Sb, table: RefTable, recs: seq<RecMeta>,
                                     overlays: map<Bytes, PO.Overlay>, done: map<Bytes, nat>, n: nat)
    requires Prepared(c, img, |d|, need, off, free, tail', merged) && |cur| == |d|
    requires DiskInv(d, img, inB, tail, hist, a) && ObjectsAt(cur, ChunkOff(img.sb.walLen), c.index)
    requires sb == NextSb(img.sb, Of(EncodeTable(table)), sb.walHead, sb.walNextSeq, tail', off)
    requires img.sb.generation + 2 < U64
    requires forall i :: 0 <= i < |c.index| ==> c.index[i].birth <= sb.generation
    requires TableFits(table) && sb.refTable in Hashes(c.index) && RootsIn(table, Hashes(c.index))
    requires LogInv(recs, img.sb, hist, done) && ViewInv(table, overlays, hist, done)
    requires n <= |recs| && forall i :: 0 <= i < n ==> recs[i].flushed
    requires n < |recs| ==> sb.walHead == recs[n].off && sb.walNextSeq == recs[n].seqno
    requires n == |recs| ==> sb.walHead == 0 && sb.walNextSeq == |hist| + 1
    requires ChunkOff(img.sb.walLen) + off + need <= |d|
    requires d == Overwrite(cur, ChunkOff(img.sb.walLen) + off,
                            IndexFrame(NextImage(c, sb, off, need, merged, sb.generation, table)))
    ensures FlipReady(d, img, NextImage(c, sb, off, need, merged, sb.generation, table), TailAfter(n, recs, tail), hist,
                      LostAfter(n, recs, tail, a))
    ensures IndexExtent(NextImage(c, sb, off, need, merged, sb.generation, table)) == Extent(off, need)
    ensures LogInv(recs[n..], sb, hist, done)
  {
    hide Prepared, ObjectsAt, SlotsAt, IndexAt, Covered, RingInv, AllPlain, LogInv, ViewInv, TableFits, RootsIn, Hashes,
      EncodeTable, Overwrite, IndexFrame, ImageOk, DiskInv;
    DiskPieces(d, img, inB, tail, hist, a);
    var w := WalRegion(d, img.sb.walLen);
    RingNext(w, img.sb, tail, hist, a, recs, done, n, sb.walHead, sb.walNextSeq);
    LogNext(w, recs, img.sb, tail, hist, a, done, n, sb);
    LogCovers(recs[n..], sb, hist, done);
    HeadCovered(table, overlays, hist, done, sb.walNextSeq - 1);
    var next := NextImageOk(cur, d, img, c, need, off, free, tail', merged, sb, table);
  }

  lemma {:induction false} NextImageOk(cur: seq<Cell>, d: seq<Cell>, img: Image, c: Space, need: nat, off: nat,
                                       free: seq<Extent>, tail': nat, merged: seq<Extent>, sb: Sb, table: RefTable)
    returns (next: Image)
    requires Prepared(c, img, |d|, need, off, free, tail', merged) && |cur| == |d|
    requires ObjectsAt(cur, ChunkOff(img.sb.walLen), c.index)
    requires sb == NextSb(img.sb, Of(EncodeTable(table)), sb.walHead, sb.walNextSeq, tail', off)
    requires Superblock.Fits(img.sb) && sb.walHead < U64 && sb.walNextSeq < U64 && img.sb.generation + 2 < U64
    requires forall i :: 0 <= i < |c.index| ==> c.index[i].birth <= sb.generation
    requires TableFits(table) && sb.refTable in Hashes(c.index) && RootsIn(table, Hashes(c.index))
    requires ChunkOff(img.sb.walLen) + off + need <= |d|
    requires d == Overwrite(cur, ChunkOff(img.sb.walLen) + off,
                            IndexFrame(NextImage(c, sb, off, need, merged, sb.generation, table)))
    ensures next == NextImage(c, sb, off, need, merged, sb.generation, table)
    ensures ImageOk(next, |d|) && IndexExtent(next) == Extent(off, need)
    ensures IndexAt(d, next) && ObjectsAt(d, ChunkOff(next.sb.walLen), next.index)
  {
    hide ObjectsAt, IndexAt, TableFits, RootsIn, Hashes, EncodeTable, Overwrite, IndexFrame, ImageOk, SpaceInv, Handed,
      Ordered, Superblock.Fits;
    next := NextImage(c, sb, off, need, merged, sb.generation, table);
    NextOk(c, img, cur, need, off, free, tail', merged, sb, table);
    FrameWritten(c, img, cur, need, off, free, tail', merged, next);
  }

  lemma {:induction false} DiskPieces(d: seq<Cell>, img: Image, inB: bool, tail: nat, hist: seq<WalOp>, a: set<WalOp>)
    requires DiskInv(d, img, inB, tail, hist, a)
    ensures Superblock.Fits(img.sb) && img.sb.walLen < U64 && ChunkOff(img.sb.walLen) <= |d|
    ensures RingInv(WalRegion(d, img.sb.walLen), img.sb.walHead, img.sb.walNextSeq, tail, hist, a)
  {
    hide RingInv, Covered, AllPlain, SlotsAt, IndexAt, ObjectsAt, TableFits, RootsIn, Hashes, EncodeTable, IndexFits,
      Tiled, Ordered;
  }
}
