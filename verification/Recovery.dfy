/** Mount: from a disk's cells back to the engine's state, and what reads then return. */
module Recovery {
  import opened Cells
  import opened WalCodec
  import opened WalLog
  import opened Ring
  import Superblock
  import opened Extents
  import opened ChunkIndex
  import opened RefTables
  import opened History
  import PO = PathOverlay
  import Tree
  import opened Durable

  datatype Mounted = Mounted(
    sb: Sb, inB: bool, index: seq<IndexRow>, free: seq<Extent>, ext: Extent, table: RefTable, recs: seq<Rec>)

  function FindRow(rows: seq<IndexRow>, h: Hash): (r: Option<IndexRow>)
    ensures r.Some? ==> r.value in rows && r.value.hash == h
    ensures r.None? ==> h !in Hashes(rows)
  {
    if rows == [] then None else if rows[0].hash == h then Some(rows[0]) else
      var r := FindRow(rows[1..], h);
      assert rows == [rows[0]] + rows[1..];
      r
  }

  /** Read an object through the index; its hash is verified. */
  function ReadObject(disk: seq<Cell>, co: nat, rows: seq<IndexRow>, h: Hash): Option<seq<Cell>> {
    var r :- FindRow(rows, h);
    if co + r.off + r.len > |disk| then None else
    var c := disk[co + r.off..co + r.off + r.len];
    if Of(c) != h then None else Some(c)
  }

  function MountAt(disk: seq<Cell>, sb: Sb, inB: bool): Option<Mounted> {
    var co := ChunkOff(sb.walLen);
    if co + sb.chunkTail > |disk| || sb.walHead > sb.walLen || sb.indexOff + CHUNK_HEADER > sb.chunkTail then None else
    var payload :- ReadFrame(disk[co + sb.indexOff..]);
    if sb.indexOff + CHUNK_HEADER + |payload| > sb.chunkTail then None else
    var (index, free) :- DecodeIndex(payload);
    var obj :- ReadObject(disk, co, index, sb.refTable);
    var table :- DecodeTable(obj);
    Some(Mounted(sb, inB, index, free, Extent(sb.indexOff, CHUNK_HEADER + |payload|), table,
                 Walk(Rot(WalRegion(disk, sb.walLen), sb.walHead), 0, sb.walNextSeq)))
  }

  /** Read both slots, take the valid one of higher generation, load what it points at, and walk
      the log from its head. */
  function Mount(disk: seq<Cell>): Option<Mounted> {
    if |disk| < WAL_OFF then None else
    var a, b := Superblock.Decode(Slot(disk, false)), Superblock.Decode(Slot(disk, true));
    match Superblock.PickSurvivor(a, b)
    case Neither => None
    case SlotA => MountAt(disk, a.value, false)
    case SlotB => MountAt(disk, b.value, true)
  }

  // ── Mount finds the commit ──

  lemma {:induction false} SurvivorIsLive(disk: seq<Cell>, sb: Sb, inB: bool)
    requires SlotsAt(disk, sb, inB) && Superblock.Fits(sb)
    ensures Mount(disk) == MountAt(disk, sb, inB)
  {
    hide Superblock.Decode, Superblock.Carries, Superblock.Outdated, MountAt, Slot;
    Superblock.DecodeEncoded(Slot(disk, inB), sb);
    Superblock.OutdatedLoses(Slot(disk, !inB), sb.generation);
  }

  lemma {:induction false} IndexReadsBack(disk: seq<Cell>, img: Image)
    requires ImageOk(img, |disk|) && IndexAt(disk, img)
    ensures var c := disk[ChunkOff(img.sb.walLen) + img.sb.indexOff..];
            var payload := EncodeIndex(img.index, img.free, img.pad);
            ReadFrame(c) == Some(payload) && DecodeIndex(payload) == Some((img.index, img.free))
  {
    hide ReadFrame, DecodeIndex, EncodeIndex, Frame, IndexFits, TableFits, RowsOk, Tiled, Hashes, RootsIn;
    var o, n := ChunkOff(img.sb.walLen) + img.sb.indexOff, IndexExtent(img).len;
    var payload := EncodeIndex(img.index, img.free, img.pad);
    assert disk[o..] == disk[o..o + n] + disk[o + n..];
    FrameRoundTrip(payload, img.birth, disk[o + n..]);
    IndexRoundTrip(img.index, img.free, img.pad);
  }

  lemma {:induction false} TableReadsBack(disk: seq<Cell>, img: Image)
    requires ImageOk(img, |disk|) && ObjectsAt(disk, ChunkOff(img.sb.walLen), img.index)
    ensures var o := ReadObject(disk, ChunkOff(img.sb.walLen), img.index, img.sb.refTable);
            o == Some(EncodeTable(img.table)) && DecodeTable(o.value) == Some(img.table)
  {
    hide DecodeTable, EncodeTable, IndexFits, RowsOk, Tiled, RootsIn, FindRow;
    TableRoundTrip(img.table);
    var r := FindRow(img.index, img.sb.refTable);
    assert r.Some? && r.value in img.index;
    var i :| 0 <= i < |img.index| && img.index[i] == r.value;
    assert ObjectAt(disk, ChunkOff(img.sb.walLen), img.index[i]);
  }

  /** Every indexed object reads back, with its hash verified. */
  lemma {:induction false} ObjectsReadBack(disk: seq<Cell>, co: nat, rows: seq<IndexRow>, h: Hash)
    requires ObjectsAt(disk, co, rows) && h in Hashes(rows)
    ensures ReadObject(disk, co, rows, h) == Some(h.content)
  {
    hide FindRow;
    var r := FindRow(rows, h);
    assert r.Some? && r.value in rows;
    var i :| 0 <= i < |rows| && rows[i] == r.value;
    assert ObjectAt(disk, co, rows[i]);
    assert h == Of(h.content);
  }

  lemma {:induction false} IndexBelowTail(img: Image, devLen: nat)
    requires ImageOk(img, devLen)
    ensures IndexExtent(img).off + IndexExtent(img).len <= img.sb.chunkTail
  {
    hide Count, IndexFits, TableFits, Hashes, RootsIn, RowsOk;
    var e := IndexExtent(img);
    var p := e.off + e.len - 1;
    assert Has(e, p);
    assert Avail(img.free, img.sb.chunkTail, p) == 0;
  }

  /** Mount selects the commit the disk stands for and finds its log. */
  lemma {:induction false} MountFinds(disk: seq<Cell>, img: Image, inB: bool, tail: nat, hist: seq<WalOp>,
                                      attempted: set<WalOp>)
    requires DiskInv(disk, img, inB, tail, hist, attempted)
    ensures Mount(disk) == Some(Mounted(img.sb, inB, img.index, img.free, IndexExtent(img), img.table,
                                        Recs(hist[img.sb.walNextSeq - 1..], 0, img.sb.walNextSeq)))
  {
    hide Mount, ReadFrame, DecodeIndex, EncodeIndex, DecodeTable, EncodeTable, ReadObject, Rot, Walk, Recs, LogLen,
      SlotsAt, IndexAt, ObjectsAt, RingView, Covered, AllPlain, IndexFits, TableFits, Hashes, RootsIn, RowsOk, Tiled;
    SurvivorIsLive(disk, img.sb, inB);
    IndexReadsBack(disk, img);
    TableReadsBack(disk, img);
    IndexBelowTail(img, |disk|);
    RingMount(WalRegion(disk, img.sb.walLen), img.sb.walHead, img.sb.walNextSeq, tail, hist, attempted);
  }

  // ── Reads after mount ──

  /** Replay one record into the overlay of ref `r`. */
  function ApplyOp(o: PO.Overlay, op: WalOp, r: Bytes): PO.Overlay {
    if op.ref != r then o
    else match op
      case Write(_, p, off, mt, data) => PO.Write(o, p, off, data, mt)
      case Unlink(_, p, _) => PO.Unlink(o, p)
      case Rename(_, _, _, _) => o
  }

  function ReplayOverlay(ops: seq<WalOp>, r: Bytes): PO.Overlay {
    if ops == [] then PO.EMPTY else ApplyOp(ReplayOverlay(ops[..|ops| - 1], r), ops[|ops| - 1], r)
  }

  function OpsOf(recs: seq<Rec>): seq<WalOp> {
    seq(|recs|, i requires 0 <= i < |recs| => recs[i].op)
  }

  function FindRef(refs: seq<RefRow>, r: Bytes): (root: Option<Hash>)
    ensures root.Some? ==> exists i :: 0 <= i < |refs| && refs[i].name == r && refs[i].root == root.value
    ensures root.None? ==> forall i :: 0 <= i < |refs| ==> refs[i].name != r
  {
    if refs == [] then None else if refs[0].name == r then Some(refs[0].root) else
      var root := FindRef(refs[1..], r);
      assert refs == [refs[0]] + refs[1..];
      root
  }

  /** A read of path `p` of ref `r` on the mounted store: replayed overlay over committed tree. */
  ghost function ReadMounted(m: Mounted, r: Bytes, p: Path): Option<Bytes> {
    var root := FindRef(m.table.refs, r);
    if root.None? then None else PO.View(Tree.TreeAt(root.value), ReplayOverlay(OpsOf(m.recs), r), p)
  }

  lemma {:induction false} RecsOps(ops: seq<WalOp>, off: nat, s: nat)
    ensures OpsOf(Recs(ops, off, s)) == ops
  {
    hide Recs;
    forall i | 0 <= i < |ops|
      ensures Recs(ops, off, s)[i].op == ops[i]
    {
      RecsAt(ops, off, s, i);
    }
  }

  /** The overlay replayed from a log reads as the log applied to the tree. */
  lemma {:induction false} ReplayReads(tree: PO.Tree, ops: seq<WalOp>, r: Bytes, p: Path)
    requires AllPlain(ops)
    ensures PO.Valid(ReplayOverlay(ops, r))
    ensures PO.View(tree, ReplayOverlay(ops, r), p) == After(tree(p), ops, r, p)
  {
    hide PO.Valid, PO.View, PO.Write, PO.Unlink;
    if ops == [] {
      EmptyReads(tree, p);
    } else {
      var pre, op := ops[..|ops| - 1], ops[|ops| - 1];
      assert ops == pre + [op];
      ReplayReads(tree, pre, r, p);
      AfterConcat(tree(p), pre, [op], r, p);
      AfterOne(After(tree(p), pre, r, p), op, r, p);
      ApplyReads(tree, ReplayOverlay(pre, r), op, r, p);
    }
  }

  lemma {:induction false} EmptyReads(tree: PO.Tree, p: Path)
    ensures PO.Valid(PO.EMPTY) && PO.View(tree, PO.EMPTY, p) == tree(p)
  {
  }

  lemma {:induction false} AfterOne(cur: Option<Bytes>, op: WalOp, r: Bytes, p: Path)
    ensures After(cur, [op], r, p) == Step(cur, op, r, p)
  {
    assert After(cur, [op], r, p) == After(Step(cur, op, r, p), [op][1..], r, p);
  }

  lemma {:induction false} ApplyReads(tree: PO.Tree, o: PO.Overlay, op: WalOp, r: Bytes, p: Path)
    requires PO.Valid(o) && Plain(op)
    ensures PO.Valid(ApplyOp(o, op, r))
    ensures PO.View(tree, ApplyOp(o, op, r), p) == Step(PO.View(tree, o, p), op, r, p)
  {
    hide PO.Valid, PO.View, PO.Write, PO.Unlink;
    if op.ref == r {
      match op
      case Write(_, q, off, mt, data) =>
        PO.WriteKeepsValid(o, q, off, data, mt);
        PO.WriteView(tree, o, q, off, data, mt, p);
      case Unlink(_, q, _) =>
        PO.UnlinkKeepsValid(o, q);
        PO.UnlinkView(tree, o, q, p);
    }
  }

  /** Recovery: the mounted store reads, on every path of every ref, as the history the disk
      stands for. */
  lemma {:induction false} RecoveryReads(disk: seq<Cell>, img: Image, inB: bool, tail: nat, hist: seq<WalOp>,
                                         attempted: set<WalOp>, r: Bytes, p: Path)
    requires DiskInv(disk, img, inB, tail, hist, attempted)
    ensures Mount(disk).Some? && ReadMounted(Mount(disk).value, r, p) == After(None, hist, r, p)
  {
    hide Mount, Recs, ImageOk, SlotsAt, IndexAt, ObjectsAt, RingInv, FindRef, PO.View, ReplayOverlay, Plain;
    MountFinds(disk, img, inB, tail, hist, attempted);
    var head := img.sb.walNextSeq - 1;
    HeadInHist(disk, img, inB, tail, hist, attempted);
    var ops := hist[head..];
    RecsOps(ops, 0, img.sb.walNextSeq);
    var root := FindRef(img.table.refs, r);
    if root.Some? {
      var i :| 0 <= i < |img.table.refs| && img.table.refs[i].name == r && img.table.refs[i].root == root.value;
      assert ReflectsFrom(img.table.refs[i].root, img.table.refs[i].name, hist, head);
      var n :| head <= n && Reflects(root.value, r, hist, n);
      ReplayReads(Tree.TreeAt(root.value), ops, r, p);
      Replay(None, hist, head, n, r, p);
    } else {
      assert forall k :: 0 <= k < |hist| ==> RefKnown(img.table, hist[k].ref);
      AfterUntouched(None, hist, r, p);
    }
  }

  lemma {:induction false} HeadInHist(disk: seq<Cell>, img: Image, inB: bool, tail: nat, hist: seq<WalOp>,
                                      attempted: set<WalOp>)
    requires DiskInv(disk, img, inB, tail, hist, attempted)
    ensures 1 <= img.sb.walNextSeq <= |hist| + 1
  {
    hide ImageOk, SlotsAt, IndexAt, ObjectsAt, Covered, RingView, Rot;
  }
}
