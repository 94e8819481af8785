/** What a disk must hold to be mounted, and why no crash takes it away. */
module Durable {
  import opened Cells
  import opened WalCodec
  import opened WalLog
  import opened Ring
  import opened Device
  import Superblock
  import opened Extents
  import opened ChunkIndex
  import opened RefTables
  import opened History
  import Gc
  import Tree

  type Sb = Superblock.Superblock

  const WAL_OFF := 8192

  function ChunkOff(walLen: nat): nat {
    WAL_OFF + walLen
  }

  function SlotOff(inB: bool): nat {
    if inB then Superblock.SB_B_OFF else Superblock.SB_A_OFF
  }

  function Slot(disk: seq<Cell>, inB: bool): seq<Cell>
    requires |disk| >= WAL_OFF
  {
    disk[SlotOff(inB)..SlotOff(inB) + Superblock.SB_SIZE]
  }

  function WalRegion(disk: seq<Cell>, walLen: nat): seq<Cell>
    requires |disk| >= ChunkOff(walLen)
  {
    disk[WAL_OFF..ChunkOff(walLen)]
  }

  /** One commit: its superblock, the index frame it points at and the ref table. */
  datatype Image = Image(sb: Sb, index: seq<IndexRow>, free: seq<Extent>, pad: nat, birth: nat, table: RefTable)

  function FrameOf(r: IndexRow): Extent
    requires r.off >= CHUNK_HEADER
  {
    Extent(r.off - CHUNK_HEADER, r.len + CHUNK_HEADER)
  }

  /** Each object has its header in front of it, and its length fits the 32 bits of the header. */
  predicate RowOk(r: IndexRow) {
    r.off >= CHUNK_HEADER && r.len < U32
  }

  predicate RowsOk(rows: seq<IndexRow>) {
    forall i :: 0 <= i < |rows| ==> RowOk(rows[i])
  }

  function Frames(rows: seq<IndexRow>): (es: seq<Extent>)
    requires RowsOk(rows)
    ensures |es| == |rows| && forall i :: 0 <= i < |rows| ==> es[i] == FrameOf(rows[i])
  {
    seq(|rows|, i requires 0 <= i < |rows| => FrameOf(rows[i]))
  }

  function IndexExtent(img: Image): Extent {
    Extent(img.sb.indexOff, CHUNK_HEADER + IndexPayloadLen(|img.index|, |img.free|) + img.pad)
  }

  function IndexFrame(img: Image): (c: seq<Cell>)
    ensures |c| == IndexExtent(img).len
  {
    Frame(EncodeIndex(img.index, img.free, img.pad), img.birth)
  }

  /** The bytes of the chunk region the commit refers to. */
  ghost predicate Used(img: Image, p: int)
    requires RowsOk(img.index)
  {
    Count(Frames(img.index), p) + Once(IndexExtent(img), p) > 0
  }

  // ── On disk ──

  ghost predicate ObjectAt(disk: seq<Cell>, co: nat, r: IndexRow) {
    co + r.off + r.len <= |disk| && disk[co + r.off..co + r.off + r.len] == r.hash.content
  }

  ghost predicate ObjectsAt(disk: seq<Cell>, co: nat, rows: seq<IndexRow>) {
    forall i :: 0 <= i < |rows| ==> ObjectAt(disk, co, rows[i])
  }

  ghost predicate IndexAt(disk: seq<Cell>, img: Image) {
    var o := ChunkOff(img.sb.walLen) + img.sb.indexOff;
    o + IndexExtent(img).len <= |disk| && disk[o..o + IndexExtent(img).len] == IndexFrame(img)
  }

  ghost predicate SlotsAt(disk: seq<Cell>, sb: Sb, inB: bool) {
    && |disk| >= WAL_OFF
    && Superblock.Carries(Slot(disk, inB), sb)
    && Superblock.Outdated(Slot(disk, !inB), sb.generation)
  }

  // ── Of the commit itself ──

  function Hashes(rows: seq<IndexRow>): set<Hash> {
    set i | 0 <= i < |rows| :: rows[i].hash
  }

  /** Index frame, indexed frames, free extents and the space behind the tail tile the region. */
  ghost predicate Tiled(img: Image)
    requires RowsOk(img.index)
  {
    forall p :: p >= 0 ==>
      Count(Frames(img.index), p) + Once(IndexExtent(img), p) + Avail(img.free, img.sb.chunkTail, p) == 1
  }

  /** A tree whose objects are all there and parse, whose directories load and whose files read. */
  ghost predicate RootIn(root: Hash, hs: set<Hash>) {
    Gc.Reach(root) <= hs && Gc.Sane(root) && Tree.Proper(root)
  }

  ghost predicate RootsIn(table: RefTable, hs: set<Hash>) {
    && (forall i :: 0 <= i < |table.refs| ==> RootIn(table.refs[i].root, hs))
    && (forall i :: 0 <= i < |table.snaps| ==> RootIn(table.snaps[i].root, hs))
  }

  ghost predicate ImageOk(img: Image, devLen: nat) {
    && Superblock.Fits(img.sb) && img.sb.generation + 1 < U64
    && ChunkOff(img.sb.walLen) + img.sb.chunkTail <= devLen <= U64
    && RowsOk(img.index) && IndexFits(img.index, img.free) && Tiled(img) && Ordered(img.free)
    && IndexPayloadLen(|img.index|, |img.free|) + img.pad < U32
    && TableFits(img.table) && img.sb.refTable == Of(EncodeTable(img.table))
    && img.sb.refTable in Hashes(img.index) && RootsIn(img.table, Hashes(img.index))
    && (forall i :: 0 <= i < |img.index| ==> img.index[i].birth <= img.sb.generation)
  }

  // ── The history a disk stands for ──

  /** The tree under `root` is ref `r` after the first `n` operations. */
  ghost predicate Reflects(root: Hash, r: Bytes, hist: seq<WalOp>, n: nat) {
    n <= |hist| && forall p :: Tree.Files(root, p) == After(None, hist[..n], r, p)
  }

  ghost predicate ReflectsFrom(root: Hash, r: Bytes, hist: seq<WalOp>, head: int) {
    exists n :: head <= n && Reflects(root, r, hist, n)
  }

  ghost predicate RefKnown(table: RefTable, r: Bytes) {
    exists i :: 0 <= i < |table.refs| && table.refs[i].name == r
  }

  /** Every ref's committed tree holds at least the operations before the log head. */
  ghost predicate Covered(table: RefTable, head: int, hist: seq<WalOp>) {
    && (forall i, j :: 0 <= i < j < |table.refs| ==> table.refs[i].name != table.refs[j].name)
    && (forall i :: 0 <= i < |table.refs| ==> ReflectsFrom(table.refs[i].root, table.refs[i].name, hist, head))
    && (forall k :: 0 <= k < |hist| ==> RefKnown(table, hist[k].ref))
  }

  ghost predicate DiskInv(disk: seq<Cell>, img: Image, inB: bool, tail: nat, hist: seq<WalOp>, attempted: set<WalOp>) {
    && ImageOk(img, |disk|)
    && SlotsAt(disk, img.sb, inB)
    && IndexAt(disk, img)
    && ObjectsAt(disk, ChunkOff(img.sb.walLen), img.index)
    && RingInv(WalRegion(disk, img.sb.walLen), img.sb.walHead, img.sb.walNextSeq, tail, hist, attempted)
    && AllPlain(hist)
    && Covered(img.table, img.sb.walNextSeq - 1, hist)
  }

  // ── Changes that keep a commit intact ──

  /** `d'` agrees with `d` on both superblock slots and on everything commit `img` refers to. */
  ghost predicate Spares(d: seq<Cell>, d': seq<Cell>, img: Image)
    requires RowsOk(img.index)
  {
    var co := ChunkOff(img.sb.walLen);
    && |d'| == |d|
    && (forall p :: 0 <= p < |d| && p < WAL_OFF ==> d'[p] == d[p])
    && (forall p :: co <= p < |d| && Used(img, p - co) ==> d'[p] == d[p])
  }

  lemma {:induction false} CountMember(es: seq<Extent>, i: nat, p: int)
    requires i < |es| && Has(es[i], p)
    ensures Count(es, p) > 0
  {
    CountSplit(es, i, p);
  }

  lemma {:induction false} SparesObject(d: seq<Cell>, d': seq<Cell>, img: Image, i: nat)
    requires RowsOk(img.index) && Spares(d, d', img) && i < |img.index|
    requires ObjectAt(d, ChunkOff(img.sb.walLen), img.index[i])
    ensures ObjectAt(d', ChunkOff(img.sb.walLen), img.index[i])
  {
    hide Count;
    var co, r := ChunkOff(img.sb.walLen), img.index[i];
    forall k | co + r.off <= k < co + r.off + r.len
      ensures d'[k] == d[k]
    {
      assert Has(Frames(img.index)[i], k - co);
      CountMember(Frames(img.index), i, k - co);
    }
    assert d'[co + r.off..co + r.off + r.len] == d[co + r.off..co + r.off + r.len];
  }

  lemma {:induction false} SparesImage(d: seq<Cell>, d': seq<Cell>, img: Image)
    requires RowsOk(img.index) && Spares(d, d', img)
    requires IndexAt(d, img) && ObjectsAt(d, ChunkOff(img.sb.walLen), img.index)
    ensures IndexAt(d', img) && ObjectsAt(d', ChunkOff(img.sb.walLen), img.index)
  {
    hide Count, ObjectAt, IndexFrame;
    var o, n := ChunkOff(img.sb.walLen) + img.sb.indexOff, IndexExtent(img).len;
    forall k | o <= k < o + n
      ensures d'[k] == d[k]
    {
      assert Has(IndexExtent(img), k - ChunkOff(img.sb.walLen));
    }
    assert d'[o..o + n] == d[o..o + n];
    forall i | 0 <= i < |img.index|
      ensures ObjectAt(d', ChunkOff(img.sb.walLen), img.index[i])
    {
      SparesObject(d, d', img, i);
    }
  }

  lemma {:induction false} SparesSlots(d: seq<Cell>, d': seq<Cell>, img: Image, inB: bool)
    requires RowsOk(img.index) && Spares(d, d', img) && SlotsAt(d, img.sb, inB)
    ensures SlotsAt(d', img.sb, inB)
  {
    hide Superblock.Carries, Superblock.Outdated;
    assert Slot(d', inB) == Slot(d, inB);
    assert Slot(d', !inB) == Slot(d, !inB);
  }
}
