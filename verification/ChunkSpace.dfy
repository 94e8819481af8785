/** The chunk region between commits: what is indexed, free, waiting to be free, and how an object or
    an index frame is given room that the durable commit does not use. */
module ChunkSpace {
  import opened Cells
  import opened Device
  import opened Extents
  import opened ChunkIndex
  import opened RefTables
  import opened Durable
  import opened CrashSafety
  import Superblock

  datatype Space = Space(index: seq<IndexRow>, free: seq<Extent>, pending: seq<Extent>, ext: Extent, tail: nat)

  /** Extents that are neither free nor behind the tail. */
  function Taken(c: Space, p: int): nat
    requires RowsOk(c.index)
  {
    Count(Frames(c.index), p) + Count(c.pending, p) + Once(c.ext, p)
  }

  /** Indexed frames, the index frame, deferred and free extents tile the region, each byte once; and
      nothing the durable commit refers to is up for reuse. */
  ghost predicate SpaceInv(c: Space, img: Image, devLen: nat) {
    && RowsOk(c.index) && RowsOk(img.index) && Ordered(c.free)
    && (forall i :: 0 <= i < |c.pending| ==> c.pending[i].len > 0)
    && ChunkOff(img.sb.walLen) + c.tail <= devLen <= U64
    && c.ext == IndexExtent(img)
    && (forall p :: p >= 0 ==> Taken(c, p) + Avail(c.free, c.tail, p) == 1)
    && (forall p :: Used(img, p) ==> Taken(c, p) > 0)
  }

  /** An extent handed out of the available space. */
  ghost predicate Handed(c: Space, e: Extent, free: seq<Extent>, tail: nat) {
    && c.tail <= tail
    && forall p :: Avail(c.free, c.tail, p) == Avail(free, tail, p) + Once(e, p)
  }

  /** It lies below the new tail, in no other extent, and clear of the durable commit. */
  lemma {:induction false} HandedClear(c: Space, img: Image, devLen: nat, e: Extent, free: seq<Extent>, tail: nat,
                                       p: int)
    requires SpaceInv(c, img, devLen) && Handed(c, e, free, tail) && Has(e, p)
    ensures p < tail && Taken(c, p) == 0 && !Used(img, p)
  {
    hide Count, Used;
    assert Once(e, p) == 1;
    assert p >= 0;
  }

  /** An object of `n` cells can be stored: its length fits the 32 bits of the frame header, and its frame fits a
      free extent or the space between the tail and the end of the region. */
  predicate HasRoom(c: Space, n: nat, limit: int) {
    && n < U32
    && (c.tail + CHUNK_HEADER + n <= limit || exists i :: 0 <= i < |c.free| && c.free[i].len >= CHUNK_HEADER + n)
  }

  /** Handing out space makes no room. */
  lemma {:induction false} LessRoom(c: Space, free: seq<Extent>, tail: nat, limit: int)
    requires c.tail <= tail && forall i :: 0 <= i < |free| ==> NoLonger(free[i], c.free)
    ensures forall n :: HasRoom(c.(free := free, tail := tail), n, limit) ==> HasRoom(c, n, limit)
  {
    forall n | HasRoom(c.(free := free, tail := tail), n, limit)
      ensures HasRoom(c, n, limit)
    {
      if i :| 0 <= i < |free| && free[i].len >= CHUNK_HEADER + n {
        assert NoLonger(free[i], c.free);
      }
    }
  }

  lemma {:induction false} FramesPush(rows: seq<IndexRow>, r: IndexRow, p: int)
    requires RowsOk(rows) && RowOk(r)
    ensures RowsOk(rows + [r]) && Count(Frames(rows + [r]), p) == Count(Frames(rows), p) + Once(FrameOf(r), p)
  {
    hide Count;
    assert Frames(rows + [r]) == Frames(rows) + [FrameOf(r)];
    CountConcat(Frames(rows), [FrameOf(r)], p);
    CountOne(FrameOf(r), p);
  }

  // ── Writing an object ──

  lemma {:induction false} PutSpace(c: Space, img: Image, devLen: nat, r: IndexRow, free: seq<Extent>, tail: nat)
    requires SpaceInv(c, img, devLen) && RowOk(r) && Handed(c, FrameOf(r), free, tail)
    requires Ordered(free) && ChunkOff(img.sb.walLen) + tail <= devLen
    ensures SpaceInv(c.(index := c.index + [r], free := free, tail := tail), img, devLen)
  {
    hide Count, Used, Ordered;
    var c' := c.(index := c.index + [r], free := free, tail := tail);
    assert RowsOk(c'.index);
    forall p
      ensures Taken(c', p) == Taken(c, p) + Once(FrameOf(r), p)
    {
      FramesPush(c.index, r, p);
    }
  }

  lemma {:induction false} ClearWrite(c: Space, img: Image, devLen: nat, e: Extent, free: seq<Extent>, tail: nat,
                                      frame: seq<Cell>)
    requires SpaceInv(c, img, devLen) && Handed(c, e, free, tail) && e.len == |frame| > 0
    requires ChunkOff(img.sb.walLen) + tail <= devLen
    ensures ChunkOff(img.sb.walLen) + e.off + |frame| <= devLen
    ensures ChunkSafe(PWrite(ChunkOff(img.sb.walLen) + e.off, frame), img)
  {
    hide Count, Used, Taken;
    HandedClear(c, img, devLen, e, free, tail, e.off + e.len - 1);
    var co := ChunkOff(img.sb.walLen);
    var w := PWrite(co + e.off, frame);
    forall p | Covers(w, p)
      ensures !Used(img, p - co)
    {
      HandedClear(c, img, devLen, e, free, tail, p - co);
    }
  }

  /** Objects already indexed are not touched. */
  lemma {:induction false} ObjectsKept(c: Space, img: Image, d: seq<Cell>, e: Extent, free: seq<Extent>, tail: nat,
                                       frame: seq<Cell>)
    requires SpaceInv(c, img, |d|) && Handed(c, e, free, tail) && e.len == |frame|
    requires ObjectsAt(d, ChunkOff(img.sb.walLen), c.index) && ChunkOff(img.sb.walLen) + e.off + |frame| <= |d|
    ensures ObjectsAt(Overwrite(d, ChunkOff(img.sb.walLen) + e.off, frame), ChunkOff(img.sb.walLen), c.index)
  {
    hide Count, Used;
    var co := ChunkOff(img.sb.walLen);
    var d' := Overwrite(d, co + e.off, frame);
    forall i | 0 <= i < |c.index|
      ensures ObjectAt(d', co, c.index[i])
    {
      assert ObjectAt(d, co, c.index[i]);
      var r := c.index[i];
      forall k | co + r.off <= k < co + r.off + r.len
        ensures d'[k] == d[k]
      {
        assert Has(Frames(c.index)[i], k - co);
        CountMember(Frames(c.index), i, k - co);
        if Has(e, k - co) {
          HandedClear(c, img, |d|, e, free, tail, k - co);
        }
      }
      assert d'[co + r.off..co + r.off + r.len] == d[co + r.off..co + r.off + r.len];
    }
  }

  lemma {:induction false} ObjectWritten(d: seq<Cell>, co: nat, off: nat, obj: seq<Cell>, birth: nat)
    requires co + off + CHUNK_HEADER + |obj| <= |d|
    ensures ObjectAt(Overwrite(d, co + off, Frame(obj, birth)), co, IndexRow(Of(obj), off + CHUNK_HEADER, |obj|, birth))
  {
    var f := Frame(obj, birth);
    var d' := Overwrite(d, co + off, f);
    var at := co + off + CHUNK_HEADER;
    assert f[CHUNK_HEADER..] == obj;
    assert d'[at..at + |obj|] == obj;
  }

  // ── The next commit ──

  /** The frame's extent is sized for more free extents than it will record; the pad takes the rest. */
  lemma {:induction false} PadFits(entries: nat, bound: nat, extents: nat)
    requires extents <= bound
    ensures IndexPayloadLen(entries, extents) <= IndexPayloadLen(entries, bound)
  {
  }

  /** `next` records exactly the region as it will be after the flip. */
  lemma {:induction false} NextTiled(c: Space, img: Image, devLen: nat, e: Extent, free: seq<Extent>, tail: nat,
                                     merged: seq<Extent>, p: int)
    requires SpaceInv(c, img, devLen) && Handed(c, e, free, tail) && p >= 0
    requires Count(merged, p) == Count(free, p) + Count(c.pending + [c.ext], p)
    ensures Count(Frames(c.index), p) + Once(e, p) + Avail(merged, tail, p) == 1
  {
    hide Count, Used;
    CountConcat(c.pending, [c.ext], p);
    CountOne(c.ext, p);
  }

  lemma {:induction false} MergeDisjoint(c: Space, img: Image, devLen: nat, e: Extent, free: seq<Extent>, tail: nat,
                                         p: int)
    requires SpaceInv(c, img, devLen) && Handed(c, e, free, tail)
    ensures Count(free, p) + Count(c.pending + [c.ext], p) <= 1
  {
    hide Used, Count;
    CountConcat(c.pending, [c.ext], p);
    CountOne(c.ext, p);
    if p < 0 {
      NoneNegative(free, p);
      NoneNegative(c.pending, p);
    } else {
      assert Taken(c, p) + Avail(c.free, c.tail, p) == 1;
      assert Avail(c.free, c.tail, p) == Avail(free, tail, p) + Once(e, p);
    }
  }

  lemma {:induction false} NoneNegative(s: seq<Extent>, p: int)
    requires p < 0
    ensures Count(s, p) == 0
  {
    if s != [] {
      NoneNegative(s[1..], p);
    }
  }

  /** The image the next superblock will point at. */
  function NextImage(c: Space, sb: Superblock.Superblock, off: nat, need: nat, merged: seq<Extent>, birth: nat,
                     table: RefTable): Image
    requires need >= CHUNK_HEADER + IndexPayloadLen(|c.index|, |merged|)
  {
    Image(sb, c.index, merged, need - CHUNK_HEADER - IndexPayloadLen(|c.index|, |merged|), birth, table)
  }

  lemma {:induction false} ExtentsFit(free: seq<Extent>, tail: nat, i: nat)
    requires Ordered(free) && i < |free| && tail < U64 && forall p :: p >= tail ==> Count(free, p) == 0
    ensures ExtentFits(free[i])
  {
    hide Count;
    var p := free[i].off + free[i].len - 1;
    assert Has(free[i], p);
    CountMember(free, i, p);
  }

  lemma {:induction false} NextIndexFits(c: Space, merged: seq<Extent>, tail: nat, co: nat, d: seq<Cell>, gen: nat)
    requires RowsOk(c.index) && ObjectsAt(d, co, c.index) && 0 < co && |d| <= U64 && gen < U64
    requires forall i :: 0 <= i < |c.index| ==> c.index[i].birth <= gen
    requires Ordered(merged) && tail < U64 && forall p :: p >= tail ==> Count(merged, p) == 0
    requires |c.index| < U32 && |merged| < U32
    ensures IndexFits(c.index, merged)
  {
    hide Count, Ordered;
    forall i | 0 <= i < |c.index|
      ensures RowFits(c.index[i])
    {
      assert ObjectAt(d, co, c.index[i]);
    }
    forall i | 0 <= i < |merged|
      ensures ExtentFits(merged[i])
    {
      ExtentsFit(merged, tail, i);
    }
  }

  /** After the flip the merged list is the free list and nothing is deferred. */
  lemma {:induction false} NextSpace(next: Image, devLen: nat)
    requires ImageOk(next, devLen)
    ensures SpaceInv(Space(next.index, next.free, [], IndexExtent(next), next.sb.chunkTail), next, devLen)
  {
    hide Count, Ordered, IndexFits, TableFits, Hashes, RootsIn, RowsOk;
    forall p
      ensures Count([], p) == 0
    {
      CountNone(p);
    }
  }

  lemma {:induction false} CountNone(p: int)
    ensures Count([], p) == 0
  {
  }
}
