/** Crash safety of each device state the protocol passes through: whatever the fate of the
    unflushed writes, the disk can be mounted and stands for the acknowledged history, or for that
    history and one record that was in flight. */
module CrashSafety {
  import opened Cells
  import opened WalCodec
  import opened WalLog
  import opened Ring
  import opened Device
  import Superblock
  import opened Extents
  import opened ChunkIndex
  import opened RefTables
  import opened History
  import opened Durable

  /** Records that may lie half written at the tail are plain operations on known refs. */
  ghost predicate AttemptsOk(a: set<WalOp>, table: RefTable) {
    forall x :: x in a ==> Plain(x) && RefKnown(table, x.ref)
  }

  /** What the engine owes its callers in one device state: the acknowledged operations, the records that may
      lie half written at the tail, the last completed commit, and the commit being made, if any. */
  datatype Promise = Promise(hist: seq<WalOp>, attempted: set<WalOp>, img: Image, next: Option<Image>)

  predicate Commits(p: Promise, img: Image) {
    img == p.img || p.next == Some(img)
  }

  /** The disk stands for the last commit or the one being made, whole, and for the acknowledged operations, or
      for those and one of the attempted records. */
  ghost predicate Recoverable(disk: seq<Cell>, p: Promise) {
    exists img, inB, tail, h, a ::
      DiskInv(disk, img, inB, tail, h, a) && AttemptsOk(a, img.table) && Commits(p, img)
      && ((h == p.hist && a <= p.attempted) || (a == {} && exists x :: x in p.attempted && h == p.hist + [x]))
  }

  ghost predicate CrashSafe(s: DevState, p: Promise) {
    WellFormed(s) && forall fates :: |fates| == |s.pending| ==> Recoverable(Crashed(s, fates), p)
  }

  /** Refs and snapshots are only ever added. */
  ghost predicate Grows(table: RefTable, was: RefTable) {
    && |was.refs| <= |table.refs| && (forall i :: 0 <= i < |was.refs| ==> table.refs[i].name == was.refs[i].name)
    && was.snaps <= table.snaps
  }

  // ── What may be pending ──

  /** A write into chunk space that commit `img` does not refer to. */
  ghost predicate ChunkSafe(w: PWrite, img: Image)
    requires RowsOk(img.index)
  {
    var co := ChunkOff(img.sb.walLen);
    co <= w.off && forall p :: Covers(w, p) ==> !Used(img, p - co)
  }

  /** How far ring offset `q` lies behind `tail`. */
  function Behind(q: nat, tail: nat, len: nat): int {
    if q >= tail then q - tail else q + len - tail
  }

  /** A write of part of record `rec`, due at ring offset `tail`. */
  ghost predicate WalPiece(w: PWrite, walLen: nat, tail: nat, rec: seq<Cell>) {
    && WAL_OFF <= w.off && w.off + |w.data| <= ChunkOff(walLen)
    && forall p :: Covers(w, p) ==>
         var j := Behind(p - WAL_OFF, tail, walLen); 0 <= j < |rec| && w.data[p - w.off] == rec[j]
  }

  ghost predicate PendingSafe(s: DevState, img: Image)
    requires RowsOk(img.index)
  {
    WellFormed(s) && forall i :: 0 <= i < |s.pending| ==> ChunkSafe(s.pending[i], img)
  }

  lemma {:induction false} QuietPending(d: seq<Cell>, img: Image)
    requires RowsOk(img.index)
    ensures PendingSafe(DevState(d, []), img)
  {
  }

  lemma {:induction false} PendingMore(s: DevState, img: Image, w: PWrite)
    requires RowsOk(img.index) && PendingSafe(s, img) && ChunkSafe(w, img) && w.off + |w.data| <= |s.durable|
    ensures PendingSafe(Written(s, w.off, w.data), img)
  {
    hide ChunkSafe;
  }

  ghost predicate PendingAppend(s: DevState, img: Image, tail: nat, rec: seq<Cell>)
    requires RowsOk(img.index)
  {
    WellFormed(s) && forall i :: 0 <= i < |s.pending| ==>
      ChunkSafe(s.pending[i], img) || WalPiece(s.pending[i], img.sb.walLen, tail, rec)
  }

  // ── The commit survives ──

  lemma {:induction false} CrashSpares(s: DevState, fates: seq<Fate>, img: Image, tail: nat, rec: seq<Cell>)
    requires RowsOk(img.index) && PendingAppend(s, img, tail, rec) && |fates| == |s.pending|
    ensures Spares(s.durable, Crashed(s, fates), img)
  {
    hide Used, Resolve;
    var co, d' := ChunkOff(img.sb.walLen), Crashed(s, fates);
    forall p | 0 <= p < |s.durable| && (p < WAL_OFF || (co <= p && Used(img, p - co)))
      ensures d'[p] == s.durable[p]
    {
      forall i | 0 <= i < |s.pending|
        ensures !Covers(s.pending[i], p)
      {
        assert ChunkSafe(s.pending[i], img) || WalPiece(s.pending[i], img.sb.walLen, tail, rec);
      }
      CrashFrame(s, fates, |fates|, p);
    }
  }

  lemma {:induction false} CrashRing(s: DevState, fates: seq<Fate>, img: Image, tail: nat, rec: seq<Cell>)
    requires RowsOk(img.index) && PendingAppend(s, img, tail, rec) && |fates| == |s.pending|
    requires |s.durable| >= ChunkOff(img.sb.walLen) && tail <= img.sb.walLen && |rec| <= img.sb.walLen
    ensures Mixed(Rot(WalRegion(s.durable, img.sb.walLen), tail),
                  Rot(WalRegion(Crashed(s, fates), img.sb.walLen), tail), rec)
  {
    hide Used, Resolve;
    var len := img.sb.walLen;
    var u, u' := Rot(WalRegion(s.durable, len), tail), Rot(WalRegion(Crashed(s, fates), len), tail);
    forall j | 0 <= j < len
      ensures u'[j] == u[j] || (j < |rec| && u'[j] == rec[j])
    {
      var q := Wrap(tail + j, len);
      var p := WAL_OFF + q;
      CrashCell(s, fates, |fates|, p);
      if Crashed(s, fates)[p] != s.durable[p] {
        var i :| 0 <= i < |s.pending| && Covers(s.pending[i], p)
                 && Crashed(s, fates)[p] == s.pending[i].data[p - s.pending[i].off];
        assert ChunkSafe(s.pending[i], img) || WalPiece(s.pending[i], len, tail, rec);
        assert Behind(p - WAL_OFF, tail, len) == j;
      }
    }
  }

  lemma {:induction false} CrashRingQuiet(s: DevState, fates: seq<Fate>, img: Image)
    requires RowsOk(img.index) && PendingSafe(s, img) && |fates| == |s.pending|
    requires |s.durable| >= ChunkOff(img.sb.walLen)
    ensures WalRegion(Crashed(s, fates), img.sb.walLen) == WalRegion(s.durable, img.sb.walLen)
  {
    hide Used, Resolve;
    forall p | WAL_OFF <= p < ChunkOff(img.sb.walLen)
      ensures Crashed(s, fates)[p] == s.durable[p]
    {
      assert forall i :: 0 <= i < |s.pending| ==> !Covers(s.pending[i], p);
      CrashFrame(s, fates, |fates|, p);
    }
  }

  /** A disk that spares the commit and whose ring is in order stands for what the ring says. */
  lemma {:induction false} Carry(d: seq<Cell>, d': seq<Cell>, img: Image, inB: bool, tail: nat, hist: seq<WalOp>,
                                 a: set<WalOp>, tail': nat, hist': seq<WalOp>, a': set<WalOp>)
    requires DiskInv(d, img, inB, tail, hist, a) && Spares(d, d', img)
    requires RingInv(WalRegion(d', img.sb.walLen), img.sb.walHead, img.sb.walNextSeq, tail', hist', a')
    requires AllPlain(hist') && Covered(img.table, img.sb.walNextSeq - 1, hist')
    ensures DiskInv(d', img, inB, tail', hist', a')
  {
    hide ImageOk, SlotsAt, IndexAt, ObjectsAt, Covered, RingInv, Spares, AllPlain;
    assert RowsOk(img.index) by { ImageRows(img, |d|); }
    assert |d'| == |d| by { SameLength(d, d', img); }
    SparesImage(d, d', img);
    SparesSlots(d, d', img, inB);
  }

  lemma {:induction false} ImageRows(img: Image, n: nat)
    requires ImageOk(img, n)
    ensures RowsOk(img.index) && ChunkOff(img.sb.walLen) + img.sb.chunkTail <= n
  {
  }

  lemma {:induction false} SameLength(d: seq<Cell>, d': seq<Cell>, img: Image)
    requires RowsOk(img.index) && Spares(d, d', img)
    ensures |d'| == |d|
  {
  }

  lemma {:induction false} CoveredGrows(table: RefTable, head: int, hist: seq<WalOp>, op: WalOp)
    requires Covered(table, head, hist) && RefKnown(table, op.ref)
    ensures Covered(table, head, hist + [op])
  {
    hide Reflects, RefKnown;
    forall i | 0 <= i < |table.refs|
      ensures ReflectsFrom(table.refs[i].root, table.refs[i].name, hist + [op], head)
    {
      assert ReflectsFrom(table.refs[i].root, table.refs[i].name, hist, head);
      var n :| head <= n && Reflects(table.refs[i].root, table.refs[i].name, hist, n);
      ReflectsGrows(table.refs[i].root, table.refs[i].name, hist, op, n);
    }
  }

  lemma {:induction false} ReflectsGrows(root: Hash, r: Bytes, hist: seq<WalOp>, op: WalOp, n: nat)
    requires Reflects(root, r, hist, n)
    ensures Reflects(root, r, hist + [op], n)
  {
    assert (hist + [op])[..n] == hist[..n];
  }

  // ── The states of the protocol ──

  /** Between operations, and while objects and index frames are being written. */
  lemma {:induction false} SafeChunks(s: DevState, img: Image, inB: bool, tail: nat, hist: seq<WalOp>, a: set<WalOp>)
    requires DiskInv(s.durable, img, inB, tail, hist, a) && PendingSafe(s, img) && AttemptsOk(a, img.table)
    ensures CrashSafe(s, Promise(hist, a, img, None))
    ensures forall fates :: |fates| == |s.pending| ==> DiskInv(Crashed(s, fates), img, inB, tail, hist, a)
  {
    forall fates | |fates| == |s.pending|
      ensures DiskInv(Crashed(s, fates), img, inB, tail, hist, a)
      ensures Recoverable(Crashed(s, fates), Promise(hist, a, img, None))
    {
      CrashKeeps(s, fates, img, inB, tail, hist, a);
    }
  }

  lemma {:induction false} CrashKeeps(s: DevState, fates: seq<Fate>, img: Image, inB: bool, tail: nat, hist: seq<WalOp>,
                                      a: set<WalOp>)
    requires DiskInv(s.durable, img, inB, tail, hist, a) && PendingSafe(s, img) && |fates| == |s.pending|
    requires AttemptsOk(a, img.table)
    ensures DiskInv(Crashed(s, fates), img, inB, tail, hist, a)
    ensures Recoverable(Crashed(s, fates), Promise(hist, a, img, None))
  {
    hide ImageOk, SlotsAt, IndexAt, ObjectsAt, Covered, RingInv, Spares, AllPlain, ChunkSafe, Crashed;
    assert RowsOk(img.index) && |s.durable| >= ChunkOff(img.sb.walLen) by { ImageRows(img, |s.durable|); }
    CrashSpares(s, fates, img, 0, []);
    CrashRingQuiet(s, fates, img);
    Carry(s.durable, Crashed(s, fates), img, inB, tail, hist, a, tail, hist, a);
  }

  /** What an append needs: the record fits the free space of the ring. */
  ghost predicate CanAppend(img: Image, hist: seq<WalOp>, op: WalOp) {
    && Loggable(op) && Plain(op) && RefKnown(img.table, op.ref) && |hist| + 2 < U64
    && 1 <= img.sb.walNextSeq <= |hist| + 1
    && LogLen(hist[img.sb.walNextSeq - 1..]) + RecLen(op) <= img.sb.walLen
  }

  /** While a record is being appended: the log as it was, or one whole record more. */
  lemma {:induction false} SafeAppend(s: DevState, img: Image, inB: bool, tail: nat, hist: seq<WalOp>, a: set<WalOp>,
                                      op: WalOp)
    requires DiskInv(s.durable, img, inB, tail, hist, a) && CanAppend(img, hist, op)
    requires PendingAppend(s, img, tail, EncodeRecord(op, |hist| + 1))
    requires AttemptsOk(a, img.table)
    ensures CrashSafe(s, Promise(hist, a + {op}, img, None))
  {
    forall fates | |fates| == |s.pending|
      ensures Recoverable(Crashed(s, fates), Promise(hist, a + {op}, img, None))
    {
      CrashAppends(s, fates, img, inB, tail, hist, a, op);
    }
  }

  lemma {:induction false} CrashAppends(s: DevState, fates: seq<Fate>, img: Image, inB: bool, tail: nat,
                                        hist: seq<WalOp>, a: set<WalOp>, op: WalOp)
    requires DiskInv(s.durable, img, inB, tail, hist, a) && CanAppend(img, hist, op)
    requires PendingAppend(s, img, tail, EncodeRecord(op, |hist| + 1)) && |fates| == |s.pending|
    requires AttemptsOk(a, img.table)
    ensures Recoverable(Crashed(s, fates), Promise(hist, a + {op}, img, None))
  {
    hide ImageOk, SlotsAt, IndexAt, ObjectsAt, Covered, RingInv, Spares, Plain, ChunkSafe, WalPiece, Crashed,
      LogLen, RecLen, EncodeRecord, Rot, Mixed, Loggable, RefKnown;
    ImageRows(img, |s.durable|);
    var w, d' := WalRegion(s.durable, img.sb.walLen), Crashed(s, fates);
    var rec := EncodeRecord(op, |hist| + 1);
    var head, next := img.sb.walHead, img.sb.walNextSeq;
    TailInRing(w, head, next, tail, hist, a);
    CrashSpares(s, fates, img, tail, rec);
    CrashRing(s, fates, img, tail, rec);
    RingTorn(w, WalRegion(d', img.sb.walLen), head, next, tail, hist, a, op);
    if RingInv(WalRegion(d', img.sb.walLen), head, next, tail, hist, a + {op}) {
      Carry(s.durable, d', img, inB, tail, hist, a, tail, hist, a + {op});
    } else {
      var x :| x in a + {op} && RingInv(WalRegion(d', img.sb.walLen), head, next, Wrap(tail + RecLen(x), |w|),
                                        hist + [x], {});
      CoverOp(img.table, next - 1, hist, x);
      Carry(s.durable, d', img, inB, tail, hist, a, Wrap(tail + RecLen(x), |w|), hist + [x], {});
    }
  }

  lemma {:induction false} CoverOp(table: RefTable, head: int, hist: seq<WalOp>, x: WalOp)
    requires Covered(table, head, hist) && AllPlain(hist) && Plain(x) && RefKnown(table, x.ref)
    ensures Covered(table, head, hist + [x]) && AllPlain(hist + [x])
  {
    hide Plain, Covered;
    CoveredGrows(table, head, hist, x);
  }

  lemma {:induction false} TailInRing(w: seq<Cell>, head: nat, next: nat, tail: nat, hist: seq<WalOp>, a: set<WalOp>)
    requires RingInv(w, head, next, tail, hist, a)
    ensures tail <= |w|
  {
    hide RingView, Rot, LogLen;
  }

  /** When the record's flush returns, the record is part of the log. */
  lemma {:induction false} AppendLands(d: seq<Cell>, d': seq<Cell>, img: Image, inB: bool, tail: nat, hist: seq<WalOp>,
                                       a: set<WalOp>, op: WalOp)
    requires DiskInv(d, img, inB, tail, hist, a) && CanAppend(img, hist, op) && Spares(d, d', img)
    requires tail <= img.sb.walLen
    requires Rot(WalRegion(d', img.sb.walLen), tail)
             == EncodeRecord(op, |hist| + 1) + Rot(WalRegion(d, img.sb.walLen), tail)[RecLen(op)..]
    ensures DiskInv(d', img, inB, Wrap(tail + RecLen(op), img.sb.walLen), hist + [op], {})
  {
    hide ImageOk, SlotsAt, IndexAt, ObjectsAt, Covered, RingInv, Spares, Plain, LogLen, RecLen, EncodeRecord, Rot,
      Loggable, RefKnown;
    ImageRows(img, |d|);
    SameLength(d, d', img);
    RingAppend(WalRegion(d, img.sb.walLen), WalRegion(d', img.sb.walLen), img.sb.walHead, img.sb.walNextSeq, tail,
               hist, a, op);
    CoverOp(img.table, img.sb.walNextSeq - 1, hist, op);
    Carry(d, d', img, inB, tail, hist, a, Wrap(tail + RecLen(op), img.sb.walLen), hist + [op], {});
  }

  // ── The flip ──

  /** After barrier 1 the disk holds everything the next commit `next` refers to; only its
      superblock is missing. */
  ghost predicate FlipReady(d: seq<Cell>, img: Image, next: Image, tail: nat, hist: seq<WalOp>, a: set<WalOp>) {
    && ImageOk(next, |d|)
    && next.sb.generation == img.sb.generation + 1 && next.sb.walLen == img.sb.walLen
    && IndexAt(d, next)
    && ObjectsAt(d, ChunkOff(next.sb.walLen), next.index)
    && RingInv(WalRegion(d, next.sb.walLen), next.sb.walHead, next.sb.walNextSeq, tail, hist, a)
    && Covered(next.table, next.sb.walNextSeq - 1, hist)
  }

  lemma {:induction false} FlipSpares(d: seq<Cell>, d': seq<Cell>, img: Image)
    requires RowsOk(img.index) && |d'| == |d| && forall p :: WAL_OFF <= p < |d| ==> d'[p] == d[p]
    requires ChunkOff(img.sb.walLen) <= |d|
    requires IndexAt(d, img) && ObjectsAt(d, ChunkOff(img.sb.walLen), img.index)
    ensures IndexAt(d', img) && ObjectsAt(d', ChunkOff(img.sb.walLen), img.index)
    ensures WalRegion(d', img.sb.walLen) == WalRegion(d, img.sb.walLen)
  {
    var o, n, co := ChunkOff(img.sb.walLen) + img.sb.indexOff, IndexExtent(img).len, ChunkOff(img.sb.walLen);
    assert d'[o..o + n] == d[o..o + n];
    forall i | 0 <= i < |img.index|
      ensures ObjectAt(d', co, img.index[i])
    {
      assert ObjectAt(d, co, img.index[i]);
      var r := img.index[i];
      assert d'[co + r.off..co + r.off + r.len] == d[co + r.off..co + r.off + r.len];
    }
  }

  lemma {:induction false} OverwriteSlice(d: seq<Cell>, off: nat, data: seq<Cell>, n: nat)
    requires off + n <= |d| && |data| <= n
    ensures Overwrite(d, off, data)[off..off + n] == data + d[off..off + n][|data|..]
  {
  }

  /** The slot being written carries the new superblock or stays outdated; the other is untouched. */
  lemma {:induction false} FlipSlots(d: seq<Cell>, d': seq<Cell>, sb: Sb, sb': Sb, inB: bool, k: nat)
    requires SlotsAt(d, sb, inB) && Superblock.Fits(sb) && Superblock.Fits(sb') && sb'.generation == sb.generation + 1
    requires k <= Superblock.SB_SIZE
    requires d' == Overwrite(d, SlotOff(!inB), Superblock.Encode(sb')[..k])
    ensures SlotsAt(d', sb, inB) || SlotsAt(d', sb', !inB)
    ensures k == Superblock.SB_SIZE ==> SlotsAt(d', sb', !inB)
    ensures forall p :: WAL_OFF <= p < |d| ==> d'[p] == d[p]
  {
    hide Superblock.Carries, Superblock.Outdated, Superblock.Encode, Superblock.Fits;
    var e := Superblock.Encode(sb');
    assert Slot(d', inB) == Slot(d, inB);
    OverwriteSlice(d, SlotOff(!inB), e[..k], Superblock.SB_SIZE);
    assert Slot(d', !inB) == e[..k] + Slot(d, !inB)[k..];
    Superblock.TornSlot(Slot(d, !inB), sb.generation, sb', k);
    Superblock.EncodedGeneration(Slot(d, inB), sb);
    if k == Superblock.SB_SIZE {
      assert Slot(d', !inB) == e;
      WholeSlot(sb');
    }
  }

  lemma {:induction false} WholeSlot(sb: Sb)
    ensures Superblock.Carries(Superblock.Encode(sb), sb)
  {
    hide Superblock.Body;
  }

  lemma {:induction false} FlipStays(d: seq<Cell>, d': seq<Cell>, img: Image, inB: bool, tail: nat, hist: seq<WalOp>,
                                     a: set<WalOp>)
    requires DiskInv(d, img, inB, tail, hist, a) && |d'| == |d|
    requires forall p :: WAL_OFF <= p < |d| ==> d'[p] == d[p]
    requires SlotsAt(d', img.sb, inB)
    ensures DiskInv(d', img, inB, tail, hist, a)
  {
    hide SlotsAt, IndexAt, ObjectsAt, Covered, RingInv, AllPlain, IndexFits, TableFits, Hashes, RootsIn, Tiled;
    FlipSpares(d, d', img);
  }

  lemma {:induction false} FlipLands(d: seq<Cell>, d': seq<Cell>, img: Image, next: Image, inB: bool, tail: nat,
                                     hist: seq<WalOp>, a: set<WalOp>)
    requires FlipReady(d, img, next, tail, hist, a) && AllPlain(hist) && |d'| == |d|
    requires forall p :: WAL_OFF <= p < |d| ==> d'[p] == d[p]
    requires SlotsAt(d', next.sb, inB)
    ensures DiskInv(d', next, inB, tail, hist, a)
  {
    hide SlotsAt, IndexAt, ObjectsAt, Covered, RingInv, AllPlain, IndexFits, TableFits, Hashes, RootsIn, Tiled;
    FlipSpares(d, d', next);
  }

  /** The disk stands for the last commit, whole, or for the next one, whole. */
  ghost predicate OneOrOther(d: seq<Cell>, img: Image, next: Image, inB: bool, tail: nat, tail': nat, hist: seq<WalOp>,
                             a: set<WalOp>, a': set<WalOp>) {
    DiskInv(d, img, inB, tail, hist, a) || DiskInv(d, next, !inB, tail', hist, a')
  }

  /** While the superblock is being written, mount finds the last commit or the new one. */
  lemma {:induction false} SafeFlip(d: seq<Cell>, img: Image, next: Image, inB: bool, tail: nat, tail': nat,
                                    hist: seq<WalOp>, a: set<WalOp>, a': set<WalOp>)
    requires DiskInv(d, img, inB, tail, hist, a) && FlipReady(d, img, next, tail', hist, a') && a' <= a
    requires AttemptsOk(a, img.table) && AttemptsOk(a', next.table)
    ensures CrashSafe(DevState(d, [PWrite(SlotOff(!inB), Superblock.Encode(next.sb))]),
                      Promise(hist, a, img, Some(next)))
    ensures forall fates :: |fates| == 1 ==>
              OneOrOther(Crashed(DevState(d, [PWrite(SlotOff(!inB), Superblock.Encode(next.sb))]), fates),
                         img, next, inB, tail, tail', hist, a, a')
  {
    hide ImageOk, IndexAt, ObjectsAt, Covered, RingInv, AllPlain, Superblock.Encode, Superblock.Carries,
      Superblock.Outdated, Crashed;
    var s := DevState(d, [PWrite(SlotOff(!inB), Superblock.Encode(next.sb))]);
    assert WellFormed(s);
    forall fates | |fates| == |s.pending|
      ensures Recoverable(Crashed(s, fates), Promise(hist, a, img, Some(next)))
      ensures OneOrOther(Crashed(s, fates), img, next, inB, tail, tail', hist, a, a')
    {
      CrashFlips(s, fates, img, next, inB, tail, tail', hist, a, a');
    }
  }

  lemma {:induction false} CrashFlips(s: DevState, fates: seq<Fate>, img: Image, next: Image, inB: bool, tail: nat,
                                      tail': nat, hist: seq<WalOp>, a: set<WalOp>, a': set<WalOp>)
    requires DiskInv(s.durable, img, inB, tail, hist, a) && FlipReady(s.durable, img, next, tail', hist, a') && a' <= a
    requires AttemptsOk(a, img.table) && AttemptsOk(a', next.table)
    requires WellFormed(s) && s.pending == [PWrite(SlotOff(!inB), Superblock.Encode(next.sb))] && |fates| == 1
    ensures Recoverable(Crashed(s, fates), Promise(hist, a, img, Some(next)))
    ensures OneOrOther(Crashed(s, fates), img, next, inB, tail, tail', hist, a, a')
  {
    hide IndexAt, ObjectsAt, Covered, RingInv, AllPlain, SlotsAt, Superblock.Encode;
    var d, d' := s.durable, Crashed(s, fates);
    var k := |Survives(s.pending[0].data, fates[0])|;
    OneWrite(s, fates);
    assert Superblock.Fits(img.sb) && Superblock.Fits(next.sb);
    FlipSlots(d, d', img.sb, next.sb, inB, k);
    if SlotsAt(d', img.sb, inB) {
      FlipStays(d, d', img, inB, tail, hist, a);
    } else {
      FlipLands(d, d', img, next, !inB, tail', hist, a');
    }
  }

  lemma {:induction false} OneWrite(s: DevState, fates: seq<Fate>)
    requires WellFormed(s) && |s.pending| == |fates| == 1
    ensures var w := s.pending[0]; var k := |Survives(w.data, fates[0])|;
            k <= |w.data| && w.off + |w.data| <= |s.durable| &&
              Crashed(s, fates) == Overwrite(s.durable, w.off, w.data[..k])
  {
    assert InRange(|s.durable|, s.pending[0]);
    assert Resolve(s, fates, 0) == s.durable;
    assert Survives(s.pending[0].data, fates[0]) == s.pending[0].data[..|Survives(s.pending[0].data, fates[0])|];
  }
}
