/** Appending a log record, step by step on values: one write, or two when the record wraps around the
    end of the ring, then a single flush. */
module AppendStep {
  import opened Cells
  import opened WalCodec
  import opened WalLog
  import opened Ring
  import opened Device
  import opened ChunkIndex
  import opened RefTables
  import opened History
  import opened Durable
  import opened CrashSafety

  /** The ring as the two writes leave it. */
  function RecordWritten(d: seq<Cell>, walLen: nat, tail: nat, rec: seq<Cell>): (d': seq<Cell>)
    requires ChunkOff(walLen) <= |d| && tail <= walLen && |rec| <= walLen
    ensures |d'| == |d|
  {
    if tail + |rec| <= walLen then Overwrite(d, WAL_OFF + tail, rec)
    else Overwrite(Overwrite(d, WAL_OFF + tail, rec[..walLen - tail]), WAL_OFF, rec[walLen - tail..])
  }

  lemma {:induction false} FirstPiece(walLen: nat, tail: nat, rec: seq<Cell>, k: nat)
    requires k <= |rec| && tail + k <= walLen
    ensures WalPiece(PWrite(WAL_OFF + tail, rec[..k]), walLen, tail, rec)
  {
  }

  lemma {:induction false} SecondPiece(walLen: nat, tail: nat, rec: seq<Cell>)
    requires tail <= walLen && |rec| <= walLen && tail + |rec| > walLen
    ensures WalPiece(PWrite(WAL_OFF, rec[walLen - tail..]), walLen, tail, rec)
  {
  }

  lemma {:induction false} PieceAdded(s: DevState, img: Image, tail: nat, rec: seq<Cell>, w: PWrite)
    requires RowsOk(img.index) && PendingAppend(s, img, tail, rec) && WalPiece(w, img.sb.walLen, tail, rec)
    requires ChunkOff(img.sb.walLen) <= |s.durable|
    ensures PendingAppend(Written(s, w.off, w.data), img, tail, rec)
  {
    hide ChunkSafe, WalPiece;
    assert w.off + |w.data| <= |s.durable| by {
      PieceInside(w, img.sb.walLen, tail, rec);
    }
  }

  lemma {:induction false} PieceInside(w: PWrite, walLen: nat, tail: nat, rec: seq<Cell>)
    requires WalPiece(w, walLen, tail, rec)
    ensures w.off + |w.data| <= ChunkOff(walLen)
  {
  }

  /** Seen from the tail, the record comes first and the rest is as it was. */
  lemma {:induction false} RingWritten(d: seq<Cell>, walLen: nat, tail: nat, rec: seq<Cell>)
    requires ChunkOff(walLen) <= |d| && tail <= walLen && |rec| <= walLen
    ensures var d' := RecordWritten(d, walLen, tail, rec);
            Rot(WalRegion(d', walLen), tail) == rec + Rot(WalRegion(d, walLen), tail)[|rec|..]
  {
    hide RecordWritten;
    var d' := RecordWritten(d, walLen, tail, rec);
    var u, u' := Rot(WalRegion(d, walLen), tail), Rot(WalRegion(d', walLen), tail);
    forall j | 0 <= j < walLen
      ensures u'[j] == if j < |rec| then rec[j] else u[j]
    {
      CellWritten(d, walLen, tail, rec, j);
    }
  }

  lemma {:induction false} CellWritten(d: seq<Cell>, walLen: nat, tail: nat, rec: seq<Cell>, j: nat)
    requires ChunkOff(walLen) <= |d| && tail <= walLen && |rec| <= walLen && j < walLen
    ensures var q := WAL_OFF + Wrap(tail + j, walLen);
            RecordWritten(d, walLen, tail, rec)[q] == if j < |rec| then rec[j] else d[q]
  {
  }

  lemma {:induction false} RecordElsewhere(d: seq<Cell>, walLen: nat, tail: nat, rec: seq<Cell>)
    requires ChunkOff(walLen) <= |d| && tail <= walLen && |rec| <= walLen
    ensures forall p :: ChunkOff(walLen) <= p < |d| ==> RecordWritten(d, walLen, tail, rec)[p] == d[p]
  {
  }

  lemma {:induction false} ObjectsElsewhere(d: seq<Cell>, d': seq<Cell>, co: nat, rows: seq<IndexRow>)
    requires ObjectsAt(d, co, rows) && |d'| == |d| && forall p :: co <= p < |d| ==> d'[p] == d[p]
    ensures ObjectsAt(d', co, rows)
  {
    forall i | 0 <= i < |rows|
      ensures ObjectAt(d', co, rows[i])
    {
      assert ObjectAt(d, co, rows[i]);
      var r := rows[i];
      assert d'[co + r.off..co + r.off + r.len] == d[co + r.off..co + r.off + r.len];
    }
  }

  lemma {:induction false} QuietIsAppend(s: DevState, img: Image, tail: nat, rec: seq<Cell>)
    requires RowsOk(img.index) && PendingSafe(s, img)
    ensures PendingAppend(s, img, tail, rec)
  {
    hide ChunkSafe, WalPiece;
  }

  /** What the flush makes durable: `s1` is the device after the record's writes, `s` before them. */
  lemma {:induction false} AppendFlushed(s: DevState, s1: DevState, img: Image, tail: nat, rec: seq<Cell>)
    requires RowsOk(img.index) && PendingSafe(s, img) && PendingAppend(s1, img, tail, rec) && s1.durable == s.durable
    requires ChunkOff(img.sb.walLen) <= |s.durable| && tail <= img.sb.walLen && |rec| <= img.sb.walLen
    requires Current(s1) == RecordWritten(Current(s), img.sb.walLen, tail, rec)
    ensures Spares(s.durable, Current(s1), img)
    ensures Rot(WalRegion(Current(s1), img.sb.walLen), tail)
            == rec + Rot(WalRegion(s.durable, img.sb.walLen), tail)[|rec|..]
  {
    hide PendingSafe, PendingAppend, Spares, RecordWritten, Crashed;
    assert WellFormed(s) && WellFormed(s1) by {
      BothFormed(s, s1, img, tail, rec);
    }
    CrashSpares(s1, AllKept(|s1.pending|), img, tail, rec);
    CrashRingQuiet(s, AllKept(|s.pending|), img);
    RingWritten(Current(s), img.sb.walLen, tail, rec);
  }

  lemma {:induction false} BothFormed(s: DevState, s1: DevState, img: Image, tail: nat, rec: seq<Cell>)
    requires RowsOk(img.index) && PendingSafe(s, img) && PendingAppend(s1, img, tail, rec)
    ensures WellFormed(s) && WellFormed(s1)
  {
  }

  /** What the append starts from. */
  ghost predicate Appendable(s: DevState, img: Image, inB: bool, tail: nat, hist: seq<WalOp>, a: set<WalOp>, op: WalOp)
  {
    && WellFormed(s) && RowsOk(img.index) && DiskInv(s.durable, img, inB, tail, hist, a) && PendingSafe(s, img)
    && CanAppend(img, hist, op) && AttemptsOk(a, img.table)
  }

  /** The last state before the flush, and the flush. */
  lemma {:induction false} AppendDone(s: DevState, s1: DevState, img: Image, inB: bool, tail: nat, hist: seq<WalOp>,
                                      a: set<WalOp>, op: WalOp)
    requires Appendable(s, img, inB, tail, hist, a, op) && WellFormed(s1) && s1.durable == s.durable
    requires ChunkOff(img.sb.walLen) <= |s.durable| && tail <= img.sb.walLen &&
             |EncodeRecord(op, |hist| + 1)| <= img.sb.walLen
    requires PendingAppend(s1, img, tail, EncodeRecord(op, |hist| + 1))
    requires Current(s1) == RecordWritten(Current(s), img.sb.walLen, tail, EncodeRecord(op, |hist| + 1))
    ensures CrashSafe(s1, Promise(hist, a + {op}, img, None))
    ensures CrashSafe(Flushed(s1), Promise(hist + [op], {}, img, None))
    ensures DiskInv(Current(s1), img, inB, Wrap(tail + RecLen(op), img.sb.walLen), hist + [op], {})
  {
    hide DiskInv, PendingSafe, PendingAppend, CrashSafe, CanAppend, Spares, RecordWritten, Rot, Current, EncodeRecord,
      RecLen, AttemptsOk, RowsOk, Wrap;
    SafeAppend(s1, img, inB, tail, hist, a, op);
    AppendFlushed(s, s1, img, tail, EncodeRecord(op, |hist| + 1));
    AppendLands(s.durable, Current(s1), img, inB, tail, hist, a, op);
    QuietPending(Current(s1), img);
    NoAttempts(img.table);
    SafeChunks(Flushed(s1), img, inB, Wrap(tail + RecLen(op), img.sb.walLen), hist + [op], {});
  }

  lemma {:induction false} NoAttempts(table: RefTable)
    ensures AttemptsOk({}, table)
  {
  }

  /** The record fits before the end of the ring: one write. */
  lemma {:induction false} AppendWhole(s: DevState, img: Image, inB: bool, tail: nat, hist: seq<WalOp>, a: set<WalOp>,
                                       op: WalOp, rec: seq<Cell>, s1: DevState)
    requires WellFormed(s) && ChunkOff(img.sb.walLen) <= |s.durable| && tail + |rec| <= img.sb.walLen
    requires s1 == Written(s, WAL_OFF + tail, rec) && rec == EncodeRecord(op, |hist| + 1)
    requires Appendable(s, img, inB, tail, hist, a, op)
    ensures CrashSafe(s1, Promise(hist, a + {op}, img, None))
    ensures CrashSafe(Flushed(s1), Promise(hist + [op], {}, img, None))
    ensures DiskInv(Current(s1), img, inB, Wrap(tail + RecLen(op), img.sb.walLen), hist + [op], {})
    ensures forall p :: ChunkOff(img.sb.walLen) <= p < |s.durable| ==> Current(s1)[p] == Current(s)[p]
  {
    hide DiskInv, PendingSafe, PendingAppend, CrashSafe, CanAppend, Current, EncodeRecord, RecLen, AttemptsOk, RowsOk,
      Wrap, WalPiece, Overwrite;
    FirstPiece(img.sb.walLen, tail, rec, |rec|);
    assert rec[..|rec|] == rec;
    QuietIsAppend(s, img, tail, rec);
    PieceAdded(s, img, tail, rec, PWrite(WAL_OFF + tail, rec));
    CurrentWritten(s, WAL_OFF + tail, rec);
    RecordElsewhere(Current(s), img.sb.walLen, tail, rec);
    AppendDone(s, s1, img, inB, tail, hist, a, op);
  }

  /** The record wraps: two writes, and no flush between them. */
  lemma {:induction false} AppendSplit(s: DevState, img: Image, inB: bool, tail: nat, hist: seq<WalOp>, a: set<WalOp>,
                                       op: WalOp, rec: seq<Cell>, s1: DevState, s2: DevState)
    requires WellFormed(s) && ChunkOff(img.sb.walLen) <= |s.durable|
    requires tail <= img.sb.walLen < tail + |rec| && |rec| <= img.sb.walLen
    requires s1 == Written(s, WAL_OFF + tail, rec[..img.sb.walLen - tail])
    requires s2 == Written(s1, WAL_OFF, rec[img.sb.walLen - tail..]) && rec == EncodeRecord(op, |hist| + 1)
    requires Appendable(s, img, inB, tail, hist, a, op)
    ensures CrashSafe(s1, Promise(hist, a + {op}, img, None)) && CrashSafe(s2, Promise(hist, a + {op}, img, None))
    ensures CrashSafe(Flushed(s2), Promise(hist + [op], {}, img, None))
    ensures DiskInv(Current(s2), img, inB, Wrap(tail + RecLen(op), img.sb.walLen), hist + [op], {})
    ensures forall p :: ChunkOff(img.sb.walLen) <= p < |s.durable| ==> Current(s2)[p] == Current(s)[p]
  {
    hide DiskInv, PendingSafe, PendingAppend, CrashSafe, CanAppend, Current, EncodeRecord, RecLen, AttemptsOk, RowsOk,
      Wrap, WalPiece, Overwrite;
    var k := img.sb.walLen - tail;
    FirstPiece(img.sb.walLen, tail, rec, k);
    SecondPiece(img.sb.walLen, tail, rec);
    QuietIsAppend(s, img, tail, rec);
    PieceAdded(s, img, tail, rec, PWrite(WAL_OFF + tail, rec[..k]));
    SafeAppend(s1, img, inB, tail, hist, a, op);
    PieceAdded(s1, img, tail, rec, PWrite(WAL_OFF, rec[k..]));
    CurrentWritten(s, WAL_OFF + tail, rec[..k]);
    CurrentWritten(s1, WAL_OFF, rec[k..]);
    RecordElsewhere(Current(s), img.sb.walLen, tail, rec);
    AppendDone(s, s2, img, inB, tail, hist, a, op);
  }
}
