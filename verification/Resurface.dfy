/** Records lost in one crash that come back in a later one, although another record was in flight then: exactly
    when, and how two crashes bring it about. */
module Resurface {
  import opened Cells
  import opened WalCodec
  import opened WalLog
  import opened Ring
  import opened Device
  import opened ChunkIndex
  import opened RefTables
  import opened History
  import opened Durable
  import opened CrashSafety
  import opened AppendStep

  // ── A torn append, seen from the tail ──

  /** The cells of a record that a crash keeps: a prefix of each of its writes, the second starting at `k`. */
  predicate Kept(k: nat, j1: nat, j2: nat, i: nat) {
    i < j1 || k <= i < k + j2
  }

  function Resolved(u: seq<Cell>, rec: seq<Cell>, k: nat, j1: nat, j2: nat): (r: seq<Cell>)
    requires j1 <= k && k + j2 <= |rec| <= |u|
    ensures |r| == |u| && forall i :: 0 <= i < |u| ==> r[i] == if Kept(k, j1, j2, i) then rec[i] else u[i]
  {
    seq(|u|, i requires 0 <= i < |u| => if Kept(k, j1, j2, i) then rec[i] else u[i])
  }

  /** The device while a record is being appended at ring offset `tail`. */
  function InFlight(d: seq<Cell>, walLen: nat, tail: nat, rec: seq<Cell>): (s: DevState)
    requires ChunkOff(walLen) <= |d| && tail <= walLen && |rec| <= walLen
    ensures WellFormed(s) && s.durable == d
  {
    if tail + |rec| <= walLen then DevState(d, [PWrite(WAL_OFF + tail, rec)])
    else DevState(d, [PWrite(WAL_OFF + tail, rec[..walLen - tail]), PWrite(WAL_OFF, rec[walLen - tail..])])
  }

  /** Where the first write ends. */
  function SplitAt(walLen: nat, tail: nat, rec: seq<Cell>): nat
    requires tail <= walLen
  {
    if tail + |rec| <= walLen then |rec| else walLen - tail
  }

  function Seen(d: seq<Cell>, walLen: nat, tail: nat): seq<Cell>
    requires ChunkOff(walLen) <= |d| && tail <= walLen
  {
    Rot(WalRegion(d, walLen), tail)
  }

  lemma {:induction false} OneTorn(d: seq<Cell>, walLen: nat, tail: nat, rec: seq<Cell>, f: Fate)
    requires ChunkOff(walLen) <= |d| && tail + |rec| <= walLen
    ensures var j := |Survives(rec, f)|;
            Seen(Crashed(InFlight(d, walLen, tail, rec), [f]), walLen, tail) ==
            Resolved(Seen(d, walLen, tail), rec, |rec|, j, 0)
  {
    hide Crashed, Seen, Overwrite;
    var s, j := InFlight(d, walLen, tail, rec), |Survives(rec, f)|;
    OneWrite(s, [f]);
    var d' := Crashed(s, [f]);
    SeenLength(d, walLen, tail);
    SeenLength(d', walLen, tail);
    forall i | 0 <= i < walLen
      ensures Seen(d', walLen, tail)[i] == Resolved(Seen(d, walLen, tail), rec, |rec|, j, 0)[i]
    {
      SeenCell(d, walLen, tail, i);
      SeenCell(d', walLen, tail, i);
      OneCell(d, walLen, tail, rec, j, i);
    }
  }

  lemma {:induction false} OneCell(d: seq<Cell>, walLen: nat, tail: nat, rec: seq<Cell>, j: nat, i: nat)
    requires ChunkOff(walLen) <= |d| && tail + |rec| <= walLen && i < walLen && j <= |rec|
    ensures Overwrite(d, WAL_OFF + tail, rec[..j])[WAL_OFF + Wrap(tail + i, walLen)] ==
            if i < j then rec[i] else d[WAL_OFF + Wrap(tail + i, walLen)]
  {
  }

  lemma {:induction false} TwoWrites(d: seq<Cell>, v: PWrite, w: PWrite, f: Fate, g: Fate)
    requires v.off + |v.data| <= |d| && w.off + |w.data| <= |d|
    ensures var s := DevState(d, [v, w]);
            && WellFormed(s)
            && Crashed(s, [f, g]) == Overwrite(Overwrite(d, v.off, Survives(v.data, f)), w.off, Survives(w.data, g))
  {
    hide Survives, Overwrite;
    var s := DevState(d, [v, w]);
    assert Resolve(s, [f, g], 0) == d;
    assert Resolve(s, [f, g], 1) == Overwrite(d, v.off, Survives(v.data, f));
  }

  /** Two overwrites of the ring, cell by cell from the tail. */
  lemma {:induction false} TwoCells(d: seq<Cell>, walLen: nat, tail: nat, rec: seq<Cell>, a: seq<Cell>, b: seq<Cell>,
                                    i: nat)
    requires ChunkOff(walLen) <= |d| && tail <= walLen < tail + |rec| && |rec| <= walLen && i < walLen
    requires a <= rec[..walLen - tail] && b <= rec[walLen - tail..]
    ensures Overwrite(Overwrite(d, WAL_OFF + tail, a), WAL_OFF, b)[WAL_OFF + Wrap(tail + i, walLen)] ==
            if Kept(walLen - tail, |a|, |b|, i) then rec[i] else d[WAL_OFF + Wrap(tail + i, walLen)]
  {
  }

  lemma {:induction false} SeenCell(d: seq<Cell>, walLen: nat, tail: nat, i: nat)
    requires ChunkOff(walLen) <= |d| && tail <= walLen && i < walLen
    ensures |Seen(d, walLen, tail)| == walLen && Seen(d, walLen, tail)[i] == d[WAL_OFF + Wrap(tail + i, walLen)]
  {
  }

  lemma {:induction false} TwoTorn(d: seq<Cell>, walLen: nat, tail: nat, rec: seq<Cell>, f: Fate, g: Fate)
    requires ChunkOff(walLen) <= |d| && tail <= walLen < tail + |rec| && |rec| <= walLen
    ensures var k := walLen - tail; var j1, j2 := |Survives(rec[..k], f)|, |Survives(rec[k..], g)|;
            Seen(Crashed(InFlight(d, walLen, tail, rec), [f, g]), walLen, tail) ==
            Resolved(Seen(d, walLen, tail), rec, k, j1, j2)
  {
    hide Crashed, Survives, Overwrite, Seen;
    var k := walLen - tail;
    var a, b := Survives(rec[..k], f), Survives(rec[k..], g);
    TwoWrites(d, PWrite(WAL_OFF + tail, rec[..k]), PWrite(WAL_OFF, rec[k..]), f, g);
    var d' := Crashed(InFlight(d, walLen, tail, rec), [f, g]);
    SeenLength(d, walLen, tail);
    SeenLength(d', walLen, tail);
    forall i | 0 <= i < walLen
      ensures Seen(d', walLen, tail)[i] == Resolved(Seen(d, walLen, tail), rec, k, |a|, |b|)[i]
    {
      SeenCell(d, walLen, tail, i);
      SeenCell(d', walLen, tail, i);
      TwoCells(d, walLen, tail, rec, a, b, i);
    }
  }

  /** Every crash resolves the append somehow. */
  lemma {:induction false} CrashResolves(d: seq<Cell>, walLen: nat, tail: nat, rec: seq<Cell>, fates: seq<Fate>)
    returns (j1: nat, j2: nat)
    requires ChunkOff(walLen) <= |d| && tail <= walLen && |rec| <= walLen
    requires |fates| == |InFlight(d, walLen, tail, rec).pending|
    ensures j1 <= SplitAt(walLen, tail, rec) && SplitAt(walLen, tail, rec) + j2 <= |rec|
    ensures Seen(Crashed(InFlight(d, walLen, tail, rec), fates), walLen, tail) ==
            Resolved(Seen(d, walLen, tail), rec, SplitAt(walLen, tail, rec), j1, j2)
  {
    hide Crashed, Seen, Resolved;
    var k := SplitAt(walLen, tail, rec);
    if tail + |rec| <= walLen {
      assert fates == [fates[0]];
      OneTorn(d, walLen, tail, rec, fates[0]);
      j1, j2 := |Survives(rec, fates[0])|, 0;
    } else {
      assert fates == [fates[0], fates[1]];
      TwoTorn(d, walLen, tail, rec, fates[0], fates[1]);
      j1, j2 := |Survives(rec[..k], fates[0])|, |Survives(rec[k..], fates[1])|;
    }
  }

  /** And every way to resolve it is some crash. */
  lemma {:induction false} ResolvedByCrash(d: seq<Cell>, walLen: nat, tail: nat, rec: seq<Cell>, j1: nat, j2: nat)
    returns (fates: seq<Fate>)
    requires ChunkOff(walLen) <= |d| && tail <= walLen && |rec| <= walLen
    requires j1 <= SplitAt(walLen, tail, rec) && SplitAt(walLen, tail, rec) + j2 <= |rec|
    ensures |fates| == |InFlight(d, walLen, tail, rec).pending|
    ensures Seen(Crashed(InFlight(d, walLen, tail, rec), fates), walLen, tail) ==
            Resolved(Seen(d, walLen, tail), rec, SplitAt(walLen, tail, rec), j1, j2)
  {
    hide Crashed, Seen, Resolved;
    var k := SplitAt(walLen, tail, rec);
    if tail + |rec| <= walLen {
      fates := [Torn(j1)];
      OneTorn(d, walLen, tail, rec, Torn(j1));
      TornKeeps(rec, j1);
    } else {
      fates := [Torn(j1), Torn(j2)];
      TwoTorn(d, walLen, tail, rec, Torn(j1), Torn(j2));
      TornKeeps(rec[..k], j1);
      TornKeeps(rec[k..], j2);
    }
  }

  lemma {:induction false} TornKeeps(data: seq<Cell>, j: nat)
    requires j <= |data|
    ensures |Survives(data, Torn(j))| == j
  {
    assert j % (|data| + 1) == j;
  }

  // ── Exactly when ──

  /** Different records have different checksums, in every cell. */
  lemma {:induction false} SumsDiffer(op: WalOp, lost: WalOp, s: nat, i: nat)
    requires op != lost && Loggable(op) && Loggable(lost) && 16 <= i < WAL_HEADER
    ensures EncodeRecord(op, s)[i] != EncodeRecord(lost, s)[i]
  {
    hide EncodePayload, Le, Summed, Fits;
    var a, b := EncodeRecord(op, s), EncodeRecord(lost, s);
    RecordLayout(op, s, []);
    RecordLayout(lost, s, []);
    assert a + [] == a && b + [] == b;
    assert a[i] == a[16..WAL_HEADER][i - 16] == Dig(Of(Summed(op, s)), i - 16);
    assert b[i] == b[16..WAL_HEADER][i - 16] == Dig(Of(Summed(lost, s)), i - 16);
    if Summed(op, s) == Summed(lost, s) {
      SummedParts(op, s);
      SummedParts(lost, s);
      LowLift(EncodePayload(op));
      LowLift(EncodePayload(lost));
      PayloadRoundTrip(op);
      PayloadRoundTrip(lost);
    }
  }

  /** A kept part of the append that makes up the lost record: it stays clear of the checksum, which is there
      already, and every other cell of the lost record is there or is set so. */
  predicate Completes(u: seq<Cell>, rec: seq<Cell>, l: seq<Cell>, k: nat, j1: nat, j2: nat) {
    && j1 <= k && k + j2 <= |rec| && WAL_HEADER <= |l| <= |u|
    && (forall i :: 16 <= i < WAL_HEADER ==> !Kept(k, j1, j2, i) && u[i] == l[i])
    && (forall i :: 0 <= i < |l| ==> if Kept(k, j1, j2, i) then i < |rec| && rec[i] == l[i] else u[i] == l[i])
  }

  lemma {:induction false} CompletesExact(u: seq<Cell>, op: WalOp, lost: WalOp, s: nat, k: nat, j1: nat, j2: nat)
    requires op != lost && Loggable(op) && Loggable(lost) && RecLen(lost) <= |u| && RecLen(op) <= |u|
    requires j1 <= k && k + j2 <= RecLen(op)
    ensures var rec, l := EncodeRecord(op, s), EncodeRecord(lost, s);
            Complete(Resolved(u, rec, k, j1, j2), s, lost) <==> Completes(u, rec, l, k, j1, j2)
  {
    hide EncodeRecord, Loggable, EncodePayload;
    var rec, l := EncodeRecord(op, s), EncodeRecord(lost, s);
    var r := Resolved(u, rec, k, j1, j2);
    if Complete(r, s, lost) {
      forall i | 0 <= i < |l|
        ensures r[i] == l[i]
      {
        assert r[..|l|][i] == l[i];
      }
      forall i | 16 <= i < WAL_HEADER
        ensures !Kept(k, j1, j2, i)
      {
        SumsDiffer(op, lost, s, i);
      }
    }
    if Completes(u, rec, l, k, j1, j2) {
      assert r[..|l|] == l;
    }
  }

  /** While `op` is being appended, some crash brings back another record `lost` of the same number if and only if
      some kept part of the append completes it. */
  lemma {:induction false} ResurfaceExact(d: seq<Cell>, walLen: nat, tail: nat, op: WalOp, lost: WalOp, s: nat)
    requires ChunkOff(walLen) <= |d| && tail <= walLen && RecLen(op) <= walLen && RecLen(lost) <= walLen
    requires op != lost && Loggable(op) && Loggable(lost)
    ensures var rec, l := EncodeRecord(op, s), EncodeRecord(lost, s);
            (exists fates :: |fates| == |InFlight(d, walLen, tail, rec).pending| &&
                             Complete(Seen(Crashed(InFlight(d, walLen, tail, rec), fates), walLen, tail), s, lost))
            <==>
            (exists j1, j2 :: Completes(Seen(d, walLen, tail), rec, l, SplitAt(walLen, tail, rec), j1, j2))
  {
    hide EncodeRecord, Loggable, Complete, Completes, Seen, Crashed, InFlight, Resolved, EncodePayload;
    var rec, l := EncodeRecord(op, s), EncodeRecord(lost, s);
    var u, k := Seen(d, walLen, tail), SplitAt(walLen, tail, rec);
    if fates :| |fates| == |InFlight(d, walLen, tail, rec).pending| &&
                Complete(Seen(Crashed(InFlight(d, walLen, tail, rec), fates), walLen, tail), s, lost) {
      var j1, j2 := CrashResolves(d, walLen, tail, rec, fates);
      SeenLength(d, walLen, tail);
      CompletesExact(u, op, lost, s, k, j1, j2);
    }
    if j1: nat, j2: nat :| Completes(u, rec, l, k, j1, j2) {
      KeptFits(u, rec, l, k, j1, j2);
      var fates := ResolvedByCrash(d, walLen, tail, rec, j1, j2);
      SeenLength(d, walLen, tail);
      CompletesExact(u, op, lost, s, k, j1, j2);
    }
  }

  lemma {:induction false} SeenLength(d: seq<Cell>, walLen: nat, tail: nat)
    requires ChunkOff(walLen) <= |d| && tail <= walLen
    ensures |Seen(d, walLen, tail)| == walLen
  {
  }

  lemma {:induction false} KeptFits(u: seq<Cell>, rec: seq<Cell>, l: seq<Cell>, k: nat, j1: nat, j2: nat)
    requires Completes(u, rec, l, k, j1, j2)
    ensures j1 <= k && k + j2 <= |rec|
  {
  }

  // ── How two crashes bring it about ──

  lemma {:induction false} SameFront(op: WalOp, op': WalOp, seqno: nat, i: nat)
    requires RecLen(op) == RecLen(op') && i < 16
    ensures EncodeRecord(op, seqno)[i] == EncodeRecord(op', seqno)[i]
  {
    hide EncodePayload, Le;
    var a, b := EncodeRecord(op, seqno), EncodeRecord(op', seqno);
    RecordLayout(op, seqno, []);
    RecordLayout(op', seqno, []);
    assert a + [] == a && b + [] == b;
    assert if i < 4 then a[i] == a[..4][i] && b[i] == b[..4][i]
      else if i < 12 then a[i] == a[4..12][i - 4] && b[i] == b[4..12][i - 4]
      else a[i] == a[12..16][i - 12] && b[i] == b[12..16][i - 12];
  }

  /** What a torn append does to the disk: the commit is spared, and the ring is as resolved. */
  lemma {:induction false} TornDisk(d: seq<Cell>, img: Image, inB: bool, tail: nat, hist: seq<WalOp>, a: set<WalOp>,
                                    op: WalOp, fates: seq<Fate>)
    requires DiskInv(d, img, inB, tail, hist, a) && CanAppend(img, hist, op)
    requires ChunkOff(img.sb.walLen) <= |d| && tail <= img.sb.walLen && RecLen(op) <= img.sb.walLen && RowsOk(img.index)
    requires |fates| == |InFlight(d, img.sb.walLen, tail, EncodeRecord(op, |hist| + 1)).pending|
    ensures var d' := Crashed(InFlight(d, img.sb.walLen, tail, EncodeRecord(op, |hist| + 1)), fates);
            && Spares(d, d', img)
            && Mixed(Seen(d, img.sb.walLen, tail), Seen(d', img.sb.walLen, tail), EncodeRecord(op, |hist| + 1))
  {
    hide DiskInv, CanAppend, EncodeRecord, Spares, Mixed, Crashed, Rot, PendingAppend, WalPiece, EncodePayload;
    var rec := EncodeRecord(op, |hist| + 1);
    var s, len := InFlight(d, img.sb.walLen, tail, rec), img.sb.walLen;
    FlightIsAppend(d, img, tail, rec);
    CrashSpares(s, fates, img, tail, rec);
    CrashRing(s, fates, img, tail, rec);
  }

  lemma {:induction false} FlightIsAppend(d: seq<Cell>, img: Image, tail: nat, rec: seq<Cell>)
    requires ChunkOff(img.sb.walLen) <= |d| && tail <= img.sb.walLen && |rec| <= img.sb.walLen && RowsOk(img.index)
    ensures PendingAppend(InFlight(d, img.sb.walLen, tail, rec), img, tail, rec)
  {
    hide WalPiece, ChunkSafe;
    if tail + |rec| <= img.sb.walLen {
      FirstPiece(img.sb.walLen, tail, rec, |rec|);
      assert rec[..|rec|] == rec;
    } else {
      FirstPiece(img.sb.walLen, tail, rec, img.sb.walLen - tail);
      SecondPiece(img.sb.walLen, tail, rec);
    }
  }

  /** The append of `lost` wraps within its first 16 cells, and a first crash keeps only its second write. The store
      mounts without it and appends `op`, of the same length, at the same place; a second crash keeps only the first
      write. The two halves make up `lost`, and it is part of the history, while `op`, which was in flight, is not. */
  lemma {:induction false} TwoCrashes(d: seq<Cell>, img: Image, inB: bool, tail: nat, hist: seq<WalOp>, lost: WalOp,
                                      op: WalOp)
    returns (d1: seq<Cell>, d2: seq<Cell>)
    requires RecLen(lost) == RecLen(op) <= img.sb.walLen && tail < img.sb.walLen <= tail + 16
    requires ChunkOff(img.sb.walLen) <= |d| && d[WAL_OFF + tail] == Raw(0) && op != lost
    requires DiskInv(d, img, inB, tail, hist, {}) && CanAppend(img, hist, lost) && CanAppend(img, hist, op)
    ensures var s1 := InFlight(d, img.sb.walLen, tail, EncodeRecord(lost, |hist| + 1));
            |s1.pending| == 2 && d1 == Crashed(s1, [Dropped, Device.Kept])
    ensures ChunkOff(img.sb.walLen) <= |d1| && DiskInv(d1, img, inB, tail, hist, {lost})
    ensures var s2 := InFlight(d1, img.sb.walLen, tail, EncodeRecord(op, |hist| + 1));
            |s2.pending| == 2 && d2 == Crashed(s2, [Device.Kept, Dropped])
    ensures DiskInv(d2, img, inB, Wrap(tail + RecLen(lost), img.sb.walLen), hist + [lost], {})
  {
    hide DiskInv, CanAppend, EncodeRecord, Crashed, RowsOk, Resolved, Seen, Spares, Mixed;
    var len, s := img.sb.walLen, |hist| + 1;
    var l, rec := EncodeRecord(lost, s), EncodeRecord(op, s);
    RingRoom(d, img, inB, tail, hist, {}, lost);
    TwoTorn(d, len, tail, l, Dropped, Device.Kept);
    d1 := Crashed(InFlight(d, len, tail, l), [Dropped, Device.Kept]);
    FirstCrash(d, d1, img, inB, tail, hist, lost);
    TwoTorn(d1, len, tail, rec, Device.Kept, Dropped);
    d2 := Crashed(InFlight(d1, len, tail, rec), [Device.Kept, Dropped]);
    SecondCrash(d, d1, d2, img, inB, tail, hist, lost, op);
  }

  lemma {:induction false} RingRoom(d: seq<Cell>, img: Image, inB: bool, tail: nat, hist: seq<WalOp>, a: set<WalOp>,
                                    op: WalOp)
    requires DiskInv(d, img, inB, tail, hist, a) && CanAppend(img, hist, op)
    ensures RowsOk(img.index) && ChunkOff(img.sb.walLen) <= |d| && tail <= img.sb.walLen
    ensures WAL_HEADER <= RecLen(op) <= img.sb.walLen && Loggable(op) && |hist| + 2 < U64 && Plain(op)
    ensures 1 <= img.sb.walNextSeq <= |hist| + 1 && RefKnown(img.table, op.ref)
    ensures LogLen(hist[img.sb.walNextSeq - 1..]) + RecLen(op) <= img.sb.walLen
    ensures RingInv(WalRegion(d, img.sb.walLen), img.sb.walHead, img.sb.walNextSeq, tail, hist, a)
    ensures AllPlain(hist) && Covered(img.table, img.sb.walNextSeq - 1, hist)
  {
    hide RingView, Rot, Covered, AllPlain, SlotsAt, IndexAt, ObjectsAt, TableFits, RootsIn, Hashes, IndexFits, Tiled,
      RefKnown, Plain, Loggable, LogLen, EncodePayload;
  }

  lemma {:induction false} FirstCrash(d: seq<Cell>, d1: seq<Cell>, img: Image, inB: bool, tail: nat, hist: seq<WalOp>,
                                      lost: WalOp)
    requires ChunkOff(img.sb.walLen) <= |d| && RecLen(lost) <= img.sb.walLen
    requires tail < img.sb.walLen < tail + RecLen(lost) && d[WAL_OFF + tail] == Raw(0)
    requires d1 == Crashed(InFlight(d, img.sb.walLen, tail, EncodeRecord(lost, |hist| + 1)), [Dropped, Device.Kept])
    requires CanAppend(img, hist, lost) && DiskInv(d, img, inB, tail, hist, {})
    ensures |d1| == |d| && DiskInv(d1, img, inB, tail, hist, {lost})
  {
    hide DiskInv, CanAppend, EncodeRecord, Crashed, RowsOk, Resolved, Spares, Mixed, RingInv, LogLen, Covered, AllPlain,
      Loggable, Plain, RefKnown, EncodePayload;
    var len, s := img.sb.walLen, |hist| + 1;
    var l, k := EncodeRecord(lost, s), img.sb.walLen - tail;
    RingRoom(d, img, inB, tail, hist, {}, lost);
    TornDisk(d, img, inB, tail, hist, {}, lost, [Dropped, Device.Kept]);
    TwoTorn(d, len, tail, l, Dropped, Device.Kept);
    assert Seen(d1, len, tail)[0] == Seen(d, len, tail)[0] == d[WAL_OFF + tail];
    NotWhole(Seen(d1, len, tail), s, lost);
    assert {} + {lost} == {lost};
    RingMissed(WalRegion(d, len), WalRegion(d1, len), img.sb.walHead, img.sb.walNextSeq, tail, hist, {}, lost);
    Carry(d, d1, img, inB, tail, hist, {}, tail, hist, {lost});
  }

  lemma {:induction false} NotWhole(u: seq<Cell>, s: nat, op: WalOp)
    requires u != [] && u[0] == Raw(0)
    ensures !Complete(u, s, op)
  {
    hide EncodePayload, Le;
    RecordLayout(op, s, []);
    var e := EncodeRecord(op, s);
    assert e + [] == e;
    assert e[0] == e[..4][0] == Raw(0x57);
  }

  lemma {:induction false} SecondCrash(d: seq<Cell>, d1: seq<Cell>, d2: seq<Cell>, img: Image, inB: bool, tail: nat,
                                       hist: seq<WalOp>, lost: WalOp, op: WalOp)
    requires RecLen(lost) == RecLen(op) && ChunkOff(img.sb.walLen) <= |d| == |d1| && RecLen(lost) <= img.sb.walLen
    requires tail < img.sb.walLen <= tail + 16 && img.sb.walLen < tail + RecLen(lost)
    requires d1 == Crashed(InFlight(d, img.sb.walLen, tail, EncodeRecord(lost, |hist| + 1)), [Dropped, Device.Kept])
    requires d2 == Crashed(InFlight(d1, img.sb.walLen, tail, EncodeRecord(op, |hist| + 1)), [Device.Kept, Dropped])
    requires DiskInv(d1, img, inB, tail, hist, {lost}) && CanAppend(img, hist, lost) && CanAppend(img, hist, op)
    ensures DiskInv(d2, img, inB, Wrap(tail + RecLen(lost), img.sb.walLen), hist + [lost], {})
  {
    hide DiskInv, CanAppend, EncodeRecord, Crashed, RowsOk, Resolved, Spares, Mixed, RingInv, LogLen, Covered, AllPlain,
      Loggable, Plain, RefKnown, EncodePayload, Rot, Complete;
    var len, s := img.sb.walLen, |hist| + 1;
    RingRoom(d1, img, inB, tail, hist, {lost}, op);
    RingRoom(d1, img, inB, tail, hist, {lost}, lost);
    TornDisk(d1, img, inB, tail, hist, {lost}, op, [Device.Kept, Dropped]);
    MadeUp(d, d1, d2, len, tail, lost, op, s);
    RingFound(WalRegion(d1, len), WalRegion(d2, len), img.sb.walHead, img.sb.walNextSeq, tail, hist, lost, op);
    CoverOp(img.table, img.sb.walNextSeq - 1, hist, lost);
    Carry(d1, d2, img, inB, tail, hist, {lost}, Wrap(tail + RecLen(lost), len), hist + [lost], {});
  }

  /** The two halves make up the lost record. */
  lemma {:induction false} MadeUp(d: seq<Cell>, d1: seq<Cell>, d2: seq<Cell>, walLen: nat, tail: nat, lost: WalOp,
                                  op: WalOp, s: nat)
    requires RecLen(lost) == RecLen(op) <= walLen && ChunkOff(walLen) <= |d|
    requires tail < walLen <= tail + 16 && walLen < tail + RecLen(lost)
    requires d1 == Crashed(InFlight(d, walLen, tail, EncodeRecord(lost, s)), [Dropped, Device.Kept])
    requires d2 == Crashed(InFlight(d1, walLen, tail, EncodeRecord(op, s)), [Device.Kept, Dropped])
    ensures Complete(Seen(d2, walLen, tail), s, lost)
  {
    hide Crashed, EncodeRecord, Seen, EncodePayload;
    var l, rec, k := EncodeRecord(lost, s), EncodeRecord(op, s), walLen - tail;
    TwoTorn(d, walLen, tail, l, Dropped, Device.Kept);
    TwoTorn(d1, walLen, tail, rec, Device.Kept, Dropped);
    SeenLength(d, walLen, tail);
    var u1, u2 := Seen(d1, walLen, tail), Seen(d2, walLen, tail);
    forall i | 0 <= i < |l|
      ensures u2[i] == l[i]
    {
      if i < k {
        SameFront(op, lost, s, i);
      }
    }
    assert u2[..|l|] == l;
  }

  lemma {:induction false} RingFound(w: seq<Cell>, w': seq<Cell>, head: nat, nextSeq: nat, tail: nat, hist: seq<WalOp>,
                                     lost: WalOp, op: WalOp)
    requires RingInv(w, head, nextSeq, tail, hist, {lost}) && |w'| == |w| && Loggable(op) && |hist| + 2 < U64
    requires LogLen(hist[nextSeq - 1..]) + RecLen(op) <= |w|
    requires Mixed(Rot(w, tail), Rot(w', tail), EncodeRecord(op, |hist| + 1))
    requires Complete(Rot(w', tail), |hist| + 1, lost)
    ensures RingInv(w', head, nextSeq, Wrap(tail + RecLen(lost), |w|), hist + [lost], {})
  {
    hide LogLen, EncodeLog, Loggable, Live, Spent, Mixed, Complete, Rot, EncodeRecord, TailAt, AllLoggable, RecLen;
    var ops, s := hist[nextSeq - 1..], |hist| + 1;
    TornLive(Rot(w, tail), Rot(w', tail), ops, nextSeq, EncodeRecord(op, s));
    TornSpent(Rot(w, tail), Rot(w', tail), tail, s, {lost}, op);
    assert lost in {lost};
    RingAccept(w', head, nextSeq, tail, hist, {lost} + {op}, lost);
  }
}
