/** Formatting a device: the first commit, with an empty ref table. */
module Format {
  import opened Cells
  import opened WalCodec
  import opened WalLog
  import opened Ring
  import opened Device
  import Superblock
  import opened Extents
  import opened ChunkIndex
  import opened RefTables
  import opened History
  import opened Durable
  import opened Recovery
  import opened CrashSafety

  const MIN_CHUNK_REGION := 4096
  const NO_REFS := RefTable([], [], [])

  /** The table frame comes first in the chunk region, the index frame behind it. */
  function TableRow(): IndexRow {
    IndexRow(Of(EncodeTable(NO_REFS)), CHUNK_HEADER, |EncodeTable(NO_REFS)|, 1)
  }

  function IndexNeed(): nat {
    CHUNK_HEADER + IndexPayloadLen(1, 1)
  }

  function FirstImage(walLen: nat): Image {
    var at := CHUNK_HEADER + |EncodeTable(NO_REFS)|;
    Image(Superblock.Superblock(1, Of(EncodeTable(NO_REFS)), 0, 1, walLen, at + IndexNeed(), at),
          [TableRow()], [], 16, 1, NO_REFS)
  }

  predicate Formattable(d: seq<Cell>, walLen: nat) {
    ChunkOff(walLen) + MIN_CHUNK_REGION < |d| <= U64
  }

  lemma {:induction false} Sizes(walLen: nat)
    ensures |EncodeTable(NO_REFS)| == 16 && IndexNeed() == 140
    ensures IndexExtent(FirstImage(walLen)) == Extent(64, 140) && FirstImage(walLen).sb.chunkTail == 204
  {
  }

  /** The device after formatting. */
  function FormatDisk(d: seq<Cell>, walLen: nat): (d': seq<Cell>)
    requires Formattable(d, walLen)
    ensures |d'| == |d|
  {
    Sizes(walLen);
    var img := FirstImage(walLen);
    var co := ChunkOff(walLen);
    var d1 := Overwrite(d, SlotOff(false), Superblock.Zeros(Superblock.SB_SIZE));
    var d2 := Overwrite(d1, SlotOff(true), Superblock.Zeros(Superblock.SB_SIZE));
    var d3 := Overwrite(d2, co, Frame(EncodeTable(NO_REFS), 1));
    var d4 := Overwrite(d3, co + img.sb.indexOff, IndexFrame(img));
    Overwrite(d4, SlotOff(false), Superblock.Encode(img.sb))
  }

  /** One write, seen on the device's current contents. */
  method Lay(dev: CrashDev, off: nat, data: seq<Cell>)
    requires dev.Valid() && off + |data| <= |dev.current|
    modifies dev
    ensures dev.Valid() && dev.current == Overwrite(old(dev.current), off, data)
  {
    hide Overwrite, Current;
    CurrentWritten(dev.State(), off, data);
    var ok := dev.Write(off, data);
  }

  method Barrier(dev: CrashDev)
    requires dev.Valid()
    modifies dev
    ensures dev.Valid() && dev.current == old(dev.current) && dev.durable == dev.current && dev.pending == []
  {
    hide Current;
    QuietCurrent(dev.current);
    dev.Flush();
  }

  /** The writes in their order, with a barrier before each superblock write and after the last. */
  method FormatDev(dev: CrashDev, walLen: nat) returns (ok: bool)
    requires dev.Valid() && |dev.durable| <= U64
    modifies dev
    ensures dev.Valid() && (ok <==> Formattable(old(dev.current), walLen))
    ensures ok ==> dev.durable == FormatDisk(old(dev.current), walLen)
    ensures ok ==> dev.pending == [] && dev.trace == [dev.State()]
  {
    hide Current, Frame, Superblock.Encode, EncodeTable, IndexFrame, IndexPayloadLen, WellFormed;
    if |dev.current| <= ChunkOff(walLen) + MIN_CHUNK_REGION {
      return false;
    }
    Sizes(walLen);
    var img := FirstImage(walLen);
    var co := ChunkOff(walLen);
    Lay(dev, SlotOff(false), Superblock.Zeros(Superblock.SB_SIZE));
    Lay(dev, SlotOff(true), Superblock.Zeros(Superblock.SB_SIZE));
    Barrier(dev);
    Lay(dev, co, Frame(EncodeTable(NO_REFS), 1));
    Lay(dev, co + img.sb.indexOff, IndexFrame(img));
    Barrier(dev);
    Lay(dev, SlotOff(false), Superblock.Encode(img.sb));
    Barrier(dev);
    dev.Begin();
    ok := true;
  }

  // ── What was formatted ──

  lemma {:induction false} FirstTiled(walLen: nat)
    ensures RowsOk(FirstImage(walLen).index) && Tiled(FirstImage(walLen))
  {
    hide EncodeTable, IndexPayloadLen;
    Sizes(walLen);
    var img := FirstImage(walLen);
    assert Frames(img.index) == [FrameOf(TableRow())];
    forall p
      ensures Count(Frames(img.index), p) == Once(FrameOf(TableRow()), p) && Count([], p) == 0
    {
      CountOne(FrameOf(TableRow()), p);
    }
  }

  lemma {:induction false} FirstOk(d: seq<Cell>, walLen: nat)
    requires Formattable(d, walLen)
    ensures ImageOk(FirstImage(walLen), |d|)
  {
    hide EncodeTable, Tiled;
    Sizes(walLen);
    FirstTiled(walLen);
    var img := FirstImage(walLen);
    assert img.index[0].hash == img.sb.refTable;
  }

  lemma {:induction false} FormattedChunks(d: seq<Cell>, walLen: nat)
    requires Formattable(d, walLen)
    ensures IndexAt(FormatDisk(d, walLen), FirstImage(walLen))
    ensures ObjectsAt(FormatDisk(d, walLen), ChunkOff(walLen), FirstImage(walLen).index)
  {
    hide EncodeTable, IndexPayloadLen, Superblock.Encode;
    Sizes(walLen);
    var img := FirstImage(walLen);
    var co, d' := ChunkOff(walLen), FormatDisk(d, walLen);
    var t, f := EncodeTable(NO_REFS), Frame(EncodeTable(NO_REFS), 1);
    assert f[CHUNK_HEADER..] == t;
    assert d'[co + CHUNK_HEADER..co + CHUNK_HEADER + |t|] == t;
    var o, n := co + img.sb.indexOff, IndexExtent(img).len;
    assert d'[o..o + n] == IndexFrame(img);
    assert ObjectAt(d', co, img.index[0]);
  }

  lemma {:induction false} FormatCell(d: seq<Cell>, walLen: nat, p: nat)
    requires Formattable(d, walLen) && p < ChunkOff(walLen)
    ensures FormatDisk(d, walLen)[p] ==
            if p < 4096 then Superblock.Encode(FirstImage(walLen).sb)[p] else if p < WAL_OFF then Raw(0) else d[p]
  {
    hide EncodeTable, IndexPayloadLen, Superblock.Encode, IndexFrame, Frame;
    Sizes(walLen);
  }

  lemma {:induction false} FormattedSlots(d: seq<Cell>, walLen: nat)
    requires Formattable(d, walLen)
    ensures SlotsAt(FormatDisk(d, walLen), FirstImage(walLen).sb, false)
    ensures WalRegion(FormatDisk(d, walLen), walLen) == WalRegion(d, walLen)
  {
    hide EncodeTable, IndexPayloadLen, Superblock.Encode, FormatDisk, Superblock.Carries, Superblock.Outdated,
      FirstImage;
    var d', sb := FormatDisk(d, walLen), FirstImage(walLen).sb;
    forall p | 0 <= p < ChunkOff(walLen)
      ensures d'[p] == if p < 4096 then Superblock.Encode(sb)[p] else if p < WAL_OFF then Raw(0) else d[p]
    {
      FormatCell(d, walLen, p);
    }
    assert Slot(d', false) == Superblock.Encode(sb);
    WholeSlot(sb);
    assert Slot(d', true) == Superblock.Zeros(Superblock.SB_SIZE);
    ZeroSlot();
    FirstGeneration(walLen);
  }

  lemma {:induction false} FirstGeneration(walLen: nat)
    ensures FirstImage(walLen).sb.generation == 1
  {
  }

  lemma {:induction false} ZeroSlot()
    ensures Superblock.Outdated(Superblock.Zeros(Superblock.SB_SIZE), 1)
  {
    var c := Superblock.Zeros(Superblock.SB_SIZE)[Superblock.SB_BODY..Superblock.SB_BODY + 32];
    assert c[0] == Raw(0);
    forall h
      ensures c != HashCells(h)
    {
      assert HashCells(h)[0] == Dig(h, 0);
    }
  }

  /** The log area as a new store needs it: no checksum in it belongs to a record number the store has still to
      use, except number 1 where no first record will be looked for. A log area without checksums is clean. */
  ghost predicate LogClean(d: seq<Cell>, walLen: nat) {
    ChunkOff(walLen) <= |d| ==> Spent(WalRegion(d, walLen), 0, 1, {})
  }

  /** A ring is in order for a new store exactly when it is clean. */
  lemma {:induction false} FreshRing(w: seq<Cell>)
    ensures RingInv(w, 0, 1, 0, [], {}) <==> Spent(w, 0, 1, {})
  {
    hide Spent;
    assert Rot(w, 0) == w;
    assert w[|w|..] == [];
  }

  lemma {:induction false} RawClean(d: seq<Cell>, walLen: nat)
    requires forall p :: WAL_OFF <= p < |d| && p < ChunkOff(walLen) ==> d[p].Raw?
    ensures LogClean(d, walLen)
  {
  }

  /** A device with a clean log area is formatted to a store with an empty history. */
  lemma {:induction false} Formatted(d: seq<Cell>, walLen: nat)
    requires Formattable(d, walLen) && LogClean(d, walLen)
    ensures DiskInv(FormatDisk(d, walLen), FirstImage(walLen), false, 0, [], {})
  {
    hide FormatDisk, EncodeTable, RingInv, SlotsAt, IndexAt, ObjectsAt, ImageOk, IndexPayloadLen, Spent;
    FirstOk(d, walLen);
    FormattedChunks(d, walLen);
    FormattedSlots(d, walLen);
    FreshRing(WalRegion(d, walLen));
  }

  /** A device of zeros has a clean log area, so it is formatted to a store with an empty history. */
  lemma {:induction false} NewDevice(len: nat, walLen: nat)
    ensures var d := seq(len, _ => Raw(0));
            && LogClean(d, walLen)
            && (Formattable(d, walLen) ==> DiskInv(FormatDisk(d, walLen), FirstImage(walLen), false, 0, [], {}))
  {
    hide LogClean, DiskInv, FormatDisk, FirstImage, Formattable;
    var d := seq(len, _ => Raw(0));
    RawClean(d, walLen);
    if Formattable(d, walLen) {
      Formatted(d, walLen);
    }
  }

  // ── Formatting a used device ──

  /** Formatting does not clear the log area. Whatever run of records it holds from its start, numbered
      from 1, is replayed by the first mount. */
  lemma {:induction false} FormatReplays(d: seq<Cell>, walLen: nat)
    requires Formattable(d, walLen)
    ensures Mount(FormatDisk(d, walLen)).Some?
    ensures Mount(FormatDisk(d, walLen)).value.recs == Walk(WalRegion(d, walLen), 0, 1)
  {
    hide FormatDisk, EncodeTable, SlotsAt, IndexAt, ObjectsAt, IndexPayloadLen, Walk, Mount, ReadFrame, DecodeIndex,
      ReadObject, DecodeTable, Rot, EncodeIndex;
    var d', img := FormatDisk(d, walLen), FirstImage(walLen);
    Sizes(walLen);
    FirstOk(d, walLen);
    FormattedChunks(d, walLen);
    FormattedSlots(d, walLen);
    SurvivorIsLive(d', img.sb, false);
    IndexReadsBack(d', img);
    TableReadsBack(d', img);
    IndexBelowTail(img, |d'|);
    RotZero(WalRegion(d, walLen));
  }

  /** So a formatted store starts empty exactly when no record numbered 1 stands at the start of the log. */
  lemma {:induction false} FormatEmpty(d: seq<Cell>, walLen: nat)
    requires Formattable(d, walLen)
    ensures var w := WalRegion(d, walLen); var m := Mount(FormatDisk(d, walLen));
            m.Some? && (m.value.recs == [] <==> w == [] || DecodeRecord(w).None? || DecodeRecord(w).value.0 != 1)
  {
    hide FormatDisk, Mount, DecodeRecord, WalRegion;
    FormatReplays(d, walLen);
    var w := WalRegion(d, walLen);
    assert w[0..] == w;
  }

  /** A log area left by an earlier store begins with its first record, which comes back. */
  lemma {:induction false} StaleRecord(d: seq<Cell>, walLen: nat, op: WalOp)
    requires Formattable(d, walLen) && Loggable(op) && EncodeRecord(op, 1) <= WalRegion(d, walLen)
    ensures var m := Mount(FormatDisk(d, walLen)); m.Some? && m.value.recs != [] && m.value.recs[0].op == op
  {
    hide FormatDisk, Mount, DecodeRecord, EncodeRecord, Loggable, WalRegion;
    FormatReplays(d, walLen);
    var w := WalRegion(d, walLen);
    var rec := EncodeRecord(op, 1);
    assert w == rec + w[|rec|..];
    RecordRoundTrip(op, 1, w[|rec|..]);
    assert w[0..] == w;
  }

  // ── Later mounts of a store formatted on a used device ──

  /** The disk after a format and an append of `ops`, before any commit. */
  function Appended(d: seq<Cell>, walLen: nat, ops: seq<WalOp>): seq<Cell>
    requires Formattable(d, walLen) && LogLen(ops) <= walLen
  {
    Overwrite(FormatDisk(d, walLen), WAL_OFF, EncodeLog(ops, 1))
  }

  /** A record numbered `s` of an earlier store stands at `off`. */
  predicate StaleAt(w: seq<Cell>, off: nat, s: nat) {
    off < |w| && DecodeRecord(w[off..]).Some? && DecodeRecord(w[off..]).value.0 == s
  }

  predicate FitsLog(ops: seq<WalOp>, walLen: nat) {
    AllLoggable(ops) && |ops| + 1 < U64 && LogLen(ops) <= walLen
  }

  lemma {:induction false} AppendedIsFormat(d: seq<Cell>, walLen: nat, ops: seq<WalOp>)
    requires Formattable(d, walLen) && LogLen(ops) <= walLen
    ensures Appended(d, walLen, ops) == FormatDisk(Overwrite(d, WAL_OFF, EncodeLog(ops, 1)), walLen)
  {
    hide EncodeTable, IndexPayloadLen, Superblock.Encode, IndexFrame, Frame, EncodeLog, LogLen;
    Sizes(walLen);
  }

  /** A mount after the append finds the appended records, and behind them whatever record of the earlier store
      stands there with the next number. */
  lemma {:induction false} AppendedWalk(d: seq<Cell>, walLen: nat, ops: seq<WalOp>)
    requires Formattable(d, walLen) && FitsLog(ops, walLen)
    ensures Mount(Appended(d, walLen, ops)).Some?
    ensures Mount(Appended(d, walLen, ops)).value.recs ==
            Recs(ops, 0, 1) + Walk(WalRegion(d, walLen), LogLen(ops), |ops| + 1)
  {
    hide FormatDisk, Mount, DecodeRecord, EncodeLog, LogLen, Loggable, Recs, Walk;
    var log := EncodeLog(ops, 1);
    var d2 := Overwrite(d, WAL_OFF, log);
    AppendedIsFormat(d, walLen, ops);
    FormatReplays(d2, walLen);
    var w, w2 := WalRegion(d, walLen), WalRegion(d2, walLen);
    assert w2[0..LogLen(ops)] == log;
    WalkLog(w2, 0, ops, 1);
    assert w2[LogLen(ops)..] == w[LogLen(ops)..];
    WalkSuffix(w, w2, LogLen(ops), LogLen(ops), |ops| + 1);
  }

  /** The walk looks only at what lies ahead of it. */
  lemma {:induction false} WalkSuffix(a: seq<Cell>, b: seq<Cell>, n: nat, off: nat, s: nat)
    requires |a| == |b| && n <= off <= |a| && a[n..] == b[n..]
    ensures Walk(a, off, s) == Walk(b, off, s)
    decreases |a| - off
  {
    hide DecodeRecord;
    assert a[off..] == a[n..][off - n..] && b[off..] == b[n..][off - n..];
    if off < |a| && DecodeRecord(a[off..]).Some? {
      WalkSuffix(a, b, n, off + DecodeRecord(a[off..]).value.2, s + 1);
    }
  }

  /** Every mount before the first commit finds exactly the store's own records if and only if no record of an
      earlier store stands where the store's next record would be looked for. */
  lemma {:induction false} FormatExact(d: seq<Cell>, walLen: nat)
    requires Formattable(d, walLen)
    ensures (forall ops :: FitsLog(ops, walLen) ==>
               Mount(Appended(d, walLen, ops)).Some? && Mount(Appended(d, walLen, ops)).value.recs == Recs(ops, 0, 1))
            <==>
            (forall ops :: FitsLog(ops, walLen) ==> !StaleAt(WalRegion(d, walLen), LogLen(ops), |ops| + 1))
  {
    hide Appended, Mount, Recs, LogLen, DecodeRecord, Loggable;
    var w := WalRegion(d, walLen);
    forall ops | FitsLog(ops, walLen)
      ensures Mount(Appended(d, walLen, ops)).Some?
      ensures Mount(Appended(d, walLen, ops)).value.recs == Recs(ops, 0, 1) <==> !StaleAt(w, LogLen(ops), |ops| + 1)
    {
      AppendedWalk(d, walLen, ops);
      var own, more := Recs(ops, 0, 1), Walk(w, LogLen(ops), |ops| + 1);
      assert |own + more| == |own| + |more|;
      if more == [] {
        assert own + more == own;
      }
    }
  }

  /** A store that starts empty may still find a stranger later: an earlier store left a record numbered 2 just
      where the new store's second record will go. */
  lemma {:induction false} StaleSecond(d: seq<Cell>, walLen: nat, first: WalOp, stale: WalOp)
    requires Formattable(d, walLen) && Loggable(first) && Loggable(stale) && RecLen(first) < walLen
    requires WalRegion(d, walLen)[0] == Raw(0)
    requires EncodeRecord(stale, 2) <= WalRegion(d, walLen)[RecLen(first)..]
    ensures Mount(FormatDisk(d, walLen)).Some? && Mount(FormatDisk(d, walLen)).value.recs == []
    ensures FitsLog([first], walLen)
    ensures var m := Mount(Appended(d, walLen, [first])); m.Some? && |m.value.recs| > 1 && m.value.recs[1].op == stale
  {
    hide FormatDisk, Mount, EncodeRecord, Appended, Loggable, DecodeRecord, RecLen, Walk;
    var w := WalRegion(d, walLen);
    NotMagic(w);
    FormatEmpty(d, walLen);
    assert LogLen([first]) == RecLen(first) + LogLen([first][1..]);
    AppendedWalk(d, walLen, [first]);
    WalkStale(w, RecLen(first), stale, 2);
    assert |Recs([first], 0, 1)| == 1;
  }

  /** A walk that comes upon a record with the number it expects takes it. */
  lemma {:induction false} WalkStale(w: seq<Cell>, off: nat, stale: WalOp, s: nat)
    requires off < |w| && Loggable(stale) && s < U64 && EncodeRecord(stale, s) <= w[off..]
    ensures Walk(w, off, s) != [] && Walk(w, off, s)[0].op == stale
  {
    hide DecodeRecord, EncodeRecord, Loggable;
    var rest, rec := w[off..], EncodeRecord(stale, s);
    assert rest == rec + rest[|rec|..];
    RecordRoundTrip(stale, s, rest[|rec|..]);
  }

  lemma {:induction false} NotMagic(w: seq<Cell>)
    requires w != [] && w[0] == Raw(0)
    ensures DecodeRecord(w).None?
  {
    if |w| >= WAL_HEADER {
      assert w[..4][0] == Raw(0) && Lift(WAL_MAGIC)[0] == Raw(0x57);
    }
  }
}
