/** The index frame every commit writes: hash to extent, plus the free list it was carved from. */
module ChunkIndex {
  import opened Cells
  import opened Extents

  const CHUNK_HEADER := 48
  const CHUNK_MAGIC: Bytes := [0x43, 0x48, 0x4E, 0x4B]
  const INDEX_MAGIC: Bytes := [0x43, 0x49, 0x44, 0x58]

  /** One indexed object; `off` is the data offset, the frame header sits just before it. */
  datatype IndexRow = IndexRow(hash: Hash, off: nat, len: nat, birth: nat)

  // ── Chunk frames ──

  function Frame(payload: seq<Cell>, birth: nat): (c: seq<Cell>)
    ensures |c| == CHUNK_HEADER + |payload|
  {
    Lift(CHUNK_MAGIC + Le(|payload|, 4) + Le(birth, 8)) + HashCells(Of(payload)) + payload
  }

  /** Parse a frame at the start of `c` and verify its hash: the payload. */
  function ReadFrame(c: seq<Cell>): (r: Option<seq<Cell>>) {
    if |c| < CHUNK_HEADER || c[..4] != Lift(CHUNK_MAGIC) then None else
    var len := UnLe(Low(c[4..8]));
    if |c| < CHUNK_HEADER + len then None else
    var payload := c[CHUNK_HEADER..CHUNK_HEADER + len];
    if c[16..CHUNK_HEADER] != HashCells(Of(payload)) then None else Some(payload)
  }

  lemma {:induction false} FrameRoundTrip(payload: seq<Cell>, birth: nat, rest: seq<Cell>)
    requires |payload| < U32
    ensures ReadFrame(Frame(payload, birth) + rest) == Some(payload)
  {
    hide Le, UnLe;
    var c := Frame(payload, birth) + rest;
    assert c[..4] == Lift(CHUNK_MAGIC);
    assert c[4..8] == Lift(Le(|payload|, 4));
    LowLift(Le(|payload|, 4));
    Le32(|payload|);
    assert c[CHUNK_HEADER..CHUNK_HEADER + |payload|] == payload;
    assert c[16..CHUNK_HEADER] == HashCells(Of(payload));
  }

  // ── The index object ──

  function IndexPayloadLen(entries: nat, extents: nat): nat {
    4 + 8 + entries * 52 + 8 + extents * 16 + 4
  }

  function RowCells(r: IndexRow): (c: seq<Cell>)
    ensures |c| == 52
  {
    HashCells(r.hash) + Lift(Le(r.off, 8) + Le(r.len, 4) + Le(r.birth, 8))
  }

  function RowsCells(rows: seq<IndexRow>): (c: seq<Cell>)
    ensures |c| == 52 * |rows|
  {
    if rows == [] then [] else RowCells(rows[0]) + RowsCells(rows[1..])
  }

  function ExtentCells(e: Extent): (c: seq<Cell>)
    ensures |c| == 16
  {
    Lift(Le(e.off, 8) + Le(e.len, 8))
  }

  function ExtentsCells(es: seq<Extent>): (c: seq<Cell>)
    ensures |c| == 16 * |es|
  {
    if es == [] then [] else ExtentCells(es[0]) + ExtentsCells(es[1..])
  }

  function Pad(n: nat): (c: seq<Cell>)
    ensures |c| == n
    ensures forall i :: 0 <= i < n ==> c[i] == Raw(0)
  {
    seq(n, _ => Raw(0))
  }

  function EncodeIndex(rows: seq<IndexRow>, free: seq<Extent>, pad: nat): (c: seq<Cell>)
    ensures |c| == IndexPayloadLen(|rows|, |free|) + pad
  {
    Lift(INDEX_MAGIC + Le(|rows|, 8))
    + (RowsCells(rows) + (Lift(Le(|free|, 8)) + (ExtentsCells(free) + (Lift(Le(pad, 4)) + Pad(pad)))))
  }

  function TakeRows(c: seq<Cell>, n: nat): Option<(seq<IndexRow>, seq<Cell>)>
    decreases n
  {
    if n == 0 then Some(([], c)) else
    if |c| < 52 then None else
    var hash :- ReadHash(c[..32]);
    var row := IndexRow(hash, UnLe(Low(c[32..40])), UnLe(Low(c[40..44])), UnLe(Low(c[44..52])));
    var (rows, rest) :- TakeRows(c[52..], n - 1);
    Some(([row] + rows, rest))
  }

  function TakeExtents(c: seq<Cell>, n: nat): Option<(seq<Extent>, seq<Cell>)>
    decreases n
  {
    if n == 0 then Some(([], c)) else
    if |c| < 16 then None else
    var e := Extent(UnLe(Low(c[..8])), UnLe(Low(c[8..16])));
    var (es, rest) :- TakeExtents(c[16..], n - 1);
    Some(([e] + es, rest))
  }

  function DecodeIndex(c: seq<Cell>): Option<(seq<IndexRow>, seq<Extent>)> {
    if |c| < 12 || c[..4] != Lift(INDEX_MAGIC) then None else
    var (rows, c1) :- TakeRows(c[12..], UnLe(Low(c[4..12])));
    if |c1| < 8 then None else
    var (free, c2) :- TakeExtents(c1[8..], UnLe(Low(c1[..8])));
    if |c2| < 4 then None else
    if c2[4..] != Pad(UnLe(Low(c2[..4]))) then None else Some((rows, free))
  }

  predicate RowFits(r: IndexRow) {
    r.off < U64 && r.len < U32 && r.birth < U64
  }

  predicate ExtentFits(e: Extent) {
    e.off < U64 && e.len < U64
  }

  /** A number laid down in front of `rest` is read back, and `rest` follows it. */
  lemma {:induction false} NumFront(n: nat, k: nat, rest: seq<Cell>)
    requires n < Pow256(k)
    ensures var c := Lift(Le(n, k)) + rest; UnLe(Low(c[..k])) == n && c[k..] == rest
  {
    var c := Lift(Le(n, k)) + rest;
    assert c[..k] == Lift(Le(n, k));
    LowLift(Le(n, k));
    UnLeLe(n, k);
  }

  lemma {:induction false} RowFront(r: IndexRow, rest: seq<Cell>)
    requires RowFits(r)
    ensures var c := RowCells(r) + rest;
            && ReadHash(c[..32]) == Some(r.hash)
            && UnLe(Low(c[32..40])) == r.off && UnLe(Low(c[40..44])) == r.len && UnLe(Low(c[44..52])) == r.birth
            && c[52..] == rest
  {
    hide Le, UnLe, ReadHash;
    var c := RowCells(r) + rest;
    ReadHashCells(r.hash);
    assert c[..32] == HashCells(r.hash);
    assert c[32..40] == Lift(Le(r.off, 8)) && c[40..44] == Lift(Le(r.len, 4)) && c[44..52] == Lift(Le(r.birth, 8));
    LowLift(Le(r.off, 8));
    LowLift(Le(r.len, 4));
    LowLift(Le(r.birth, 8));
    Le64(r.off);
    Le32(r.len);
    Le64(r.birth);
  }

  lemma {:induction false} RowsFront(rows: seq<IndexRow>, rest: seq<Cell>)
    requires forall i :: 0 <= i < |rows| ==> RowFits(rows[i])
    ensures TakeRows(RowsCells(rows) + rest, |rows|) == Some((rows, rest))
  {
    hide RowCells, ReadHash;
    if rows == [] {
      assert RowsCells(rows) + rest == rest;
    } else {
      var c := RowsCells(rows) + rest;
      assert c == RowCells(rows[0]) + (RowsCells(rows[1..]) + rest);
      RowFront(rows[0], RowsCells(rows[1..]) + rest);
      RowsFront(rows[1..], rest);
      assert rows == [rows[0]] + rows[1..];
    }
  }

  lemma {:induction false} ExtentsFront(es: seq<Extent>, rest: seq<Cell>)
    requires forall i :: 0 <= i < |es| ==> ExtentFits(es[i])
    ensures TakeExtents(ExtentsCells(es) + rest, |es|) == Some((es, rest))
  {
    hide Le, UnLe;
    if es == [] {
      assert ExtentsCells(es) + rest == rest;
    } else {
      var c := ExtentsCells(es) + rest;
      var tail := ExtentsCells(es[1..]) + rest;
      assert c[..8] == Lift(Le(es[0].off, 8)) && c[8..16] == Lift(Le(es[0].len, 8)) && c[16..] == tail;
      LowLift(Le(es[0].off, 8));
      LowLift(Le(es[0].len, 8));
      Le64(es[0].off);
      Le64(es[0].len);
      ExtentsFront(es[1..], rest);
      assert es == [es[0]] + es[1..];
    }
  }

  predicate IndexFits(rows: seq<IndexRow>, free: seq<Extent>) {
    && |rows| < U64 && |free| < U64
    && (forall i :: 0 <= i < |rows| ==> RowFits(rows[i]))
    && (forall i :: 0 <= i < |free| ==> ExtentFits(free[i]))
  }

  /** An index frame reads back as the index and free list it was made from, whatever its pad. */
  lemma {:induction false} IndexRoundTrip(rows: seq<IndexRow>, free: seq<Extent>, pad: nat)
    requires IndexFits(rows, free) && pad < U32
    ensures DecodeIndex(EncodeIndex(rows, free, pad)) == Some((rows, free))
  {
    hide Le, UnLe, TakeRows, TakeExtents, RowsCells, ExtentsCells;
    Powers();
    var c := EncodeIndex(rows, free, pad);
    var c3 := Lift(Le(pad, 4)) + Pad(pad);
    var c2 := Lift(Le(|free|, 8)) + (ExtentsCells(free) + c3);
    var c1 := RowsCells(rows) + c2;
    assert c[..4] == Lift(INDEX_MAGIC);
    assert c[4..12] == Lift(Le(|rows|, 8)) && c[12..] == c1;
    LowLift(Le(|rows|, 8));
    Le64(|rows|);
    RowsFront(rows, c2);
    NumFront(|free|, 8, ExtentsCells(free) + c3);
    ExtentsFront(free, c3);
    NumFront(pad, 4, Pad(pad));
  }
}
