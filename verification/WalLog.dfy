/** Framed log records and the recovery walk over a linear buffer. */
module WalLog {
  import opened Cells
  import opened WalCodec

  datatype Rec = Rec(seqno: nat, off: nat, op: WalOp, len: nat)

  function RecLen(op: WalOp): nat {
    WAL_HEADER + |EncodePayload(op)|
  }

  predicate Loggable(op: WalOp) {
    Fits(op) && |EncodePayload(op)| < U32
  }

  /** What the record checksum covers: sequence number, payload length, payload. */
  function Summed(op: WalOp, seqno: nat): (c: seq<Cell>)
    ensures |c| == 12 + |EncodePayload(op)|
  {
    var p := EncodePayload(op);
    Lift(Le(seqno, 8) + Le(|p|, 4) + p)
  }

  function EncodeRecord(op: WalOp, seqno: nat): (c: seq<Cell>)
    ensures |c| == RecLen(op)
  {
    var p := EncodePayload(op);
    Lift(WAL_MAGIC + Le(seqno, 8) + Le(|p|, 4)) + HashCells(Of(Summed(op, seqno))) + Lift(p)
  }

  function DecodeRecord(c: seq<Cell>): (r: Option<(nat, WalOp, nat)>)
    ensures r.Some? ==> WAL_HEADER <= r.value.2 <= |c|
  {
    if |c| < WAL_HEADER || c[..4] != Lift(WAL_MAGIC) then None else
    var seqno := UnLe(Low(c[4..12]));
    var len := UnLe(Low(c[12..16]));
    if |c| < WAL_HEADER + len then None else
    var payload := c[WAL_HEADER..WAL_HEADER + len];
    if c[16..WAL_HEADER] != HashCells(Of(c[4..16] + payload)) then None else
    var op :- DecodePayload(Low(payload));
    Some((seqno, op, WAL_HEADER + len))
  }

  /** The sequence number bound into a record checksum. */
  function SeqOf(h: Hash): nat {
    if |h.content| < 8 then 0 else UnLe(Low(h.content[..8]))
  }

  /** The maximal run of valid, sequence-continuous records from `off`. */
  function Walk(c: seq<Cell>, off: nat, seqno: nat): (recs: seq<Rec>)
    decreases |c| - off
  {
    if off >= |c| then [] else
    match DecodeRecord(c[off..])
    case None => []
    case Some((s, op, len)) =>
      if s != seqno then [] else [Rec(seqno, off, op, len)] + Walk(c, off + len, seqno + 1)
  }

  /** The records an honest log of `ops` consists of. */
  function Recs(ops: seq<WalOp>, off: nat, seqno: nat): (recs: seq<Rec>)
    ensures |recs| == |ops|
  {
    if ops == [] then []
    else [Rec(seqno, off, ops[0], RecLen(ops[0]))] + Recs(ops[1..], off + RecLen(ops[0]), seqno + 1)
  }

  function LogLen(ops: seq<WalOp>): nat {
    if ops == [] then 0 else RecLen(ops[0]) + LogLen(ops[1..])
  }

  function EncodeLog(ops: seq<WalOp>, seqno: nat): (c: seq<Cell>)
    ensures |c| == LogLen(ops)
  {
    if ops == [] then [] else EncodeRecord(ops[0], seqno) + EncodeLog(ops[1..], seqno + 1)
  }

  /** The recovery loop computes the maximal run. */
  method RecoverRecords(wal: seq<Cell>, head: nat, nextSeq: nat) returns (recs: seq<Rec>, end: nat, seqno: nat)
    requires head <= |wal|
    ensures recs == Walk(wal, head, nextSeq)
    ensures seqno == nextSeq + |recs|
    ensures end == (if recs == [] then head else recs[|recs| - 1].off + recs[|recs| - 1].len)
    ensures Walk(wal, end, seqno) == []
  {
    hide DecodeRecord, Walk;
    recs, end, seqno := [], head, nextSeq;
    assert recs + Walk(wal, end, seqno) == Walk(wal, head, nextSeq);
    while end < |wal|
      invariant head <= end <= |wal|
      invariant recs + Walk(wal, end, seqno) == Walk(wal, head, nextSeq)
      invariant seqno == nextSeq + |recs|
      invariant end == (if recs == [] then head else recs[|recs| - 1].off + recs[|recs| - 1].len)
      decreases |wal| - end
    {
      var d := DecodeRecord(wal[end..]);
      WalkStep(wal, end, seqno);
      if d.None? || d.value.0 != seqno {
        break;
      }
      var r := Rec(seqno, end, d.value.1, d.value.2);
      assert recs + Walk(wal, end, seqno) == (recs + [r]) + Walk(wal, end + d.value.2, seqno + 1);
      recs := recs + [r];
      end := end + d.value.2;
      seqno := seqno + 1;
    }
    WalkStep(wal, end, seqno);
    assert recs + [] == recs;
  }

  lemma {:induction false} WalkStep(c: seq<Cell>, off: nat, seqno: nat)
    requires off <= |c|
    ensures off == |c| ==> Walk(c, off, seqno) == []
    ensures off < |c| ==>
      var d := DecodeRecord(c[off..]);
      Walk(c, off, seqno) ==
        if d.None? || d.value.0 != seqno then []
        else [Rec(seqno, off, d.value.1, d.value.2)] + Walk(c, off + d.value.2, seqno + 1)
  {
    hide DecodeRecord;
  }

  // ── A record is read back as itself ──

  lemma {:induction false} RecordLayout(op: WalOp, seqno: nat, rest: seq<Cell>)
    ensures var c := EncodeRecord(op, seqno) + rest; var p := EncodePayload(op);
            && c[..4] == Lift(WAL_MAGIC)
            && c[4..12] == Lift(Le(seqno, 8))
            && c[12..16] == Lift(Le(|p|, 4))
            && c[16..WAL_HEADER] == HashCells(Of(Summed(op, seqno)))
            && c[WAL_HEADER..RecLen(op)] == Lift(p)
            && c[RecLen(op)..] == rest
            && c[4..16] + Lift(p) == Summed(op, seqno)
  {
    hide EncodePayload, Le;
    var p := EncodePayload(op);
    var c := EncodeRecord(op, seqno) + rest;
    assert c[4..16] == Lift(Le(seqno, 8) + Le(|p|, 4));
  }

  lemma {:induction false} RecordRoundTrip(op: WalOp, seqno: nat, rest: seq<Cell>)
    requires Loggable(op) && seqno < U64
    ensures DecodeRecord(EncodeRecord(op, seqno) + rest) == Some((seqno, op, RecLen(op)))
  {
    var p := EncodePayload(op);
    RecordLayout(op, seqno, rest);
    LowLift(Le(seqno, 8));
    LowLift(Le(|p|, 4));
    LowLift(p);
    Le64(seqno);
    Le32(|p|);
    PayloadRoundTrip(op);
  }

  lemma {:induction false} SeqOfSummed(op: WalOp, seqno: nat)
    requires seqno < U64
    ensures SeqOf(Of(Summed(op, seqno))) == seqno
  {
    assert Summed(op, seqno)[..8] == Lift(Le(seqno, 8));
    LowLift(Le(seqno, 8));
    Le64(seqno);
  }

  /** An accepted record carries a checksum over its own sequence number. */
  lemma {:induction false} AcceptedSeq(c: seq<Cell>)
    requires DecodeRecord(c).Some?
    ensures c[16].Dig? && c[16].i == 0 && SeqOf(c[16].h) == DecodeRecord(c).value.0
  {
    hide DecodePayload, UnLe;
    var len := UnLe(Low(c[12..16]));
    var x := c[4..16] + c[WAL_HEADER..WAL_HEADER + len];
    assert c[16] == c[16..WAL_HEADER][0] == Dig(Of(x), 0);
    assert x[..8] == c[4..12];
  }

  lemma {:induction false} SummedParts(op: WalOp, s: nat)
    ensures var x, p := Summed(op, s), EncodePayload(op);
            x[..8] == Lift(Le(s, 8)) && x[8..12] == Lift(Le(|p|, 4)) && x[12..] == Lift(p)
  {
    hide EncodePayload, Le;
  }

  lemma {:induction false} CheckedParts(c: seq<Cell>, payload: seq<Cell>)
    requires |c| >= 16
    ensures var x := c[4..16] + payload;
            x[..8] == c[4..12] && x[8..12] == c[12..16] && x[12..] == payload
  {
    var x := c[4..16] + payload;
    assert x[..8] == c[4..12];
    assert x[8..12] == c[12..16];
    assert x[12..] == payload;
  }

  /** An accepted record whose checksum is some record's checksum is that record. */
  lemma {:induction false} AcceptedIsGenuine(c: seq<Cell>, op: WalOp, s: nat)
    requires DecodeRecord(c).Some? && Loggable(op) && s < U64
    requires c[16].Dig? && c[16].h == Of(Summed(op, s))
    ensures DecodeRecord(c) == Some((s, op, RecLen(op)))
    ensures c[4..16] + c[WAL_HEADER..RecLen(op)] == Summed(op, s)
    ensures c[..4] == Lift(WAL_MAGIC) && c[16..WAL_HEADER] == HashCells(Of(Summed(op, s)))
  {
    hide DecodePayload, EncodePayload, UnLe, Le, Fits, Summed;
    var p := EncodePayload(op);
    var len := UnLe(Low(c[12..16]));
    var x := c[4..16] + c[WAL_HEADER..WAL_HEADER + len];
    assert c[16] == c[16..WAL_HEADER][0] == Dig(Of(x), 0);
    SummedParts(op, s);
    CheckedParts(c, c[WAL_HEADER..WAL_HEADER + len]);
    LowLift(Le(s, 8));
    LowLift(Le(|p|, 4));
    LowLift(p);
    Le64(s);
    Le32(|p|);
    PayloadRoundTrip(op);
  }

  /** Cell for cell. */
  lemma {:induction false} AcceptedCells(c: seq<Cell>, op: WalOp, s: nat)
    requires DecodeRecord(c).Some? && Loggable(op) && s < U64
    requires c[16].Dig? && c[16].h == Of(Summed(op, s))
    ensures RecLen(op) <= |c| && c[..RecLen(op)] == EncodeRecord(op, s)
  {
    hide DecodeRecord, EncodePayload, Loggable, Summed;
    AcceptedIsGenuine(c, op, s);
    var e := EncodeRecord(op, s);
    RecordLayout(op, s, []);
    assert e + [] == e;
    Assemble(c, e);
  }

  lemma {:induction false} Assemble(c: seq<Cell>, e: seq<Cell>)
    requires WAL_HEADER <= |e| <= |c| && c[..4] == e[..4] && c[16..WAL_HEADER] == e[16..WAL_HEADER]
    requires c[4..16] + c[WAL_HEADER..|e|] == e[4..16] + e[WAL_HEADER..|e|]
    ensures c[..|e|] == e
  {
    assert c[4..16] == (c[4..16] + c[WAL_HEADER..|e|])[..12];
    assert c[WAL_HEADER..|e|] == (c[4..16] + c[WAL_HEADER..|e|])[12..];
    assert c[..|e|] == c[..4] + c[4..16] + c[16..WAL_HEADER] + c[WAL_HEADER..|e|];
    assert e == e[..4] + e[4..16] + e[16..WAL_HEADER] + e[WAL_HEADER..|e|];
  }

  // ── The walk over an honest log ──

  predicate AllLoggable(ops: seq<WalOp>) {
    forall i :: 0 <= i < |ops| ==> Loggable(ops[i])
  }

  /** The walk passes over an honest log and goes on behind it. */
  lemma {:induction false} WalkLog(c: seq<Cell>, off: nat, ops: seq<WalOp>, seqno: nat)
    requires AllLoggable(ops) && seqno + |ops| <= U64
    requires off + LogLen(ops) <= |c|
    requires c[off..off + LogLen(ops)] == EncodeLog(ops, seqno)
    ensures Walk(c, off, seqno) == Recs(ops, off, seqno) + Walk(c, off + LogLen(ops), seqno + |ops|)
    decreases |ops|
  {
    hide DecodeRecord, EncodeRecord, EncodePayload, Loggable, Walk;
    if ops != [] {
      var n := RecLen(ops[0]);
      LogFront(c, off, ops, seqno);
      RecordRoundTrip(ops[0], seqno, c[off + n..]);
      WalkStep(c, off, seqno);
      WalkLog(c, off + n, ops[1..], seqno + 1);
    } else {
      assert Recs(ops, off, seqno) + Walk(c, off, seqno) == Walk(c, off, seqno);
    }
  }

  lemma {:induction false} LogFront(c: seq<Cell>, off: nat, ops: seq<WalOp>, seqno: nat)
    requires ops != [] && off + LogLen(ops) <= |c| && c[off..off + LogLen(ops)] == EncodeLog(ops, seqno)
    ensures var n := RecLen(ops[0]);
            && c[off..] == EncodeRecord(ops[0], seqno) + c[off + n..]
            && c[off + n..off + n + LogLen(ops[1..])] == EncodeLog(ops[1..], seqno + 1)
  {
    hide EncodeRecord, EncodePayload;
    var n, e := RecLen(ops[0]), EncodeLog(ops, seqno);
    assert c[off..off + n] == e[..n] == EncodeRecord(ops[0], seqno);
    assert c[off + n..off + n + LogLen(ops[1..])] == e[n..];
  }
}
