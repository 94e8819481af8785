/** The A/B superblock pair: the slot codec, what tearing can make of a slot, and the choice
    mount makes between the two. */
module Superblock {
  import opened Cells

  const SB_SIZE := 4096
  const SB_A_OFF := 0
  const SB_B_OFF := 4096
  const SB_BODY := 96
  const SB_MAGIC: Bytes := [0x45, 0x55, 0x4E, 0x4F, 0x4D, 0x49, 0x41, 0x00]
  const SB_VERSION := 5

  datatype Superblock = Superblock(
    generation: nat, refTable: Hash, walHead: nat, walNextSeq: nat,
    walLen: nat, chunkTail: nat, indexOff: nat)

  predicate Fits(sb: Superblock) {
    && sb.generation < U64 && sb.walHead < U64 && sb.walNextSeq < U64
    && sb.walLen < U64 && sb.chunkTail < U64 && sb.indexOff < U64
  }

  function Body(sb: Superblock): (c: seq<Cell>)
    ensures |c| == SB_BODY
  {
    Lift(SB_MAGIC + Le(SB_VERSION, 4) + [0, 0, 0, 0] + Le(sb.generation, 8))
    + HashCells(sb.refTable)
    + Lift(Le(sb.walHead, 8) + Le(sb.walNextSeq, 8) + Le(sb.walLen, 8) + Le(sb.chunkTail, 8) + Le(sb.indexOff, 8))
  }

  function Zeros(n: nat): (c: seq<Cell>)
    ensures |c| == n
  {
    seq(n, _ => Raw(0))
  }

  function Encode(sb: Superblock): (c: seq<Cell>)
    ensures |c| == SB_SIZE
  {
    Body(sb) + HashCells(Of(Body(sb))) + Zeros(SB_SIZE - SB_BODY - 32)
  }

  function Num(c: seq<Cell>, at: nat, k: nat): nat
    requires at + k <= |c|
  {
    UnLe(Low(c[at..at + k]))
  }

  /** `None`: torn, unwritten, of another version, or no superblock at all. */
  function Decode(c: seq<Cell>): (r: Option<Superblock>) {
    if |c| != SB_SIZE || c[..8] != Lift(SB_MAGIC) || c[SB_BODY..SB_BODY + 32] != HashCells(Of(c[..SB_BODY])) then
      None else
    if Num(c, 8, 4) != SB_VERSION then None else
    var refTable :- ReadHash(c[24..56]);
    Some(Superblock(Num(c, 16, 8), refTable, Num(c, 56, 8), Num(c, 64, 8), Num(c, 72, 8), Num(c, 80, 8), Num(c, 88, 8)))
  }

  lemma {:induction false} LiftPart(b: Bytes, from: nat, k: nat)
    requires from + k <= |b|
    ensures Low(Lift(b)[from..from + k]) == b[from..from + k]
  {
    assert Lift(b)[from..from + k] == Lift(b[from..from + k]);
  }

  lemma {:induction false} BodyParts(sb: Superblock)
    ensures var c := Body(sb);
            && c[..8] == Lift(SB_MAGIC)
            && Low(c[8..12]) == Le(SB_VERSION, 4)
            && Low(c[16..24]) == Le(sb.generation, 8)
            && c[24..56] == HashCells(sb.refTable)
            && Low(c[56..64]) == Le(sb.walHead, 8)
            && Low(c[64..72]) == Le(sb.walNextSeq, 8)
            && Low(c[72..80]) == Le(sb.walLen, 8)
            && Low(c[80..88]) == Le(sb.chunkTail, 8)
            && Low(c[88..96]) == Le(sb.indexOff, 8)
  {
    hide Le;
    var c := Body(sb);
    var b := SB_MAGIC + Le(SB_VERSION, 4) + [0, 0, 0, 0] + Le(sb.generation, 8);
    var t := Le(sb.walHead, 8) + Le(sb.walNextSeq, 8) + Le(sb.walLen, 8) + Le(sb.chunkTail, 8) + Le(sb.indexOff, 8);
    assert c[..24] == Lift(b) && c[56..] == Lift(t);
    LiftPart(b, 8, 4);
    LiftPart(b, 16, 8);
    assert c[8..12] == c[..24][8..12] && c[16..24] == c[..24][16..24];
    forall i | 0 <= i < 5
      ensures Low(c[56 + 8 * i..64 + 8 * i]) == t[8 * i..8 * i + 8]
    {
      LiftPart(t, 8 * i, 8);
      assert c[56 + 8 * i..64 + 8 * i] == c[56..][8 * i..8 * i + 8];
    }
    assert Low(c[56 + 8 * 0..64 + 8 * 0]) == Le(sb.walHead, 8);
    assert Low(c[56 + 8 * 1..64 + 8 * 1]) == Le(sb.walNextSeq, 8);
    assert Low(c[56 + 8 * 2..64 + 8 * 2]) == Le(sb.walLen, 8);
    assert Low(c[56 + 8 * 3..64 + 8 * 3]) == Le(sb.chunkTail, 8);
    assert Low(c[56 + 8 * 4..64 + 8 * 4]) == Le(sb.indexOff, 8);
  }

  /** The slot carries `sb`; the cells behind the checksum are not looked at. */
  ghost predicate Carries(c: seq<Cell>, sb: Superblock) {
    |c| == SB_SIZE && c[..SB_BODY] == Body(sb) && c[SB_BODY..SB_BODY + 32] == HashCells(Of(Body(sb)))
  }

  lemma {:induction false} DecodeEncoded(c: seq<Cell>, sb: Superblock)
    requires Fits(sb) && Carries(c, sb)
    ensures Decode(c) == Some(sb)
  {
    hide Le, UnLe, Body;
    BodyParts(sb);
    var b := Body(sb);
    assert c[..8] == b[..8] && c[8..12] == b[8..12] && c[16..24] == b[16..24] && c[24..56] == b[24..56];
    assert c[56..64] == b[56..64] && c[64..72] == b[64..72] && c[72..80] == b[72..80];
    assert c[80..88] == b[80..88] && c[88..96] == b[88..96];
    ReadHashCells(sb.refTable);
    Le32(SB_VERSION);
    Le64(sb.generation);
    Le64(sb.walHead);
    Le64(sb.walNextSeq);
    Le64(sb.walLen);
    Le64(sb.chunkTail);
    Le64(sb.indexOff);
  }

  lemma {:induction false} RoundTrip(sb: Superblock)
    requires Fits(sb)
    ensures Decode(Encode(sb)) == Some(sb)
  {
    hide Body;
    DecodeEncoded(Encode(sb), sb);
  }

  // ── Tearing ──

  /** The generation bound into a superblock checksum. */
  function GenOf(h: Hash): nat {
    if |h.content| != SB_BODY then 0 else UnLe(Low(h.content[16..24]))
  }

  /** No checksum in this slot vouches for generation `g` or later. */
  ghost predicate Outdated(c: seq<Cell>, g: nat) {
    |c| == SB_SIZE && forall h :: c[SB_BODY..SB_BODY + 32] == HashCells(h) ==> GenOf(h) < g
  }

  lemma {:induction false} OutdatedLoses(c: seq<Cell>, g: nat)
    requires Outdated(c, g)
    ensures Decode(c).None? || Decode(c).value.generation < g
  {
    if Decode(c).Some? {
      assert c[..SB_BODY][16..24] == c[16..24];
    }
  }

  lemma {:induction false} EncodedGeneration(c: seq<Cell>, sb: Superblock)
    requires Fits(sb) && Carries(c, sb)
    ensures Outdated(c, sb.generation + 1)
  {
    forall h | c[SB_BODY..SB_BODY + 32] == HashCells(h)
      ensures GenOf(h) < sb.generation + 1
    {
      hide Le, UnLe, Body;
      assert HashCells(h)[0] == HashCells(Of(Body(sb)))[0];
      BodyParts(sb);
      Le64(sb.generation);
    }
  }

  /** Tearing a superblock write over an outdated slot leaves the new superblock or an outdated
      slot: a graft of the two never passes the checksum. */
  lemma {:induction false} TornSlot(c: seq<Cell>, g: nat, sb: Superblock, k: nat)
    requires Outdated(c, g) && Fits(sb) && k <= SB_SIZE
    ensures var t := Encode(sb)[..k] + c[k..];
            Carries(t, sb) || Outdated(t, g)
  {
    hide Body, GenOf;
    var e := Encode(sb);
    var t := e[..k] + c[k..];
    if k <= SB_BODY {
      assert t[SB_BODY..SB_BODY + 32] == c[SB_BODY..SB_BODY + 32];
    } else {
      assert t[SB_BODY] == e[SB_BODY] == Dig(Of(Body(sb)), 0);
      assert t[..SB_BODY] == e[..SB_BODY] == Body(sb);
      forall h | t[SB_BODY..SB_BODY + 32] == HashCells(h)
        ensures Carries(t, sb)
      {
        assert t[SB_BODY..SB_BODY + 32][0] == HashCells(h)[0];
      }
    }
  }

  // ── The survivor ──

  datatype Survivor = SlotA | SlotB | Neither

  function PickSurvivor(a: Option<Superblock>, b: Option<Superblock>): (r: Survivor) {
    if a.Some? && b.Some? then (if a.value.generation >= b.value.generation then SlotA else SlotB)
    else if a.Some? then SlotA
    else if b.Some? then SlotB
    else Neither
  }
}
