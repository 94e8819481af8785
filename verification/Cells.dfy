/** Symbolic disk contents. A cell is a raw byte or one byte of a BLAKE3 digest. A digest
    remembers the cells it was computed from, so `Hash` is injective by construction and a
    digest can be produced only by hashing; nothing else about BLAKE3 is used. */
module Cells {
  type Byte = b: int | 0 <= b < 256
  type Bytes = seq<Byte>
  type Path = seq<Bytes>

  datatype Option<+T> = None | Some(value: T) {
    predicate IsFailure() {
      None?
    }

    function PropagateFailure<U>(): Option<U>
      requires None?
    {
      None
    }

    function Extract(): T
      requires Some?
    {
      value
    }
  }

  datatype Hash = Of(content: seq<Cell>)
  datatype Cell = Raw(b: Byte) | Dig(h: Hash, i: nat)

  const U16 := 0x1_0000
  const U32 := 0x1_0000_0000
  const U64 := 0x1_0000_0000_0000_0000

  // ── Digests and raw bytes as cells ──

  function HashCells(h: Hash): (c: seq<Cell>)
    ensures |c| == 32
    ensures forall k :: 0 <= k < 32 ==> c[k] == Dig(h, k)
  {
    seq(32, (k: nat) => Dig(h, k))
  }

  /** The hash whose digest these 32 cells are, if they are a digest at all. */
  function ReadHash(c: seq<Cell>): (r: Option<Hash>)
    ensures r.Some? ==> c == HashCells(r.value)
  {
    if |c| == 32 && c[0].Dig? && c == HashCells(c[0].h) then Some(c[0].h) else None
  }

  lemma {:induction false} ReadHashCells(h: Hash)
    ensures ReadHash(HashCells(h)) == Some(h)
  {
    assert HashCells(h)[0] == Dig(h, 0);
  }

  function Lift(b: Bytes): (c: seq<Cell>)
    ensures |c| == |b|
    ensures forall k :: 0 <= k < |b| ==> c[k] == Raw(b[k])
  {
    seq(|b|, k requires 0 <= k < |b| => Raw(b[k]))
  }

  /** The byte a decoder sees; the numeric value of a digest byte is never used by an honest image. */
  function Low(c: seq<Cell>): (b: Bytes)
    ensures |b| == |c|
    ensures forall k :: 0 <= k < |c| ==> b[k] == if c[k].Raw? then c[k].b else 0
  {
    seq(|c|, k requires 0 <= k < |c| => if c[k].Raw? then c[k].b else 0)
  }

  lemma {:induction false} LowLift(b: Bytes)
    ensures Low(Lift(b)) == b
  {
  }

  // ── Little-endian integers ──

  function Pow256(k: nat): (p: nat)
    ensures p >= 1
  {
    if k == 0 then 1 else 256 * Pow256(k - 1)
  }

  function Le(n: nat, k: nat): (b: Bytes)
    ensures |b| == k
  {
    if k == 0 then [] else [n % 256] + Le(n / 256, k - 1)
  }

  function UnLe(b: Bytes): (n: nat)
    ensures n < Pow256(|b|)
  {
    if b == [] then 0 else b[0] + 256 * UnLe(b[1..])
  }

  lemma {:induction false} UnLeLe(n: nat, k: nat)
    requires n < Pow256(k)
    ensures UnLe(Le(n, k)) == n
  {
    if k > 0 {
      UnLeLe(n / 256, k - 1);
      assert Le(n, k)[1..] == Le(n / 256, k - 1);
    }
  }

  lemma {:induction false} Powers()
    ensures Pow256(2) == U16 && Pow256(4) == U32 && Pow256(8) == U64
  {
    assert Pow256(1) == 256;
    assert Pow256(2) == U16;
    assert Pow256(3) == 256 * U16;
    assert Pow256(4) == U32;
    assert Pow256(5) == 256 * U32;
    assert Pow256(6) == U16 * U32;
    assert Pow256(7) == 256 * U16 * U32;
  }

  lemma {:induction false} Le16(n: nat)
    requires n < U16
    ensures UnLe(Le(n, 2)) == n
  {
    Powers();
    UnLeLe(n, 2);
  }

  lemma {:induction false} Le32(n: nat)
    requires n < U32
    ensures UnLe(Le(n, 4)) == n
  {
    Powers();
    UnLeLe(n, 4);
  }

  lemma {:induction false} Le64(n: nat)
    requires n < U64
    ensures UnLe(Le(n, 8)) == n
  {
    Powers();
    UnLeLe(n, 8);
  }
}
