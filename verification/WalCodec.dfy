/** Write-ahead-log records: the payload codec, the framed record with its checksum, and the
    structural walker that recovery runs before it decodes. */
module WalCodec {
  import opened Cells

  datatype WalOp =
    | Write(ref: Bytes, path: Path, offset: nat, mtime: nat, data: Bytes)
    | Unlink(ref: Bytes, path: Path, mtime: nat)
    | Rename(ref: Bytes, from: Path, to: Path, mtime: nat)

  const WAL_HEADER := 48
  const WAL_MAGIC: Bytes := [0x57, 0x52, 0x45, 0x43]

  // ── Payload encoder ──

  function PutName(n: Bytes): Bytes {
    [|n| % 256] + n
  }

  function PutNames(p: Path): Bytes {
    if p == [] then [] else PutName(p[0]) + PutNames(p[1..])
  }

  /** Lengths are cast to `u8`, so they wrap beyond 255. */
  function PutPath(p: Path): Bytes {
    [|p| % 256] + PutNames(p)
  }

  function EncodePayload(op: WalOp): Bytes {
    match op
    case Write(r, p, off, mt, data) =>
      [1] + (PutName(r) + (PutPath(p) + (Le(off, 8) + (Le(mt, 8) + (Le(|data|, 4) + data)))))
    case Unlink(r, p, mt) =>
      [2] + (PutName(r) + (PutPath(p) + Le(mt, 8)))
    case Rename(r, from, to, mt) =>
      [3] + (PutName(r) + (PutPath(from) + (PutPath(to) + Le(mt, 8))))
  }

  // ── Payload decoder: each step returns its value and the unread rest ──

  function Take(b: Bytes, n: nat): Option<(Bytes, Bytes)> {
    if n <= |b| then Some((b[..n], b[n..])) else None
  }

  function TakeNum(b: Bytes, k: nat): Option<(nat, Bytes)> {
    var (v, rest) :- Take(b, k);
    Some((UnLe(v), rest))
  }

  function TakeName(b: Bytes): Option<(Bytes, Bytes)> {
    var (n, rest) :- Take(b, 1);
    Take(rest, n[0])
  }

  function TakeNames(b: Bytes, count: nat): Option<(Path, Bytes)> {
    if count == 0 then Some(([], b)) else
      var (name, rest) :- TakeName(b);
      var (names, rest') :- TakeNames(rest, count - 1);
      Some(([name] + names, rest'))
  }

  function TakePath(b: Bytes): Option<(Path, Bytes)> {
    var (n, rest) :- Take(b, 1);
    TakeNames(rest, n[0])
  }

  function Done(op: WalOp, rest: Bytes): Option<WalOp> {
    if rest == [] then Some(op) else None
  }

  function DecodePayload(b: Bytes): Option<WalOp> {
    var (tag, b1) :- Take(b, 1);
    if tag[0] == 1 then
      var (r, b2) :- TakeName(b1);
      var (p, b3) :- TakePath(b2);
      var (off, b4) :- TakeNum(b3, 8);
      var (mt, b5) :- TakeNum(b4, 8);
      var (dl, b6) :- TakeNum(b5, 4);
      var (data, b7) :- Take(b6, dl);
      Done(Write(r, p, off, mt, data), b7)
    else if tag[0] == 2 then
      var (r, b2) :- TakeName(b1);
      var (p, b3) :- TakePath(b2);
      var (mt, b4) :- TakeNum(b3, 8);
      Done(Unlink(r, p, mt), b4)
    else if tag[0] == 3 then
      var (r, b2) :- TakeName(b1);
      var (from, b3) :- TakePath(b2);
      var (to, b4) :- TakePath(b3);
      var (mt, b5) :- TakeNum(b4, 8);
      Done(Rename(r, from, to, mt), b5)
    else None
  }

  // ── The structural walker of recovery: positions only, nothing is built ──

  function Skip(b: Bytes, pos: nat, n: nat): Option<nat> {
    if pos + n <= |b| then Some(pos + n) else None
  }

  function SkipName(b: Bytes, pos: nat): Option<nat> {
    var p :- Skip(b, pos, 1);
    Skip(b, p, b[pos])
  }

  function SkipNames(b: Bytes, pos: nat, count: nat): Option<nat>
    decreases count
  {
    if count == 0 then Some(pos) else
      var p :- SkipName(b, pos);
      SkipNames(b, p, count - 1)
  }

  function SkipPath(b: Bytes, pos: nat): Option<nat> {
    var p :- Skip(b, pos, 1);
    SkipNames(b, p, b[pos])
  }

  function WalkPayload(b: Bytes): Option<nat> {
    var p1 :- Skip(b, 0, 1);
    if b[0] == 1 then
      var p2 :- SkipName(b, p1);
      var p3 :- SkipPath(b, p2);
      var p4 :- Skip(b, p3, 8);
      var p5 :- Skip(b, p4, 8);
      var p6 :- Skip(b, p5, 4);
      Skip(b, p6, UnLe(b[p5..p6]))
    else if b[0] == 2 then
      var p2 :- SkipName(b, p1);
      var p3 :- SkipPath(b, p2);
      Skip(b, p3, 8)
    else if b[0] == 3 then
      var p2 :- SkipName(b, p1);
      var p3 :- SkipPath(b, p2);
      var p4 :- SkipPath(b, p3);
      Skip(b, p4, 8)
    else None
  }

  predicate StructOk(b: Bytes) {
    WalkPayload(b) == Some(|b|)
  }

  // ── Round trip ──

  predicate FitsName(n: Bytes) {
    |n| < 256
  }

  predicate FitsPath(p: Path) {
    |p| < 256 && forall i :: 0 <= i < |p| ==> FitsName(p[i])
  }

  /** The widths the format can carry. */
  predicate Fits(op: WalOp) {
    match op
    case Write(r, p, off, mt, data) => FitsName(r) && FitsPath(p) && off < U64 && mt < U64 && |data| < U32
    case Unlink(r, p, mt) => FitsName(r) && FitsPath(p) && mt < U64
    case Rename(r, from, to, mt) => FitsName(r) && FitsPath(from) && FitsPath(to) && mt < U64
  }

  lemma {:induction false} TakePut(a: Bytes, rest: Bytes)
    ensures Take(a + rest, |a|) == Some((a, rest))
  {
  }

  lemma {:induction false} TakeNumPut(n: nat, k: nat, rest: Bytes)
    requires n < Pow256(k)
    ensures TakeNum(Le(n, k) + rest, k) == Some((n, rest))
  {
    TakePut(Le(n, k), rest);
    UnLeLe(n, k);
  }

  lemma {:induction false} TakeNamePut(n: Bytes, rest: Bytes)
    requires FitsName(n)
    ensures TakeName(PutName(n) + rest) == Some((n, rest))
  {
    assert PutName(n) + rest == [|n|] + (n + rest);
    TakePut([|n|], n + rest);
    TakePut(n, rest);
  }

  lemma {:induction false} TakeNamesPut(p: Path, rest: Bytes)
    requires forall i :: 0 <= i < |p| ==> FitsName(p[i])
    ensures TakeNames(PutNames(p) + rest, |p|) == Some((p, rest))
  {
    if p != [] {
      assert PutNames(p) + rest == PutName(p[0]) + (PutNames(p[1..]) + rest);
      TakeNamePut(p[0], PutNames(p[1..]) + rest);
      TakeNamesPut(p[1..], rest);
      assert p == [p[0]] + p[1..];
    } else {
      assert PutNames(p) + rest == rest;
    }
  }

  lemma {:induction false} TakePathPut(p: Path, rest: Bytes)
    requires FitsPath(p)
    ensures TakePath(PutPath(p) + rest) == Some((p, rest))
  {
    assert PutPath(p) + rest == [|p|] + (PutNames(p) + rest);
    TakePut([|p|], PutNames(p) + rest);
    TakeNamesPut(p, rest);
  }

  /** Every record the log can carry is read back as itself. */
  lemma {:induction false} PayloadRoundTrip(op: WalOp)
    requires Fits(op)
    ensures DecodePayload(EncodePayload(op)) == Some(op)
  {
    Powers();
    match op
    case Write(r, p, off, mt, data) =>
      var t5 := Le(|data|, 4) + data;
      var t4 := Le(mt, 8) + t5;
      var t3 := Le(off, 8) + t4;
      TakePut([1], PutName(r) + (PutPath(p) + t3));
      TakeNamePut(r, PutPath(p) + t3);
      TakePathPut(p, t3);
      TakeNumPut(off, 8, t4);
      TakeNumPut(mt, 8, t5);
      TakeNumPut(|data|, 4, data);
      assert data + [] == data;
      TakePut(data, []);
    case Unlink(r, p, mt) =>
      TakePut([2], PutName(r) + (PutPath(p) + Le(mt, 8)));
      TakeNamePut(r, PutPath(p) + Le(mt, 8));
      TakePathPut(p, Le(mt, 8));
      assert Le(mt, 8) + [] == Le(mt, 8);
      TakeNumPut(mt, 8, []);
    case Rename(r, from, to, mt) =>
      TakePut([3], PutName(r) + (PutPath(from) + (PutPath(to) + Le(mt, 8))));
      TakeNamePut(r, PutPath(from) + (PutPath(to) + Le(mt, 8)));
      TakePathPut(from, PutPath(to) + Le(mt, 8));
      TakePathPut(to, Le(mt, 8));
      assert Le(mt, 8) + [] == Le(mt, 8);
      TakeNumPut(mt, 8, []);
  }

  // ── The walker accepts exactly what the decoder accepts ──

  lemma {:induction false} SkipTakesName(b: Bytes, pos: nat)
    requires pos <= |b|
    ensures SkipName(b, pos).Some? == TakeName(b[pos..]).Some?
    ensures SkipName(b, pos).Some? ==>
              SkipName(b, pos).value <= |b| && TakeName(b[pos..]).value.1 == b[SkipName(b, pos).value..]
  {
  }

  lemma {:induction false} SkipTakesNames(b: Bytes, pos: nat, count: nat)
    requires pos <= |b|
    ensures SkipNames(b, pos, count).Some? == TakeNames(b[pos..], count).Some?
    ensures SkipNames(b, pos, count).Some? ==>
              SkipNames(b, pos, count).value <= |b|
              && TakeNames(b[pos..], count).value.1 == b[SkipNames(b, pos, count).value..]
    decreases count
  {
    if count > 0 {
      SkipTakesName(b, pos);
      if SkipName(b, pos).Some? {
        SkipTakesNames(b, SkipName(b, pos).value, count - 1);
      }
    }
  }

  lemma {:induction false} SkipTakesPath(b: Bytes, pos: nat)
    requires pos <= |b|
    ensures SkipPath(b, pos).Some? == TakePath(b[pos..]).Some?
    ensures SkipPath(b, pos).Some? ==>
              SkipPath(b, pos).value <= |b| && TakePath(b[pos..]).value.1 == b[SkipPath(b, pos).value..]
  {
    if pos < |b| {
      assert b[pos..][1..] == b[pos + 1..];
      SkipTakesNames(b, pos + 1, b[pos]);
    }
  }

  lemma {:induction false} SkipTakes(b: Bytes, pos: nat, n: nat)
    requires pos <= |b|
    ensures Skip(b, pos, n).Some? == Take(b[pos..], n).Some?
    ensures Skip(b, pos, n).Some? ==>
              Take(b[pos..], n).value == (b[pos..pos + n], b[pos + n..])
  {
    if pos + n <= |b| {
      assert b[pos..][..n] == b[pos..pos + n];
    }
  }

  /** Recovery's walker and the decoder accept the same payloads, so decoding an accepted
      record during mount cannot fail. */
  lemma {:induction false} WalkerIsDecoder(b: Bytes)
    ensures StructOk(b) <==> DecodePayload(b).Some?
  {
    if b != [] {
      assert b == b[0..];
      SkipTakes(b, 0, 1);
      WalkTail(b);
    }
  }

  lemma {:induction false} WalkTail(b: Bytes)
    requires b != []
    ensures StructOk(b) <==> DecodePayload(b).Some?
  {
    hide SkipName, TakeName, SkipPath, TakePath, UnLe;
    SkipTakesName(b, 1);
    var n := SkipName(b, 1);
    if n.Some? {
      SkipTakesPath(b, n.value);
      var p := SkipPath(b, n.value);
      if p.Some? && b[0] == 1 {
        WalkData(b, p.value);
      } else if p.Some? && b[0] == 2 {
        SkipTakes(b, p.value, 8);
      } else if p.Some? {
        SkipTakesPath(b, p.value);
        var q := SkipPath(b, p.value);
        if q.Some? {
          SkipTakes(b, q.value, 8);
        }
      }
    }
  }

  /** Offset, mtime and data length of a write record, read from position `p`. */
  lemma {:induction false} WalkData(b: Bytes, p: nat)
    requires p <= |b|
    ensures p + 8 <= |b| <==> TakeNum(b[p..], 8).Some?
    ensures p + 8 <= |b| ==> TakeNum(b[p..], 8).value.1 == b[p + 8..]
    ensures p + 8 <= |b| ==> (p + 16 <= |b| <==> TakeNum(b[p + 8..], 8).Some?)
    ensures p + 16 <= |b| ==> TakeNum(b[p + 8..], 8).value.1 == b[p + 16..]
    ensures p + 16 <= |b| ==> (p + 20 <= |b| <==> TakeNum(b[p + 16..], 4).Some?)
    ensures p + 20 <= |b| ==> TakeNum(b[p + 16..], 4).value == (UnLe(b[p + 16..p + 20]), b[p + 20..])
  {
    SkipTakes(b, p, 8);
    if p + 8 <= |b| {
      SkipTakes(b, p + 8, 8);
    }
    if p + 16 <= |b| {
      SkipTakes(b, p + 16, 4);
    }
  }
}
