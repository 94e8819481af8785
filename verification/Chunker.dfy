/** Content-defined chunking. The gear table is a parameter; the rolling fingerprint, the two masks
    and the size limits are as in the format. */
module Chunker {
  import opened Cells

  /** `gear` is the fingerprint table; `avg` is a power of two. */
  datatype Params = Params(min: nat, avg: nat, max: nat, gear: Byte -> nat)

  predicate Valid(ps: Params) {
    16 <= ps.avg && 1 <= ps.min < ps.avg < ps.max
  }

  function Min(a: nat, b: nat): nat {
    if a < b then a else b
  }

  function Roll(ps: Params, fp: nat, b: Byte): nat {
    (2 * fp + ps.gear(b)) % U64
  }

  /** The strict mask below the target size keeps two bits more, the loose one above it two fewer. */
  predicate Hit(ps: Params, pos: nat, fp: nat)
    requires Valid(ps)
  {
    fp % (if pos < ps.avg then 4 * ps.avg else ps.avg / 4) == 0
  }

  function AtEnd(ps: Params, data: Bytes): Option<nat> {
    if |data| >= ps.max then Some(ps.max) else None
  }

  function Scan(ps: Params, data: Bytes, pos: nat, fp: nat): (r: Option<nat>)
    requires Valid(ps) && pos <= Min(|data|, ps.max)
    ensures r.Some? ==> pos < r.value <= ps.max || r.value == ps.max
    ensures r.Some? ==> r.value <= |data|
    ensures r.None? ==> |data| < ps.max
    decreases |data| - pos
  {
    if pos == Min(|data|, ps.max) then AtEnd(ps, data)
    else
      var fp' := Roll(ps, fp, data[pos]);
      if Hit(ps, pos, fp') then Some(pos + 1) else Scan(ps, data, pos + 1, fp')
  }

  /** The first cut of `data`, taking offset 0 as a chunk start; `None` if more input is needed. */
  function Boundary(ps: Params, data: Bytes): (r: Option<nat>)
    requires Valid(ps)
    ensures r.Some? ==> ps.min < r.value <= ps.max && r.value <= |data|
    ensures r.None? ==> |data| < ps.max
  {
    if Min(|data|, ps.max) <= ps.min then AtEnd(ps, data) else Scan(ps, data, ps.min, 0)
  }

  /** The fingerprint of `data[lo..hi]`: each byte shifts it and adds its entry of the gear table, in 64 bits. */
  function Fingerprint(ps: Params, data: Bytes, lo: nat, hi: nat): nat
    requires lo <= hi <= |data|
    decreases hi
  {
    if hi == lo then 0 else (2 * Fingerprint(ps, data, lo, hi - 1) + ps.gear(data[hi - 1])) % U64
  }

  /** The fingerprint from the minimum up to and including `pos` has its low bits clear: two more of them than the
      target size asks for below the target, two fewer from it on. */
  predicate Clears(ps: Params, data: Bytes, pos: nat)
    requires Valid(ps) && ps.min <= pos < |data|
  {
    Fingerprint(ps, data, ps.min, pos + 1) % (if pos < ps.avg then 4 * ps.avg else ps.avg / 4) == 0
  }

  predicate NoneClears(ps: Params, data: Bytes, end: nat)
    requires Valid(ps) && end <= |data|
  {
    forall pos :: ps.min <= pos < end ==> !Clears(ps, data, pos)
  }

  /** A cut: one past the first position that clears, or at the maximum when none before the last one does. Without
      a cut there is less than the maximum and none clears. */
  predicate FirstCut(ps: Params, data: Bytes, r: Option<nat>)
    requires Valid(ps)
  {
    match r
    case None => |data| < ps.max && NoneClears(ps, data, |data|)
    case Some(k) =>
      && ps.min < k <= ps.max && k <= |data| && NoneClears(ps, data, k - 1)
      && (k < ps.max ==> Clears(ps, data, k - 1))
  }

  lemma {:induction false} ScanCuts(ps: Params, data: Bytes, pos: nat, fp: nat)
    requires Valid(ps) && ps.min <= pos <= Min(|data|, ps.max)
    requires fp == Fingerprint(ps, data, ps.min, pos) && NoneClears(ps, data, pos)
    requires pos == Min(|data|, ps.max) ==> ps.min < pos
    ensures FirstCut(ps, data, Scan(ps, data, pos, fp))
    decreases |data| - pos
  {
    if pos < Min(|data|, ps.max) {
      var fp' := Roll(ps, fp, data[pos]);
      assert fp' == Fingerprint(ps, data, ps.min, pos + 1);
      if !Hit(ps, pos, fp') {
        assert !Clears(ps, data, pos);
        ScanCuts(ps, data, pos + 1, fp');
      }
    }
  }

  /** The cut is where the fingerprint says. */
  lemma {:induction false} BoundaryCuts(ps: Params, data: Bytes)
    requires Valid(ps)
    ensures FirstCut(ps, data, Boundary(ps, data))
  {
    if Min(|data|, ps.max) > ps.min {
      ScanCuts(ps, data, ps.min, 0);
    }
  }

  method FindBoundary(ps: Params, data: Bytes) returns (r: Option<nat>)
    requires Valid(ps)
    ensures FirstCut(ps, data, r)
    ensures r == Boundary(ps, data)
  {
    BoundaryCuts(ps, data);
    var end := Min(|data|, ps.max);
    if end <= ps.min {
      return AtEnd(ps, data);
    }
    var fp, pos := 0, ps.min;
    while pos < end
      invariant ps.min <= pos <= end
      invariant Scan(ps, data, pos, fp) == Boundary(ps, data)
    {
      fp := Roll(ps, fp, data[pos]);
      if Hit(ps, pos, fp) {
        return Some(pos + 1);
      }
      pos := pos + 1;
    }
    return AtEnd(ps, data);
  }

  /** A cut depends only on the bytes before it. */
  lemma {:induction false} ScanPrefix(ps: Params, a: Bytes, b: Bytes, pos: nat, fp: nat)
    requires Valid(ps) && pos <= Min(|a|, ps.max)
    requires Scan(ps, a, pos, fp).Some?
    requires var k := Scan(ps, a, pos, fp).value; k <= |b| && a[..k] == b[..k] && pos <= |b|
    ensures Scan(ps, b, pos, fp) == Scan(ps, a, pos, fp)
    decreases |a| - pos
  {
    var k := Scan(ps, a, pos, fp).value;
    if pos < Min(|a|, ps.max) {
      assert pos < k;
      assert a[pos] == a[..k][pos] == b[..k][pos];
      if !Hit(ps, pos, Roll(ps, fp, a[pos])) {
        ScanPrefix(ps, a, b, pos + 1, Roll(ps, fp, a[pos]));
      }
    }
  }

  lemma {:induction false} BoundaryPrefix(ps: Params, a: Bytes, b: Bytes)
    requires Valid(ps) && Boundary(ps, a).Some?
    requires var k := Boundary(ps, a).value; k <= |b| && a[..k] == b[..k]
    ensures Boundary(ps, b) == Boundary(ps, a)
  {
    ScanPrefix(ps, a, b, ps.min, 0);
  }

  /** The next chunk's length: a cut, or all that is left. */
  function NextCut(ps: Params, data: Bytes): (k: nat)
    requires Valid(ps) && data != []
    ensures 0 < k <= |data| && k <= ps.max
  {
    var b := Boundary(ps, data);
    if b.Some? then b.value else |data|
  }

  /** The chunks of a complete buffer. */
  function Chunks(ps: Params, data: Bytes): seq<Bytes>
    requires Valid(ps)
    decreases |data|
  {
    if data == [] then [] else
      var k := NextCut(ps, data);
      [data[..k]] + Chunks(ps, data[k..])
  }

  function Concat(cs: seq<Bytes>): Bytes {
    if cs == [] then [] else cs[0] + Concat(cs[1..])
  }

  /** Exclusive chunk ends. */
  function Ends(cs: seq<Bytes>, from: nat): seq<nat> {
    if cs == [] then [] else [from + |cs[0]|] + Ends(cs[1..], from + |cs[0]|)
  }

  /** The loop that lists the cut positions of a buffer. */
  method Boundaries(ps: Params, data: Bytes) returns (cuts: seq<nat>)
    requires Valid(ps)
    ensures cuts == Ends(Chunks(ps, data), 0)
  {
    hide Boundary, Ends, Chunks;
    cuts := [];
    var start := 0;
    assert data[0..] == data;
    while start < |data|
      invariant 0 <= start <= |data|
      invariant cuts + Ends(Chunks(ps, data[start..]), start) == Ends(Chunks(ps, data), 0)
    {
      var b := FindBoundary(ps, data[start..]);
      var cut := if b.Some? then b.value else |data| - start;
      EndsStep(ps, data, start, cut);
      start := start + cut;
      cuts := cuts + [start];
    }
    assert data[start..] == [];
    EndsNone(ps, start);
  }

  lemma {:induction false} EndsNone(ps: Params, start: nat)
    requires Valid(ps)
    ensures Ends(Chunks(ps, []), start) == []
  {
  }

  lemma {:induction false} EndsStep(ps: Params, data: Bytes, start: nat, cut: nat)
    requires Valid(ps) && start < |data| && cut == NextCut(ps, data[start..])
    ensures Ends(Chunks(ps, data[start..]), start) == [start + cut] + Ends(Chunks(ps, data[start + cut..]), start + cut)
  {
    var cs := Chunks(ps, data[start..]);
    assert data[start..][cut..] == data[start + cut..];
    assert cs == [data[start..][..cut]] + Chunks(ps, data[start + cut..]);
    assert cs[1..] == Chunks(ps, data[start + cut..]);
  }

  lemma {:induction false} ChunksConcat(ps: Params, data: Bytes)
    requires Valid(ps)
    ensures Concat(Chunks(ps, data)) == data
    decreases |data|
  {
    if data != [] {
      var k := NextCut(ps, data);
      ChunksConcat(ps, data[k..]);
      assert Chunks(ps, data)[1..] == Chunks(ps, data[k..]);
      assert data == data[..k] + data[k..];
    }
  }

  /** Every chunk is at most `max` long, and every chunk but the last longer than `min`. */
  lemma {:induction false} ChunkSizes(ps: Params, data: Bytes, i: nat)
    requires Valid(ps) && i < |Chunks(ps, data)|
    ensures 0 < |Chunks(ps, data)[i]| <= ps.max
    ensures i + 1 < |Chunks(ps, data)| ==> |Chunks(ps, data)[i]| > ps.min
    decreases i
  {
    var k := NextCut(ps, data);
    if i > 0 {
      ChunkSizes(ps, data[k..], i - 1);
    } else if 1 < |Chunks(ps, data)| {
      assert data[k..] != [];
    }
  }

  // ── Streaming ──

  /** Cut off complete chunks as long as a boundary is found. */
  function Drain(ps: Params, buf: Bytes): (seq<Bytes>, Bytes)
    requires Valid(ps)
    decreases |buf|
  {
    var b := Boundary(ps, buf);
    if b.None? then ([], buf) else
      var (cs, rest) := Drain(ps, buf[b.value..]);
      ([buf[..b.value]] + cs, rest)
  }

  function Tail(rest: Bytes): seq<Bytes> {
    if rest == [] then [] else [rest]
  }

  lemma {:induction false} DrainIsChunks(ps: Params, data: Bytes)
    requires Valid(ps)
    ensures var (cs, rest) := Drain(ps, data); Chunks(ps, data) == cs + Tail(rest) && |rest| < ps.max
    decreases |data|
  {
    var b := Boundary(ps, data);
    if b.Some? {
      DrainIsChunks(ps, data[b.value..]);
    } else if data != [] {
      assert data[|data|..] == [] && data[..|data|] == data;
    }
  }

  lemma {:induction false} DrainStep(ps: Params, buf: Bytes)
    requires Valid(ps) && Boundary(ps, buf).Some?
    ensures var k := Boundary(ps, buf).value; var (cs, rest) := Drain(ps, buf[k..]);
            Drain(ps, buf) == ([buf[..k]] + cs, rest)
  {
  }

  /** Draining early loses nothing: what is left over is drained with what comes next. */
  lemma {:induction false} DrainAppend(ps: Params, a: Bytes, b: Bytes)
    requires Valid(ps)
    ensures var (cs, rest) := Drain(ps, a); var (cs', rest') := Drain(ps, rest + b);
            Drain(ps, a + b) == (cs + cs', rest')
    decreases |a|
  {
    hide Boundary;
    var k := Boundary(ps, a);
    if k.Some? {
      assert (a + b)[..k.value] == a[..k.value];
      BoundaryPrefix(ps, a, a + b);
      assert (a + b)[k.value..] == a[k.value..] + b;
      DrainAppend(ps, a[k.value..], b);
      DrainStep(ps, a);
      DrainStep(ps, a + b);
      var (cs, rest) := Drain(ps, a[k.value..]);
      var cs' := Drain(ps, rest + b).0;
      assert [a[..k.value]] + (cs + cs') == [a[..k.value]] + cs + cs';
    } else {
      var cs' := Drain(ps, a + b).0;
      assert [] + cs' == cs';
    }
  }

  /** `chunks` are the complete chunks of `buf` up to `start`. */
  ghost predicate Drained(ps: Params, buf: Bytes, start: nat, chunks: seq<Bytes>)
    requires Valid(ps) && start <= |buf|
  {
    var (cs, rest) := Drain(ps, buf[start..]);
    Drain(ps, buf) == (chunks + cs, rest)
  }

  lemma {:induction false} DrainedNone(ps: Params, buf: Bytes)
    requires Valid(ps)
    ensures Drained(ps, buf, 0, [])
  {
    hide Drain;
    assert buf[0..] == buf;
    var cs := Drain(ps, buf).0;
    assert [] + cs == cs;
  }

  lemma {:induction false} DrainedMore(ps: Params, buf: Bytes, start: nat, chunks: seq<Bytes>)
    requires Valid(ps) && start <= |buf| && Drained(ps, buf, start, chunks)
    requires Boundary(ps, buf[start..]).Some?
    ensures var k := Boundary(ps, buf[start..]).value;
            Drained(ps, buf, start + k, chunks + [buf[start..start + k]])
  {
    hide Boundary, Drain;
    var k := Boundary(ps, buf[start..]).value;
    DrainStep(ps, buf[start..]);
    assert buf[start..][..k] == buf[start..start + k];
    assert buf[start..][k..] == buf[start + k..];
    var cs := Drain(ps, buf[start + k..]).0;
    assert chunks + ([buf[start..start + k]] + cs) == chunks + [buf[start..start + k]] + cs;
  }

  class StreamChunker {
    const ps: Params
    var buf: Bytes

    constructor (ps: Params)
      requires Valid(ps)
      ensures this.ps == ps && buf == []
    {
      this.ps := ps;
      buf := [];
    }

    /** Push bytes; the completed chunks come back in order. */
    method Push(data: Bytes) returns (chunks: seq<Bytes>)
      requires Valid(ps)
      modifies this
      ensures (chunks, buf) == Drain(ps, old(buf) + data)
    {
      buf := buf + data;
      chunks := [];
      var start := 0;
      var cut := FindBoundary(ps, buf);
      DrainedNone(ps, buf);
      while cut.Some?
        invariant 0 <= start <= |buf| && buf == old(buf) + data
        invariant cut == Boundary(ps, buf[start..])
        invariant Drained(ps, buf, start, chunks)
        decreases |buf| - start
      {
        DrainedMore(ps, buf, start, chunks);
        chunks := chunks + [buf[start..start + cut.value]];
        start := start + cut.value;
        cut := FindBoundary(ps, buf[start..]);
      }
      assert chunks + [] == chunks;
      buf := buf[start..];
    }

    /** The buffered rest is the final chunk. */
    method Flush() returns (chunks: seq<Bytes>)
      ensures chunks == Tail(buf)
    {
      if buf != [] {
        chunks := [buf];
      } else {
        chunks := [];
      }
    }
  }

  lemma {:induction false} DrainEmpty(ps: Params)
    requires Valid(ps)
    ensures Drain(ps, []) == ([], [])
  {
  }

  /** However the input is cut into pushes, the chunks are those of the whole input. */
  method ChunkAll(ps: Params, pieces: seq<Bytes>) returns (chunks: seq<Bytes>)
    requires Valid(ps)
    ensures chunks == Chunks(ps, Concat(pieces))
  {
    hide Boundary, Drain, Chunks;
    var c := new StreamChunker(ps);
    chunks := [];
    DrainEmpty(ps);
    ghost var done: Bytes := [];
    var i := 0;
    assert pieces[0..] == pieces;
    while i < |pieces|
      invariant 0 <= i <= |pieces| && c.ps == ps && fresh(c)
      invariant done + Concat(pieces[i..]) == Concat(pieces)
      invariant (chunks, c.buf) == Drain(ps, done)
    {
      var got := c.Push(pieces[i]);
      DrainAppend(ps, done, pieces[i]);
      chunks := chunks + got;
      assert pieces[i..][1..] == pieces[i + 1..];
      done := done + pieces[i];
      i := i + 1;
    }
    assert done == Concat(pieces);
    DrainIsChunks(ps, done);
    var last := c.Flush();
    chunks := chunks + last;
  }
}
