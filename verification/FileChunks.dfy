/** File content: inline bytes, or a chunk list over the content-defined chunks; and the splice
    that re-chunks only the neighbourhood of an edit. An object store is the set of hashes it holds. */
module FileChunks {
  import opened Cells
  import C = Chunker

  const INLINE_MAX := 512
  const CHUNK_LIST_MAGIC: Byte := 0xC1

  datatype ChunkRef = ChunkRef(hash: Hash, len: nat)
  datatype Content = Inline(bytes: Bytes) | ChunkList(list: Hash) | DirRoot(root: Hash)

  // ── Chunk-list objects ──

  function RefCells(r: ChunkRef): (c: seq<Cell>)
    ensures |c| == 36
  {
    HashCells(r.hash) + Lift(Le(r.len, 4))
  }

  function RefsCells(rs: seq<ChunkRef>): seq<Cell> {
    if rs == [] then [] else RefCells(rs[0]) + RefsCells(rs[1..])
  }

  function EncodeList(rs: seq<ChunkRef>): seq<Cell> {
    Lift([CHUNK_LIST_MAGIC] + Le(|rs|, 4)) + RefsCells(rs)
  }

  function TakeRefs(c: seq<Cell>, n: nat): Option<(seq<ChunkRef>, seq<Cell>)> {
    if n == 0 then Some(([], c))
    else if |c| < 36 then None
    else
      var h :- ReadHash(c[..32]);
      var tail :- TakeRefs(c[36..], n - 1);
      Some(([ChunkRef(h, UnLe(Low(c[32..36])))] + tail.0, tail.1))
  }

  /** Every byte of the object must be consumed. */
  function DecodeList(c: seq<Cell>): Option<seq<ChunkRef>> {
    if |c| < 5 || c[0] != Raw(CHUNK_LIST_MAGIC) then None
    else
      var got :- TakeRefs(c[5..], UnLe(Low(c[1..5])));
      if got.1 == [] then Some(got.0) else None
  }

  predicate ListFits(rs: seq<ChunkRef>) {
    |rs| < U32 && forall i :: 0 <= i < |rs| ==> rs[i].len < U32
  }

  lemma {:induction false} RefsFront(rs: seq<ChunkRef>, rest: seq<Cell>)
    requires forall i :: 0 <= i < |rs| ==> rs[i].len < U32
    ensures TakeRefs(RefsCells(rs) + rest, |rs|) == Some((rs, rest))
  {
    hide Le, UnLe, ReadHash;
    if rs == [] {
      assert RefsCells(rs) + rest == rest;
    } else {
      var c := RefsCells(rs) + rest;
      var tail := RefsCells(rs[1..]) + rest;
      assert c[..32] == HashCells(rs[0].hash) && c[32..36] == Lift(Le(rs[0].len, 4)) && c[36..] == tail;
      ReadHashCells(rs[0].hash);
      LowLift(Le(rs[0].len, 4));
      Le32(rs[0].len);
      RefsFront(rs[1..], rest);
      assert rs == [rs[0]] + rs[1..];
    }
  }

  lemma {:induction false} ListRoundTrip(rs: seq<ChunkRef>)
    requires ListFits(rs)
    ensures DecodeList(EncodeList(rs)) == Some(rs)
  {
    hide Le, UnLe, TakeRefs, RefsCells;
    var c := EncodeList(rs);
    assert c[1..5] == Lift(Le(|rs|, 4)) && c[5..] == RefsCells(rs) + [];
    LowLift(Le(|rs|, 4));
    Le32(|rs|);
    RefsFront(rs, []);
  }

  // ── Whole files ──

  function Refs(cs: seq<Bytes>): (rs: seq<ChunkRef>)
    ensures |rs| == |cs|
    ensures forall i :: 0 <= i < |cs| ==> rs[i] == ChunkRef(Of(Lift(cs[i])), |cs[i]|)
  {
    seq(|cs|, i requires 0 <= i < |cs| => ChunkRef(Of(Lift(cs[i])), |cs[i]|))
  }

  function HashesOf(rs: seq<ChunkRef>): set<Hash> {
    set i | 0 <= i < |rs| :: rs[i].hash
  }

  /** The canonical content of a file: a function of its bytes alone. */
  function Canonical(ps: C.Params, data: Bytes): Content
    requires C.Valid(ps)
  {
    if |data| <= INLINE_MAX then Inline(data) else ChunkList(Of(EncodeList(Refs(C.Chunks(ps, data)))))
  }

  /** The objects that hold it. */
  function Objects(ps: C.Params, data: Bytes): set<Hash>
    requires C.Valid(ps)
  {
    if |data| <= INLINE_MAX then {} else
      var rs := Refs(C.Chunks(ps, data));
      HashesOf(rs) + {Of(EncodeList(rs))}
  }

  /** Chunk lengths and counts are stored in 32 bits. */
  predicate FileFits(ps: C.Params, data: Bytes)
    requires C.Valid(ps)
  {
    ps.max < U32 && |C.Chunks(ps, data)| < U32
  }

  method StoreFile(store: set<Hash>, ps: C.Params, data: Bytes) returns (store': set<Hash>, content: Content)
    requires C.Valid(ps)
    ensures content == Canonical(ps, data)
    ensures store' == store + Objects(ps, data)
  {
    hide C.Boundary, C.Chunks, HashesOf, EncodeList, Upto;
    if |data| <= INLINE_MAX {
      return store, Inline(data);
    }
    var refs: seq<ChunkRef> := [];
    var start := 0;
    store' := store;
    UptoStart(ps, data);
    while start < |data|
      invariant 0 <= start <= |data|
      invariant Upto(ps, data, start, refs)
      invariant store' == store + HashesOf(refs)
      decreases |data| - start
    {
      var cut := start + C.NextCut(ps, data[start..]);
      var r := ChunkRef(Of(Lift(data[start..cut])), cut - start);
      UptoMore(ps, data, start, refs);
      HashesPush(refs, r);
      store' := store' + {r.hash};
      refs := refs + [r];
      start := cut;
    }
    UptoEnd(ps, data, refs);
    store' := store' + {Of(EncodeList(refs))};
    content := ChunkList(Of(EncodeList(refs)));
  }

  /** `refs` are the chunks of `data` before `start`, which is a boundary. */
  ghost predicate Upto(ps: C.Params, data: Bytes, start: nat, refs: seq<ChunkRef>)
    requires C.Valid(ps)
  {
    start <= |data| && refs + Refs(C.Chunks(ps, data[start..])) == Refs(C.Chunks(ps, data))
  }

  lemma {:induction false} UptoStart(ps: C.Params, data: Bytes)
    requires C.Valid(ps)
    ensures Upto(ps, data, 0, []) && HashesOf([]) == {}
  {
    hide C.Chunks;
    assert data[0..] == data;
  }

  lemma {:induction false} UptoMore(ps: C.Params, data: Bytes, start: nat, refs: seq<ChunkRef>)
    requires C.Valid(ps) && start < |data| && Upto(ps, data, start, refs)
    ensures var cut := start + C.NextCut(ps, data[start..]);
            var r := ChunkRef(Of(Lift(data[start..cut])), cut - start);
            Upto(ps, data, cut, refs + [r]) && r.hash in HashesOf(Refs(C.Chunks(ps, data)))
  {
    hide C.Boundary, C.Chunks;
    RefsStep(ps, data, start);
    var cut := start + C.NextCut(ps, data[start..]);
    var r := ChunkRef(Of(Lift(data[start..cut])), cut - start);
    var rest := Refs(C.Chunks(ps, data[cut..]));
    assert refs + ([r] + rest) == refs + [r] + rest;
    HashesHave(Refs(C.Chunks(ps, data)), |refs|);
  }

  lemma {:induction false} UptoEnd(ps: C.Params, data: Bytes, refs: seq<ChunkRef>)
    requires C.Valid(ps) && Upto(ps, data, |data|, refs)
    ensures refs == Refs(C.Chunks(ps, data))
  {
    hide C.Chunks;
    NoChunks(ps, data[|data|..]);
    assert Refs([]) == [];
  }

  lemma {:induction false} NoChunks(ps: C.Params, data: Bytes)
    requires C.Valid(ps) && data == []
    ensures C.Chunks(ps, data) == []
  {
  }

  lemma {:induction false} HashesPush(rs: seq<ChunkRef>, r: ChunkRef)
    ensures HashesOf(rs + [r]) == HashesOf(rs) + {r.hash}
  {
    assert (rs + [r])[|rs|] == r;
    forall i | 0 <= i < |rs| ensures rs[i].hash in HashesOf(rs + [r]) {
      assert (rs + [r])[i] == rs[i];
    }
  }

  lemma {:induction false} RefsStep(ps: C.Params, data: Bytes, start: nat)
    requires C.Valid(ps) && start < |data|
    ensures var cut := start + C.NextCut(ps, data[start..]);
            Refs(C.Chunks(ps, data[start..])) ==
            [ChunkRef(Of(Lift(data[start..cut])), cut - start)] + Refs(C.Chunks(ps, data[cut..]))
  {
    hide C.Boundary;
    var k := C.NextCut(ps, data[start..]);
    assert data[start..][k..] == data[start + k..];
    assert data[start..][..k] == data[start..start + k];
  }

  // ── Reading ──

  function ReadChunks(store: set<Hash>, rs: seq<ChunkRef>): Option<Bytes> {
    if rs == [] then Some([])
    else if rs[0].hash !in store || |rs[0].hash.content| != rs[0].len then None
    else
      var tail :- ReadChunks(store, rs[1..]);
      Some(Low(rs[0].hash.content) + tail)
  }

  function ReadFile(store: set<Hash>, content: Content, size: nat): Option<Bytes> {
    match content
    case Inline(bytes) => if |bytes| == size then Some(bytes) else None
    case ChunkList(h) =>
      if h !in store then None else
        var rs :- DecodeList(h.content);
        var out :- ReadChunks(store, rs);
        if |out| == size then Some(out) else None
    case DirRoot(_) => None
  }

  lemma {:induction false} ReadChunksBack(store: set<Hash>, cs: seq<Bytes>)
    requires HashesOf(Refs(cs)) <= store
    ensures ReadChunks(store, Refs(cs)) == Some(C.Concat(cs))
  {
    if cs != [] {
      var rs := Refs(cs);
      assert rs[0].hash in HashesOf(rs);
      assert rs[1..] == Refs(cs[1..]);
      forall h | h in HashesOf(Refs(cs[1..])) ensures h in HashesOf(rs) {
        var i :| 0 <= i < |cs[1..]| && Refs(cs[1..])[i].hash == h;
        assert rs[i + 1].hash == h;
      }
      LowLift(cs[0]);
      ReadChunksBack(store, cs[1..]);
    }
  }

  lemma {:induction false} ChunkListFits(ps: C.Params, data: Bytes)
    requires C.Valid(ps) && FileFits(ps, data)
    ensures ListFits(Refs(C.Chunks(ps, data)))
  {
    hide C.Chunks;
    var cs := C.Chunks(ps, data);
    forall i | 0 <= i < |cs| ensures Refs(cs)[i].len < U32 {
      C.ChunkSizes(ps, data, i);
    }
  }

  /** A stored file reads back, through any store that holds its objects. */
  lemma {:induction false} ReadBack(store: set<Hash>, ps: C.Params, data: Bytes)
    requires C.Valid(ps) && FileFits(ps, data) && Objects(ps, data) <= store
    ensures ReadFile(store, Canonical(ps, data), |data|) == Some(data)
  {
    hide C.Chunks, DecodeList, EncodeList, ReadChunks;
    if |data| > INLINE_MAX {
      var cs := C.Chunks(ps, data);
      ChunkListFits(ps, data);
      ListRoundTrip(Refs(cs));
      ReadChunksBack(store, cs);
      C.ChunksConcat(ps, data);
    }
  }

  // ── The neighbourhood of an edit ──

  method CommonSuffix(a: Bytes, b: Bytes) returns (k: nat)
    ensures k <= |a| && k <= |b| && a[|a| - k..] == b[|b| - k..]
    ensures k < |a| && k < |b| ==> a[|a| - k - 1] != b[|b| - k - 1]
  {
    k := 0;
    while k < |a| && k < |b| && a[|a| - k - 1] == b[|b| - k - 1]
      invariant 0 <= k <= |a| && k <= |b|
      invariant a[|a| - k..] == b[|b| - k..]
    {
      assert a[|a| - k - 1..] == [a[|a| - k - 1]] + a[|a| - k..];
      assert b[|b| - k - 1..] == [b[|b| - k - 1]] + b[|b| - k..];
      k := k + 1;
    }
  }

  /** Start of chunk `j`. */
  function Off(rs: seq<ChunkRef>, j: nat): nat
    requires j <= |rs|
  {
    if j == 0 then 0 else Off(rs, j - 1) + rs[j - 1].len
  }

  lemma {:induction false} OffMono(rs: seq<ChunkRef>, i: nat, j: nat)
    requires i <= j <= |rs|
    ensures Off(rs, i) <= Off(rs, j)
    decreases j
  {
    if i < j {
      OffMono(rs, i, j - 1);
    }
  }

  method Cuts(rs: seq<ChunkRef>) returns (cuts: seq<nat>)
    ensures |cuts| == |rs| + 1
    ensures forall j :: 0 <= j <= |rs| ==> cuts[j] == Off(rs, j)
  {
    cuts := [0];
    var acc := 0;
    for i := 0 to |rs|
      invariant |cuts| == i + 1 && acc == Off(rs, i)
      invariant forall j :: 0 <= j <= i ==> cuts[j] == Off(rs, j)
    {
      acc := acc + rs[i].len;
      cuts := cuts + [acc];
    }
  }

  /** How many leading cuts are at most `x`. */
  method PartitionPoint(cuts: seq<nat>, x: nat) returns (k: nat)
    ensures k <= |cuts|
    ensures forall i :: 0 <= i < k ==> cuts[i] <= x
    ensures k < |cuts| ==> cuts[k] > x
  {
    k := 0;
    while k < |cuts| && cuts[k] <= x
      invariant 0 <= k <= |cuts|
      invariant forall i :: 0 <= i < k ==> cuts[i] <= x
    {
      k := k + 1;
    }
  }

  method Find(cuts: seq<nat>, x: nat) returns (j: Option<nat>)
    ensures j.Some? ==> j.value < |cuts| && cuts[j.value] == x
    ensures j.None? ==> x !in cuts
  {
    for i := 0 to |cuts|
      invariant x !in cuts[..i]
    {
      if cuts[i] == x {
        return Some(i);
      }
    }
    return None;
  }

  /** Chunking resumed at a boundary gives the remaining chunks. */
  lemma {:induction false} ChunksFrom(ps: C.Params, data: Bytes, j: nat)
    requires C.Valid(ps) && j <= |C.Chunks(ps, data)|
    ensures Off(Refs(C.Chunks(ps, data)), j) <= |data|
    ensures C.Chunks(ps, data[Off(Refs(C.Chunks(ps, data)), j)..]) == C.Chunks(ps, data)[j..]
  {
    hide C.Boundary;
    var cs := C.Chunks(ps, data);
    var rs := Refs(cs);
    if j == 0 {
      assert data[0..] == data;
    } else {
      ChunksFrom(ps, data, j - 1);
      var rest := data[Off(rs, j - 1)..];
      assert cs[j - 1] == C.Chunks(ps, rest)[0];
      var k := C.NextCut(ps, rest);
      assert rest[k..] == data[Off(rs, j)..];
      assert C.Chunks(ps, rest)[1..] == cs[j..];
    }
  }

  /** Two files that cut at the same point of a shared suffix agree from there on. */
  lemma {:induction false} Resync(ps: C.Params, a: Bytes, i: nat, b: Bytes, j: nat)
    requires C.Valid(ps) && i <= |C.Chunks(ps, a)| && j <= |C.Chunks(ps, b)|
    requires Off(Refs(C.Chunks(ps, a)), i) <= |a| && Off(Refs(C.Chunks(ps, b)), j) <= |b|
    requires a[Off(Refs(C.Chunks(ps, a)), i)..] == b[Off(Refs(C.Chunks(ps, b)), j)..]
    ensures C.Chunks(ps, a)[i..] == C.Chunks(ps, b)[j..]
  {
    hide C.Chunks, Off;
    ChunksFrom(ps, a, i);
    ChunksFrom(ps, b, j);
  }

  /** All the chunks together are as long as the data. */
  lemma {:induction false} OffEnd(ps: C.Params, data: Bytes)
    requires C.Valid(ps)
    ensures var rs := Refs(C.Chunks(ps, data)); Off(rs, |rs|) == |data|
  {
    hide C.Boundary;
    var cs := C.Chunks(ps, data);
    ChunksFrom(ps, data, |cs|);
    assert C.Chunks(ps, data[Off(Refs(cs), |cs|)..]) == [];
  }

  /** The first `j` chunks survive an edit at or past their end, provided another chunk follows them. */
  lemma {:induction false} PrefixKept(ps: C.Params, was: Bytes, now: Bytes, dirty: nat, j: nat)
    requires C.Valid(ps) && Agree(was, now, dirty)
    requires var rs := Refs(C.Chunks(ps, was)); j == 0 || (j < |rs| && Off(rs, j) <= dirty)
    ensures var cs := C.Chunks(ps, was); var s := Off(Refs(cs), j);
            |was| <= |now| && s <= |now| && C.Chunks(ps, now) == cs[..j] + C.Chunks(ps, now[s..])
  {
    hide C.Boundary, C.Chunks;
    var cs := C.Chunks(ps, was);
    var rs := Refs(cs);
    if j == 0 {
      assert now[0..] == now;
    } else {
      OffMono(rs, j - 1, j);
      PrefixKept(ps, was, now, dirty, j - 1);
      ChunksFrom(ps, was, j - 1);
      ChunksFrom(ps, was, j);
      var s, e := Off(rs, j - 1), Off(rs, j);
      SameCut(ps, was[s..], now[s..], cs[j - 1], cs[j..]) by {
        assert cs[j - 1..] == [cs[j - 1]] + cs[j..];
        assert was[s..e] == now[s..e] by {
          assert was[..e] == was[..C.Min(dirty, |was|)][..e];
          assert now[..e] == now[..C.Min(dirty, |was|)][..e];
          assert was[s..e] == was[..e][s..] && now[s..e] == now[..e][s..];
        }
        assert was[s..][..e - s] == was[s..e] && now[s..][..e - s] == now[s..e];
      }
      assert now[s..][e - s..] == now[e..];
      assert cs[..j] == cs[..j - 1] + [cs[j - 1]];
    }
  }

  /** The bytes before the first dirty one are unchanged, and the file did not shrink. */
  predicate Agree(was: Bytes, now: Bytes, dirty: nat) {
    |was| <= |now| && was[..C.Min(dirty, |was|)] == now[..C.Min(dirty, |was|)]
  }

  lemma {:induction false} SameCut(ps: C.Params, was: Bytes, now: Bytes, first: Bytes, more: seq<Bytes>)
    requires C.Valid(ps) && C.Chunks(ps, was) == [first] + more && more != []
    requires |first| <= |now| && |first| <= |was| && was[..|first|] == now[..|first|]
    ensures C.Chunks(ps, now) == [first] + C.Chunks(ps, now[|first|..])
  {
    hide C.Boundary;
    var k := C.NextCut(ps, was);
    assert C.Chunks(ps, was)[0] == was[..k];
    assert C.Chunks(ps, was)[1..] == C.Chunks(ps, was[k..]);
    assert ([first] + more)[1..] == more;
    C.BoundaryPrefix(ps, was, now);
  }

  /** Keep the chunks before the edit but for one, chunk from there on, and stop at the first boundary
      inside the common suffix that is an old boundary too: the old chunks tile the rest. */
  method Splice(store: set<Hash>, ps: C.Params, oldRefs: seq<ChunkRef>, before: Bytes, now: Bytes, dirty: nat)
    returns (store': set<Hash>, refs: seq<ChunkRef>)
    requires C.Valid(ps) && oldRefs == Refs(C.Chunks(ps, before)) && Agree(before, now, dirty)
    ensures refs == Refs(C.Chunks(ps, now))
    ensures store <= store' <= store + HashesOf(refs)
    ensures HashesOf(refs) <= store' + HashesOf(oldRefs)
  {
    hide C.Boundary, C.Chunks, Off, HashesOf, Agree, Upto;
    var cuts := Cuts(oldRefs);
    OffEnd(ps, before);
    var resume := Resume(oldRefs, cuts, dirty);
    UptoResume(ps, before, now, dirty, resume);
    var delta := |now| - cuts[|oldRefs|];
    var common := CommonSuffix(now, before);

    refs := oldRefs[..resume];
    var pos := cuts[resume];
    store' := store;
    while true
      invariant 0 <= pos <= |now|
      invariant Upto(ps, now, pos, refs)
      invariant store <= store' <= store + HashesOf(Refs(C.Chunks(ps, now)))
      invariant HashesOf(refs) <= store' + HashesOf(oldRefs)
      decreases |now| - pos
    {
      if pos >= |now| - common && pos >= delta {
        var j := Find(cuts, pos - delta);
        if j.Some? {
          TailSpliced(ps, before, now, common, pos, j.value, refs);
          SpliceHashes(refs, oldRefs, j.value);
          refs := refs + oldRefs[j.value..];
          break;
        }
        assert cuts[|oldRefs|] in cuts;
      }
      var cut := pos + C.NextCut(ps, now[pos..]);
      var r := ChunkRef(Of(Lift(now[pos..cut])), cut - pos);
      UptoMore(ps, now, pos, refs);
      HashesPush(refs, r);
      store' := store' + {r.hash};
      refs := refs + [r];
      pos := cut;
    }
  }

  lemma {:induction false} UptoResume(ps: C.Params, before: Bytes, now: Bytes, dirty: nat, j: nat)
    requires C.Valid(ps) && Agree(before, now, dirty)
    requires var rs := Refs(C.Chunks(ps, before)); j == 0 || (j < |rs| && Off(rs, j) <= dirty)
    ensures var rs := Refs(C.Chunks(ps, before));
            && |before| <= |now| && Off(rs, j) <= |now|
            && Upto(ps, now, Off(rs, j), rs[..j]) && HashesOf(rs[..j]) <= HashesOf(rs)
  {
    hide C.Chunks, Off, HashesOf;
    var cs := C.Chunks(ps, before);
    PrefixKept(ps, before, now, dirty, j);
    KeptHashes(Refs(cs), j);
    assert Refs(cs)[..j] == Refs(cs[..j]);
  }

  /** One chunk before the one that holds the first dirty byte. */
  method Resume(oldRefs: seq<ChunkRef>, cuts: seq<nat>, dirty: nat) returns (resume: nat)
    requires |cuts| == |oldRefs| + 1
    requires forall j :: 0 <= j <= |oldRefs| ==> cuts[j] == Off(oldRefs, j)
    ensures resume == 0 || (resume < |oldRefs| && Off(oldRefs, resume + 1) <= dirty)
    ensures resume == 0 || Off(oldRefs, resume) <= dirty
  {
    hide Off;
    var point := PartitionPoint(cuts, dirty);
    var containing := if point > 0 then point - 1 else 0;
    resume := if containing > 0 then containing - 1 else 0;
    if resume > 0 {
      OffMono(oldRefs, resume, containing);
    }
  }

  lemma {:induction false} TailSpliced(ps: C.Params, before: Bytes, now: Bytes, common: nat, pos: nat, j: nat,
                                       refs: seq<ChunkRef>)
    requires C.Valid(ps) && j <= |C.Chunks(ps, before)| && Upto(ps, now, pos, refs)
    requires common <= |now| && common <= |before| && now[|now| - common..] == before[|before| - common..]
    requires |now| - common <= pos <= |now|
    requires pos - (|now| - |before|) == Off(Refs(C.Chunks(ps, before)), j)
    ensures refs + Refs(C.Chunks(ps, before))[j..] == Refs(C.Chunks(ps, now))
  {
    hide C.Chunks, Off;
    var cs := C.Chunks(ps, before);
    ChunksFrom(ps, before, j);
    SuffixSame(before, now, common, pos);
    assert Refs(cs)[j..] == Refs(cs[j..]);
  }

  /** Re-chunk only what an edit disturbed and splice the rest of the old list in. The result is the
      canonical content of the new bytes, and nothing outside it is stored. */
  method StoreNeighborhood(store: set<Hash>, ps: C.Params, was: Content, before: Bytes, now: Bytes, dirty: nat)
    returns (store': set<Hash>, content: Content)
    requires C.Valid(ps) && was == Canonical(ps, before) && FileFits(ps, before)
    requires Agree(before, now, dirty)
    ensures content == Canonical(ps, now)
    ensures store <= store' <= store + Objects(ps, now)
    ensures Objects(ps, before) <= store ==> Objects(ps, now) <= store'
  {
    hide C.Chunks, EncodeList, DecodeList, Agree, HashesOf;
    if |now| <= INLINE_MAX {
      return store, Inline(now);
    }
    if !was.ChunkList? || was.list !in store || DecodeList(was.list.content).None? {
      store', content := StoreFile(store, ps, now);
      return;
    }
    var oldRefs := DecodeList(was.list.content).value;
    ChunkListFits(ps, before);
    ListRoundTrip(Refs(C.Chunks(ps, before)));
    var refs;
    store', refs := Splice(store, ps, oldRefs, before, now, dirty);
    store' := store' + {Of(EncodeList(refs))};
    content := ChunkList(Of(EncodeList(refs)));
  }

  lemma {:induction false} KeptHashes(rs: seq<ChunkRef>, k: nat)
    requires k <= |rs|
    ensures HashesOf(rs[..k]) <= HashesOf(rs)
  {
    forall h | h in HashesOf(rs[..k]) ensures h in HashesOf(rs) {
      var i :| 0 <= i < k && rs[..k][i].hash == h;
      assert rs[i].hash == h;
    }
  }

  lemma {:induction false} HashesHave(rs: seq<ChunkRef>, k: nat)
    requires k < |rs|
    ensures rs[k].hash in HashesOf(rs)
  {
  }

  lemma {:induction false} SuffixSame(was: Bytes, now: Bytes, common: nat, pos: nat)
    requires common <= |now| && common <= |was| && now[|now| - common..] == was[|was| - common..]
    requires |now| - common <= pos <= |now|
    ensures now[pos..] == was[pos - (|now| - |was|)..]
  {
    var d := pos - (|now| - common);
    assert now[pos..] == now[|now| - common..][d..];
    assert was[pos - (|now| - |was|)..] == was[|was| - common..][d..];
  }

  lemma {:induction false} SpliceHashes(refs: seq<ChunkRef>, was: seq<ChunkRef>, j: nat)
    requires j <= |was|
    ensures HashesOf(refs + was[j..]) <= HashesOf(refs) + HashesOf(was)
  {
    var both := refs + was[j..];
    forall h | h in HashesOf(both) ensures h in HashesOf(refs) + HashesOf(was) {
      var i :| 0 <= i < |both| && both[i].hash == h;
      if i >= |refs| {
        assert both[i] == was[j + i - |refs|];
      } else {
        assert both[i] == refs[i];
      }
    }
  }
}
