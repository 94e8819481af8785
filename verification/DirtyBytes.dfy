/** How many bytes a log leaves dirty: the positions its records write and do not unlink later. */
module DirtyBytes {
  import opened Cells
  import opened WalCodec
  import opened Intervals
  import opened MapSum
  import opened History
  import opened Recovery
  import opened Scheduler
  import PO = PathOverlay

  function Span(lo: nat, n: nat): (s: set<nat>)
    ensures |s| == n && forall i :: i in s <==> lo <= i < lo + n
  {
    if n == 0 then {} else Span(lo, n - 1) + {lo + n - 1}
  }

  /** The positions an interval list holds. */
  function Offsets(w: seq<Interval>): set<nat> {
    set i | 0 <= i < EndOf(w) && ByteIn(w, i).Some?
  }

  lemma {:induction false} ByteEnd(w: seq<Interval>, i: nat)
    ensures ByteIn(w, i).Some? ==> i < EndOf(w)
  {
    if w != [] {
      ByteEnd(w[1..], i);
    }
  }

  lemma {:induction false} OffsetsAre(w: seq<Interval>, i: nat)
    ensures i in Offsets(w) <==> ByteIn(w, i).Some?
  {
    ByteEnd(w, i);
  }

  lemma {:induction false} StoredIs(w: seq<Interval>, lo: nat)
    requires SortedFrom(w, lo)
    ensures Stored(w) == |Offsets(w)|
    decreases |w|
  {
    if w == [] {
      assert Offsets(w) == {};
    } else {
      var a, b := Span(w[0].off, |w[0].data|), Offsets(w[1..]);
      StoredIs(w[1..], Next(w[0]));
      forall i: nat
        ensures i in Offsets(w) <==> i in a || i in b
        ensures !(i in a && i in b)
      {
        OffsetsAre(w, i);
        OffsetsAre(w[1..], i);
        if i in a {
          ByteBelow(w[1..], Next(w[0]), i);
        }
      }
      assert Offsets(w) == a + b && a !! b;
    }
  }

  /** The dirty positions of an overlay. */
  function Dirty(o: PO.Overlay): set<(Path, nat)> {
    set p, i | p in o.files && i in Offsets(o.files[p].writes) :: (p, i)
  }

  function At1(p: Path, s: set<nat>): set<(Path, nat)> {
    set i | i in s :: (p, i)
  }

  lemma {:induction false} AtSize(p: Path, s: set<nat>)
    ensures |At1(p, s)| == |s|
    decreases s
  {
    if s == {} {
      assert At1(p, s) == {};
    } else {
      var i :| i in s;
      AtSize(p, s - {i});
      assert At1(p, s) == At1(p, s - {i}) + {(p, i)};
    }
  }

  function Without(o: PO.Overlay, p: Path): PO.Overlay {
    o.(files := o.files - {p})
  }

  lemma {:induction false} DirtySplit(o: PO.Overlay, p: Path)
    requires p in o.files
    ensures |Dirty(o)| == |Dirty(Without(o, p))| + |Offsets(o.files[p].writes)|
  {
    hide Offsets;
    var a, rest := At1(p, Offsets(o.files[p].writes)), Dirty(Without(o, p));
    AtSize(p, Offsets(o.files[p].writes));
    assert Dirty(o) == rest + a && rest !! a;
  }

  lemma {:induction false} BytesSplit(o: PO.Overlay, p: Path)
    requires p in o.files
    ensures OverlayBytes(o) == OverlayBytes(Without(o, p)) + Stored(o.files[p].writes)
    ensures |Without(o, p).files| < |o.files|
  {
    hide Stored;
    SumPick(FileBytes(o), p);
    assert FileBytes(o) - {p} == FileBytes(Without(o, p));
    assert o.files.Keys == Without(o, p).files.Keys + {p};
    assert |o.files.Keys| == |o.files| && |Without(o, p).files.Keys| == |Without(o, p).files|;
  }

  /** The byte count is the number of dirty positions. */
  lemma {:induction false} BytesAre(o: PO.Overlay)
    requires forall p :: p in o.files ==> Sorted(o.files[p].writes)
    ensures OverlayBytes(o) == |Dirty(o)|
    decreases |o.files|
  {
    hide Stored, Offsets, Sorted;
    if o.files == map[] {
      assert FileBytes(o) == map[] && Dirty(o) == {};
    } else {
      hide OverlayBytes, Dirty;
      var p :| p in o.files;
      BytesSplit(o, p);
      DirtySplit(o, p);
      BytesAre(Without(o, p));
      StoredHere(o.files[p].writes);
    }
  }

  lemma {:induction false} StoredHere(w: seq<Interval>)
    requires Sorted(w)
    ensures Stored(w) == |Offsets(w)|
  {
    StoredIs(w, 0);
  }

  // ── The positions a log leaves dirty ──

  /** Record `k` writes to ref `r`, and no later one unlinks its path. */
  predicate Kept(ops: seq<WalOp>, k: nat, r: Bytes) {
    && k < |ops| && ops[k].Write? && ops[k].ref == r
    && forall j :: k < j < |ops| ==> !Unlinks(ops[j], r, ops[k].path)
  }

  /** The distinct positions of paths written by records that are kept. */
  function Pending(ops: seq<WalOp>, r: Bytes): set<(Path, nat)> {
    set k, i | 0 <= k < |ops| && Kept(ops, k, r) && i in Span(ops[k].offset, |ops[k].data|) :: (ops[k].path, i)
  }

  ghost predicate PendingAt(ops: seq<WalOp>, r: Bytes, p: Path, i: nat) {
    exists k :: 0 <= k < |ops| && Kept(ops, k, r) && Writes(ops[k], r, p, i)
  }

  lemma {:induction false} PendingIs(ops: seq<WalOp>, r: Bytes, p: Path, i: nat)
    ensures (p, i) in Pending(ops, r) <==> PendingAt(ops, r, p, i)
  {
    if k :| 0 <= k < |ops| && Kept(ops, k, r) && Writes(ops[k], r, p, i) {
      assert i in Span(ops[k].offset, |ops[k].data|);
    }
    if (p, i) in Pending(ops, r) {
      var k :| 0 <= k < |ops| && Kept(ops, k, r) && i in Span(ops[k].offset, |ops[k].data|) && ops[k].path == p;
      assert Writes(ops[k], r, p, i);
    }
  }

  lemma {:induction false} PendingMore(ops: seq<WalOp>, op: WalOp, r: Bytes, p: Path, i: nat)
    ensures PendingAt(ops + [op], r, p, i) <==>
            Writes(op, r, p, i) || (PendingAt(ops, r, p, i) && !Unlinks(op, r, p))
  {
    var all := ops + [op];
    if k :| 0 <= k < |all| && Kept(all, k, r) && Writes(all[k], r, p, i) {
      if k < |ops| {
        assert forall j :: k < j < |ops| ==> ops[j] == all[j];
        assert Kept(ops, k, r) && Writes(ops[k], r, p, i);
        assert !Unlinks(all[|ops|], r, p);
      }
    }
    if Writes(op, r, p, i) {
      assert Kept(all, |ops|, r) && Writes(all[|ops|], r, p, i);
    }
    if k :| 0 <= k < |ops| && Kept(ops, k, r) && Writes(ops[k], r, p, i) {
      if !Unlinks(op, r, p) {
        assert forall j :: k < j < |all| ==> all[j] == if j < |ops| then ops[j] else op;
        assert Kept(all, k, r) && Writes(all[k], r, p, i);
      }
    }
  }

  predicate DirtyAt(o: PO.Overlay, p: Path, i: nat) {
    p in o.files && ByteIn(o.files[p].writes, i).Some?
  }

  lemma {:induction false} DirtyIs(o: PO.Overlay, p: Path, i: nat)
    ensures (p, i) in Dirty(o) <==> DirtyAt(o, p, i)
  {
    if p in o.files {
      OffsetsAre(o.files[p].writes, i);
    }
  }

  lemma {:induction false} WriteDirty(o: PO.Overlay, q: Path, off: nat, data: Bytes, mt: nat, p: Path, i: nat)
    requires PO.Valid(o) && data != []
    ensures DirtyAt(PO.Write(o, q, off, data, mt), p, i) <==> DirtyAt(o, p, i) || (p == q && off <= i < off + |data|)
  {
    hide Inserted, ByteIn, Sorted;
    if p == q {
      var fo := if q in o.files then o.files[q] else PO.NewFile(q, q in o.unlinks);
      NoneSorted();
      InsertByte(fo.writes, off, data, i);
      NoByte(i);
    }
  }

  lemma {:induction false} NoneSorted()
    ensures Sorted([])
  {
  }

  lemma {:induction false} NoByte(i: nat)
    ensures ByteIn([], i).None?
  {
  }

  lemma {:induction false} ReplayDirty(ops: seq<WalOp>, r: Bytes, p: Path, i: nat)
    requires AllPlain(ops)
    ensures DirtyAt(ReplayOverlay(ops, r), p, i) <==> PendingAt(ops, r, p, i)
    decreases |ops|
  {
    hide PendingAt, PO.Write, PO.Valid, ByteIn;
    if ops == [] {
      NonePending(r, p, i);
    } else {
      var pre, op := ops[..|ops| - 1], ops[|ops| - 1];
      assert ops == pre + [op] && Plain(op);
      ReplayDirty(pre, r, p, i);
      PendingMore(pre, op, r, p, i);
      ReplayReads((q: Path) => None, pre, r, p);
      if op.ref == r && op.Write? {
        WriteDirty(ReplayOverlay(pre, r), op.path, op.offset, op.data, op.mtime, p, i);
      }
    }
  }

  lemma {:induction false} NonePending(r: Bytes, p: Path, i: nat)
    ensures !PendingAt([], r, p, i)
  {
  }

  /** A replayed log holds as many dirty bytes as its records leave positions written. */
  lemma {:induction false} PendingBytes(ops: seq<WalOp>, r: Bytes)
    requires AllPlain(ops)
    ensures OverlayBytes(ReplayOverlay(ops, r)) == |Pending(ops, r)|
  {
    hide DirtyAt, PendingAt, Dirty, Pending, ReplayOverlay, OverlayBytes, Sorted;
    var o := ReplayOverlay(ops, r);
    ReplayReads((q: Path) => None, ops, r, []);
    forall p | p in o.files
      ensures Sorted(o.files[p].writes)
    {
      assert PO.FileOk(o.files[p]);
    }
    BytesAre(o);
    forall x: (Path, nat)
      ensures x in Dirty(o) <==> x in Pending(ops, r)
    {
      DirtyIs(o, x.0, x.1);
      PendingIs(ops, r, x.0, x.1);
      ReplayDirty(ops, r, x.0, x.1);
    }
    assert Dirty(o) == Pending(ops, r);
  }
}
