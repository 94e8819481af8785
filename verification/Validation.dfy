/** The check a mutation passes before it is logged: no record should be acknowledged that can never be flushed.
    When it keeps that promise, and when it does not. */
module Validation {
  import opened Cells
  import opened WalCodec
  import opened History
  import opened Recovery
  import opened Entries
  import opened Tree
  import opened TreeFlush
  import Prolly
  import EditShape
  import TreeEdit
  import PO = PathOverlay
  import Gc
  import Intervals

  /** One component of the path at a time: a dirty file may only be the last, an unlinked name is passed over, and of
      the committed tree a file may only be the last and a directory not the last. */
  ghost predicate PrefixOk(base: Hash, o: PO.Overlay, q: Path, isLast: bool) {
    match PO.State(o, q)
    case Dirty(_) => isLast
    case Unlinked => true
    case Clean => EntryAt(base, q).Some? && (if isLast then !DirAt(base, q) else !FileAt(base, q))
  }

  ghost predicate Accepted(base: Hash, o: PO.Overlay, p: Path) {
    p != [] && !BadName(p) && forall k :: 0 < k <= |p| ==> PrefixOk(base, o, p[..k], k == |p|)
  }

  /** Every operation on the ref since its last flush was accepted when it was logged. */
  ghost predicate AllAccepted(base: Hash, ops: seq<WalOp>, r: Bytes) {
    AllPlain(ops) &&
    forall i :: 0 <= i < |ops| && ops[i].ref == r ==> Accepted(base, ReplayOverlay(ops[..i], r), ops[i].path)
  }

  predicate Touched(o: PO.Overlay, p: Path) {
    p in o.files || p in o.unlinks
  }

  /** What accepted operations leave: a touched path is no committed directory and not below a committed file, and a
      file's base is at its own name. */
  ghost predicate PathOk(base: Hash, o: PO.Overlay, p: Path) {
    && p != [] && !BadName(p) && !DirAt(base, p) && !Through(base, p)
    && (p in o.files ==> OriginOf(o.files[p], p) == p)
  }

  ghost predicate Tidy(base: Hash, o: PO.Overlay) {
    o.files.Keys !! o.unlinks && forall p :: Touched(o, p) ==> PathOk(base, o, p)
  }

  lemma {:induction false} AcceptedOk(base: Hash, o: PO.Overlay, p: Path)
    requires Tidy(base, o) && Accepted(base, o, p)
    ensures p != [] && !BadName(p) && !DirAt(base, p) && !Through(base, p)
  {
    hide DirAt, EntryAt, BadName, Through;
    assert p[..|p|] == p && PrefixOk(base, o, p[..|p|], true);
    if Touched(o, p) {
      assert PathOk(base, o, p);
    } else {
      NotThrough(base, p);
    }
  }

  lemma {:induction false} TidyStep(base: Hash, o: PO.Overlay, op: WalOp, r: Bytes)
    requires Tidy(base, o) && !op.Rename? && (op.ref == r ==> Accepted(base, o, op.path))
    ensures Tidy(base, ApplyOp(o, op, r))
  {
    hide DirAt, Through, Accepted, PO.WriteFile, BadName;
    if op.ref == r {
      AcceptedOk(base, o, op.path);
      var o' := ApplyOp(o, op, r);
      forall p | Touched(o', p)
        ensures PathOk(base, o', p)
      {
        if p != op.path {
          assert PathOk(base, o, p);
        } else if op.Write? {
          Origin(o, op);
          if p in o.files {
            assert PathOk(base, o, p);
          }
        }
      }
    }
  }

  lemma {:induction false} Origin(o: PO.Overlay, op: WalOp)
    requires op.Write?
    ensures op.path in ApplyOp(o, op, op.ref).files
    ensures OriginOf(ApplyOp(o, op, op.ref).files[op.path], op.path) ==
            if op.path in o.files then OriginOf(o.files[op.path], op.path) else op.path
  {
  }

  lemma {:induction false} TidyRun(base: Hash, ops: seq<WalOp>, r: Bytes)
    requires AllAccepted(base, ops, r)
    ensures Tidy(base, ReplayOverlay(ops, r))
    decreases |ops|
  {
    hide PathOk, Accepted, ApplyOp;
    if ops != [] {
      var pre, op := ops[..|ops| - 1], ops[|ops| - 1];
      assert forall i :: 0 <= i < |pre| ==> ops[..i] == pre[..i] && ops[i] == pre[i];
      TidyRun(base, pre, r);
      assert Plain(op);
      TidyStep(base, ReplayOverlay(pre, r), op, r);
    }
  }

  /** What the check lets through although it can never be flushed: a dirty file below a dirty file. */
  predicate Conflict(o: PO.Overlay, p: Path, q: Path) {
    p in o.files && q in o.files && q < p
  }

  lemma {:induction false} RemovalsAre(base: Hash, o: PO.Overlay)
    requires Tidy(base, o)
    ensures PO.Removals(o) == o.unlinks
  {
    hide BadName, DirAt, Through;
    forall p | p in o.files && o.files[p].origin.Some?
      ensures o.files[p].origin.value == p
    {
      assert PathOk(base, o, p);
    }
  }

  lemma {:induction false} ClashExact(base: Hash, o: PO.Overlay, p: Path)
    requires Tidy(base, o)
    ensures Clash(base, o, p) <==> exists q :: Conflict(o, p, q)
  {
    hide BadName, DirAt, FileAt, PO.Removals;
    RemovalsAre(base, o);
    if Touched(o, p) {
      assert PathOk(base, o, p);
    }
    if q :| Conflict(o, p, q) {
      assert PathOk(base, o, q);
      assert p[..|q|] == q;
      assert Stays(base, o, p[..|q|]);
    }
    if Clash(base, o, p) {
      assert p in o.files;
      var k :| 0 < k < |p| && Stays(base, o, p[..k]);
      assert Conflict(o, p, p[..k]);
    }
  }

  /** The flush of accepted operations meets nothing in its way if and only if no dirty file is below another. */
  lemma {:induction false} ValidatedExact(base: Hash, ops: seq<WalOp>, r: Bytes)
    requires AllAccepted(base, ops, r)
    ensures var o := ReplayOverlay(ops, r);
            (exists p :: Clash(base, o, p)) <==> (exists p, q :: Conflict(o, p, q))
  {
    hide AllAccepted, Tidy, Clash, Conflict, ReplayOverlay;
    var o := ReplayOverlay(ops, r);
    TidyRun(base, ops, r);
    if p :| Clash(base, o, p) {
      ClashExact(base, o, p);
    }
    if p, q :| Conflict(o, p, q) {
      ClashExact(base, o, p);
    }
  }

  lemma {:induction false} TwoOps(x: WalOp, y: WalOp, r: Bytes)
    ensures ReplayOverlay([x, y], r) == ApplyOp(ApplyOp(PO.EMPTY, x, r), y, r)
    ensures ReplayOverlay([x, y][..0], r) == PO.EMPTY && ReplayOverlay([x, y][..1], r) == ApplyOp(PO.EMPTY, x, r)
  {
    hide ApplyOp;
    assert [x, y][..1] == [x] && [x][..0] == [];
    assert ReplayOverlay([x], r) == ApplyOp(ReplayOverlay([], r), x, r);
  }

  lemma {:induction false} Prefixes(a: Bytes, b: Bytes)
    ensures [a, b][..1] == [a] && [a, b][..2] == [a, b] && [a][..1] == [a]
  {
  }

  lemma {:induction false} BelowAccepted(base: Hash, r: Bytes, a: Bytes, b: Bytes, x: WalOp)
    requires ValidName(a) && ValidName(b) && EntryAt(base, [a]) == Some(None) && EntryAt(base, [a, b]) == Some(None)
    requires x == Write(r, [a, b], 0, 0, [1])
    ensures Accepted(base, PO.EMPTY, [a, b]) && Accepted(base, ApplyOp(PO.EMPTY, x, r), [a])
  {
    hide EntryAt, PO.WriteFile, ValidName;
    Prefixes(a, b);
    var o := ApplyOp(PO.EMPTY, x, r);
    assert PO.State(o, [a]).Clean?;
    assert forall k :: 0 < k <= 2 ==> PrefixOk(base, PO.EMPTY, [a, b][..k], k == 2);
  }

  /** A write of `a/b`, then one of `a`: both are accepted over a tree that has neither, and the flush is refused. */
  lemma {:induction false} UnderExample(base: Hash, r: Bytes, a: Bytes, b: Bytes)
    requires ValidName(a) && ValidName(b) && EntryAt(base, [a]) == Some(None) && EntryAt(base, [a, b]) == Some(None)
    ensures var ops := [Write(r, [a, b], 0, 0, [1]), Write(r, [a], 0, 0, [2])];
            AllAccepted(base, ops, r) && exists p :: Clash(base, ReplayOverlay(ops, r), p)
  {
    hide EntryAt, PO.WriteFile, ValidName, Accepted, Clash, ReplayOverlay;
    var x, y := Write(r, [a, b], 0, 0, [1]), Write(r, [a], 0, 0, [2]);
    TwoOps(x, y, r);
    BelowAccepted(base, r, a, b, x);
    assert forall i :: 0 <= i < 2 ==> Accepted(base, ReplayOverlay([x, y][..i], r), [x, y][i].path);
    assert [a] < [a, b] && Conflict(ReplayOverlay([x, y], r), [a, b], [a]);
    ValidatedExact(base, [x, y], r);
  }

  // ── An unlink replayed over a directory ──

  /** The unlink of a name that is not there is accepted below it or not, and logged. If a commit makes the files
      below it durable and the unlink is replayed, it meets a directory; the source then removes all of it. Reads are
      as before if and only if there was no file in it. */
  lemma {:induction false} DirRemovalExact(store: set<Hash>, root: Hash, p: Path, cut: seq<Cell> -> bool)
    requires Gc.Reach(root) <= store && DirAt(root, p) && TreeEdit.Unlink(store, root, p, cut).Some?
    ensures var r := TreeEdit.Unlink(store, root, p, cut).value.1;
            (forall q :: Files(r, q) == Files(root, q)) <==> (forall q :: p < q ==> Files(root, q) == None)
  {
    hide Files, Gc.Reach, TreeEdit.Unlink, Gc.Sane;
    assert p != [];
    var r := TreeEdit.Unlink(store, root, p, cut).value.1;
    forall q
      ensures Files(r, q) == if p <= q then None else Files(root, q)
    {
      TreeEdit.UnlinkFile(store, root, p, cut, q);
    }
    DirNoContent(root, p);
    if forall q :: p < q ==> Files(root, q) == None {
      forall q
        ensures Files(r, q) == Files(root, q)
      {
        if p <= q && p != q {
          assert p < q;
        }
      }
    }
    if q :| p < q && Files(root, q) != None {
      assert Files(r, q) != Files(root, q);
    }
  }

  lemma {:induction false} DirNoContent(root: Hash, p: Path)
    requires DirAt(root, p)
    ensures p != [] && Files(root, p) == None
  {
    hide LookupIn, Gc.Reach;
    EditShape.HereValid(root, p);
  }

  /** Such an unlink: accepted after a write below it, and meaningless for what was written. */
  lemma {:induction false} LaterDirectory(base: Hash, r: Bytes, a: Bytes, b: Bytes)
    requires ValidName(a) && ValidName(b) && EntryAt(base, [a]) == Some(None) && EntryAt(base, [a, b]) == Some(None)
    ensures var ops := [Write(r, [a, b], 0, 0, [1]), Unlink(r, [a], 0)];
            AllAccepted(base, ops, r) && (forall p :: !Clash(base, ReplayOverlay(ops, r), p)) &&
            After(None, ops, r, [a, b]) == Some([1])
  {
    hide EntryAt, PO.WriteFile, ValidName, Accepted, Clash, ReplayOverlay;
    var x, y := Write(r, [a, b], 0, 0, [1]), Unlink(r, [a], 0);
    TwoOps(x, y, r);
    BelowAccepted(base, r, a, b, x);
    assert forall i :: 0 <= i < 2 ==> Accepted(base, ReplayOverlay([x, y][..i], r), [x, y][i].path);
    ValidatedExact(base, [x, y], r);
    assert [x, y][1..] == [y] && [y][1..] == [];
    assert Intervals.Splice([], 0, [1]) == [1];
    assert After(None, [x, y], r, [a, b]) == After(Some([1]), [y], r, [a, b]);
    assert After(Some([1]), [y], r, [a, b]) == After(Some([1]), [], r, [a, b]);
  }
}
