/** Replaying a log that starts with a rename over a tree that already holds all of it: when that is harmless.
    The log of writes and unlinks is covered by `History.Idempotent`. */
module RenameReplay {
  import opened Cells
  import opened PathOverlay
  import H = History
  import W = WalCodec
  import Intervals

  predicate NoRename(ops: seq<FileOp>) {
    forall i :: 0 <= i < |ops| ==> !ops[i].RenameOp? && (ops[i].WriteOp? ==> ops[i].data != [])
  }

  /** The same operation as a record of some ref. */
  function Record(op: FileOp): W.WalOp
    requires !op.RenameOp?
  {
    match op
    case WriteOp(p, off, data) => W.Write([], p, off, 0, data)
    case UnlinkOp(p) => W.Unlink([], p, 0)
  }

  function Records(ops: seq<FileOp>): seq<W.WalOp>
    requires NoRename(ops)
  {
    seq(|ops|, i requires 0 <= i < |ops| => Record(ops[i]))
  }

  /** What path `p` holds after `ops` if it held `c` before. */
  function Later(c: Option<Bytes>, ops: seq<FileOp>, p: Path): Option<Bytes>
    requires NoRename(ops)
  {
    H.After(c, Records(ops), [], p)
  }

  lemma {:induction false} RunIsLater(tree: Tree, ops: seq<FileOp>, p: Path)
    requires NoRename(ops)
    ensures RunTree(tree, ops)(p) == Later(tree(p), ops, p)
    decreases |ops|
  {
    if ops != [] {
      var n := |ops| - 1;
      var last := Record(ops[n]);
      RunIsLater(tree, ops[..n], p);
      assert Records(ops) == Records(ops[..n]) + [last];
      H.AfterConcat(tree(p), Records(ops[..n]), [last], [], p);
      var c := Later(tree(p), ops[..n], p);
      assert [last][1..] == [] && H.After(c, [last], [], p) == H.After(H.Step(c, last, [], p), [], [], p);
    }
  }

  lemma {:induction false} FirstThenRest(tree: Tree, x: FileOp, ops: seq<FileOp>)
    ensures RunTree(tree, [x] + ops) == RunTree(StepTree(tree, x), ops)
    decreases |ops|
  {
    hide StepTree;
    if ops == [] {
      assert [x] + ops == [x] && [x][..0] == [];
      assert RunTree(tree, [x]) == StepTree(RunTree(tree, []), x);
    } else {
      var n := |ops| - 1;
      assert ([x] + ops)[..n + 1] == [x] + ops[..n];
      FirstThenRest(tree, x, ops[..n]);
    }
  }

  lemma {:induction false} AllowedRest(tree: Tree, x: FileOp, ops: seq<FileOp>)
    requires NoRename(ops) && Allowed(tree, x)
    ensures AllAllowed(tree, [x] + ops) && AllAllowed(tree, ops)
    decreases |ops|
  {
    hide StepTree;
    if ops == [] {
      assert [x] + ops == [x] && [x][..0] == [];
      assert RunTree(tree, []) == tree && AllAllowed(tree, [x][..0]);
    } else {
      var n := |ops| - 1;
      assert ([x] + ops)[..n + 1] == [x] + ops[..n];
      AllowedRest(tree, x, ops[..n]);
      assert !ops[n].RenameOp?;
    }
  }

  /** A replayed rename whose source is gone does nothing. */
  lemma {:induction false} SourceGone(tree: Tree, from: Path, to: Path, ops: seq<FileOp>)
    requires tree(from).None? && NoRename(ops)
    ensures RunOverlay(tree, [RenameOp(from, to)] + ops) == RunOverlay(tree, ops) && AllAllowed(tree, ops)
    decreases |ops|
  {
    hide Write, Unlink, OpenForRename, Rename;
    var x := RenameOp(from, to);
    if ops == [] {
      assert [x] + ops == [x] && [x][..0] == [];
      assert RunOverlay(tree, [x]) == StepOp(tree, RunOverlay(tree, []), x);
    } else {
      var n := |ops| - 1;
      assert ([x] + ops)[..n + 1] == [x] + ops[..n];
      SourceGone(tree, from, to, ops[..n]);
      assert !ops[n].RenameOp?;
    }
  }

  /** What a mount reads at `p` when it replays the rename and what followed over a tree. */
  function Replayed(tree: Tree, from: Path, to: Path, ops: seq<FileOp>, p: Path): Option<Bytes> {
    View(tree, RunOverlay(tree, [RenameOp(from, to)] + ops), p)
  }

  /** The records hide what was at `p` before. */
  ghost predicate Hidden(a: Bytes, b: Bytes, ops: seq<FileOp>, p: Path)
    requires NoRename(ops)
  {
    H.Hides(Some(a), Some(b), Records(ops), [], p)
  }

  /** Replay over the tree that holds the whole log leaves every read as it was if and only if the source is
      absent there, or the records after the rename hide the difference between the file now at the source
      and the file that was moved. */
  lemma {:induction false} ReplayExact(tree: Tree, from: Path, to: Path, ops: seq<FileOp>)
    requires from != to && tree(from).Some? && NoRename(ops)
    ensures var held := RunTree(tree, [RenameOp(from, to)] + ops);
            (forall p :: Replayed(held, from, to, ops, p) == held(p)) <==>
            held(from).None? || Hidden(held(from).value, tree(from).value, ops, to)
  {
    hide RunTree, Replayed, StepTree, H.Hides, H.After;
    var held := RunTree(tree, [RenameOp(from, to)] + ops);
    forall p
      ensures held(from).None? || p != to ==> Replayed(held, from, to, ops, p) == held(p)
    {
      ReplayedAt(tree, held, from, to, ops, p);
    }
    ReplayedAt(tree, held, from, to, ops, to);
    if held(from).Some? {
      H.HidesExact(held(from), tree(from), Records(ops), [], to);
    }
  }

  lemma {:induction false} ReplayedAt(tree: Tree, held: Tree, from: Path, to: Path, ops: seq<FileOp>, p: Path)
    requires from != to && tree(from).Some? && NoRename(ops)
    requires held == RunTree(tree, [RenameOp(from, to)] + ops)
    ensures held(from).None? || p != to ==> Replayed(held, from, to, ops, p) == held(p)
    ensures held(from).Some? ==> Replayed(held, from, to, ops, to) == Later(held(from), ops, to)
    ensures held(to) == Later(tree(from), ops, to)
  {
    hide RunTree, RunOverlay, View, AllAllowed;
    var x := RenameOp(from, to);
    var moved := StepTree(tree, x);
    FirstThenRest(tree, x, ops);
    RunIsLater(moved, ops, p);
    RunIsLater(moved, ops, to);
    H.Idempotent(moved(p), Records(ops), [], p);
    if held(from).None? {
      SourceGone(held, from, to, ops);
      RunReads(held, ops, p);
      RunIsLater(held, ops, p);
    } else {
      AllowedRest(held, x, ops);
      FirstThenRest(held, x, ops);
      RunReads(held, [x] + ops, p);
      RunReads(held, [x] + ops, to);
      RunIsLater(StepTree(held, x), ops, p);
      RunIsLater(StepTree(held, x), ops, to);
    }
  }
}
