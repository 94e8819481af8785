/** What the engine holds in memory beside the disk: the queue of live log records and one overlay for
    each dirty ref, and how they stand to the acknowledged history. */
module Volatile {
  import opened Cells
  import opened WalCodec
  import opened WalLog
  import opened Ring
  import opened ChunkIndex
  import opened RefTables
  import opened History
  import opened Durable
  import opened Recovery
  import CrashSafety
  import Tree
  import PO = PathOverlay
  import opened Scheduler
  import opened Accounts
  import opened DirtyBytes
  import Intervals
  import MapSum

  /** A live log record; `flushed` once its effect is in its ref's tree. */
  datatype RecMeta = RecMeta(seqno: nat, off: nat, ref: Bytes, flushed: bool)

  function OverlayOf(overlays: map<Bytes, PO.Overlay>, r: Bytes): PO.Overlay {
    if r in overlays then overlays[r] else PO.EMPTY
  }

  // ── The record queue ──

  ghost predicate RecOk(rec: RecMeta, i: nat, sb: Sb, hist: seq<WalOp>, done: map<Bytes, nat>)
    requires 1 <= sb.walNextSeq <= |hist| + 1
  {
    var j := sb.walNextSeq - 1 + i;
    && j < |hist| && rec.seqno == j + 1 && rec.ref == hist[j].ref
    && (rec.flushed <==> j < DoneOf(done, rec.ref))
    && rec.off == Wrap(sb.walHead + LogLen(hist[sb.walNextSeq - 1..][..i]), sb.walLen)
  }

  /** The queue holds the operations from the log head on, at their places in the ring; everything
      before the head is in the trees. */
  ghost predicate LogInv(recs: seq<RecMeta>, sb: Sb, hist: seq<WalOp>, done: map<Bytes, nat>) {
    && 1 <= sb.walNextSeq <= |hist| + 1 && |recs| == |hist| - (sb.walNextSeq - 1)
    && (forall j :: 0 <= j < sb.walNextSeq - 1 ==> j < DoneOf(done, hist[j].ref))
    && (forall i :: 0 <= i < |recs| ==> RecOk(recs[i], i, sb, hist, done))
  }

  lemma {:induction false} LogAppend(recs: seq<RecMeta>, sb: Sb, hist: seq<WalOp>, done: map<Bytes, nat>, op: WalOp,
                                     tail: nat)
    requires LogInv(recs, sb, hist, done) && DoneOf(done, op.ref) <= |hist|
    requires tail == Wrap(sb.walHead + LogLen(hist[sb.walNextSeq - 1..]), sb.walLen)
    ensures LogInv(recs + [RecMeta(|hist| + 1, tail, op.ref, false)], sb, hist + [op], done)
  {
    hide LogLen, Wrap;
    var h', recs' := hist + [op], recs + [RecMeta(|hist| + 1, tail, op.ref, false)];
    var next := sb.walNextSeq;
    assert h'[next - 1..] == hist[next - 1..] + [op];
    forall i | 0 <= i < |recs'|
      ensures RecOk(recs'[i], i, sb, h', done)
    {
      assert h'[next - 1..][..i] == hist[next - 1..][..i];
      if i < |recs| {
        assert RecOk(recs[i], i, sb, hist, done);
      } else {
        assert hist[next - 1..][..i] == hist[next - 1..];
      }
    }
  }

  function Marked(recs: seq<RecMeta>, r: Bytes): (m: seq<RecMeta>)
    ensures |m| == |recs|
  {
    seq(|recs|, i requires 0 <= i < |recs| => if recs[i].ref == r then recs[i].(flushed := true) else recs[i])
  }

  /** A commit drops exactly the flushed records at the front of the queue. */
  predicate Popped(was: seq<RecMeta>, now: seq<RecMeta>) {
    && |now| <= |was| && now == was[|was| - |now|..]
    && (forall i :: 0 <= i < |was| - |now| ==> was[i].flushed)
    && (now == [] || !now[0].flushed)
  }

  // ── Losses ──

  /** An engine that goes on after a failed flush has dropped the operations `xs`; the next flush of the ref builds a
      tree from `ys` alone, and marks all records. At `p` it reads what was acknowledged if and only if `ys` hide the
      difference. */
  lemma {:induction false} ForgottenExact(tree: PO.Tree, xs: seq<WalOp>, ys: seq<WalOp>, r: Bytes, p: Path)
    requires AllPlain(ys)
    ensures PO.View(tree, ReplayOverlay(ys, r), p) == After(tree(p), xs + ys, r, p) <==>
            Hides(tree(p), After(tree(p), xs, r, p), ys, r, p)
  {
    hide After, Hides, PO.View, ReplayOverlay;
    ReplayReads(tree, ys, r, p);
    AfterConcat(tree(p), xs, ys, r, p);
    HidesExact(tree(p), After(tree(p), xs, r, p), ys, r, p);
  }

  /** A commit drops the marked records in front, `k` of them. A mount then reads what was acknowledged if and only if
      the records that are left hide the difference. */
  lemma {:induction false} ForgottenMount(cur: Option<Bytes>, xs: seq<WalOp>, ys: seq<WalOp>, k: nat, r: Bytes, p: Path)
    requires k <= |xs + ys|
    ensures var now, was, left := After(cur, ys, r, p), After(cur, xs + ys, r, p), (xs + ys)[k..];
            After(now, left, r, p) == was <==> Hides(now, was, left, r, p)
  {
    hide After, Hides;
    var all := xs + ys;
    assert all[..|all|] == all;
    Replay(cur, all, k, |all|, r, p);
    HidesExact(After(cur, ys, r, p), After(cur, all, r, p), all[k..], r, p);
  }

  /** One such loss: all records of the ref are marked, so the commit drops them all. */
  lemma {:induction false} ForgottenExample(r: Bytes, p: Path, q: Path, tree: PO.Tree, left: seq<RecMeta>)
    requires p != q && tree(p) == None
    requires Popped(Marked([RecMeta(1, 0, r, false), RecMeta(2, RecLen(Write(r, p, 0, 0, [1])), r, false)], r), left)
    ensures var x, y := Write(r, p, 0, 0, [1]), Write(r, q, 0, 0, [2]);
            && After(tree(p), [x, y], r, p) == Some([1])
            && PO.View(tree, ReplayOverlay([y], r), p) == None
            && left == []
  {
    hide RecLen;
    var x, y := Write(r, p, 0, 0, [1]), Write(r, q, 0, 0, [2]);
    assert [x, y][1..] == [y] && [y][1..] == [] && [y][..0] == [];
    assert Intervals.Splice([], 0, [1]) == [1];
    assert Step(tree(p), x, r, p) == Some([1]);
    assert After(tree(p), [x, y], r, p) == After(Some([1]), [y], r, p);
    AfterOne(Some([1]), y, r, p);
    assert ReplayOverlay([y], r) == ApplyOp(ReplayOverlay([], r), y, r);
  }

  /** A write whose record does not fit a log of `walLen` cells. */
  function Oversized(r: Bytes, p: Path, walLen: nat): WalOp {
    Write(r, p, 0, 0, seq(walLen + 1, _ => 2))
  }

  /** A write too large for the log that is lost: its ref is flushed and committed on the spot, but the record of
      another ref in front keeps the ref's older record in the log, which the next mount replays over it. */
  lemma {:induction false} UnloggedExample(a: Bytes, r: Bytes, q: Path, p: Path, walLen: nat, left: seq<RecMeta>)
    requires a != r && RecLen(Write(a, q, 0, 0, [1])) + RecLen(Write(r, p, 0, 0, [1])) <= walLen
    requires Popped(Marked([RecMeta(1, 0, a, false), RecMeta(2, RecLen(Write(a, q, 0, 0, [1])), r, false)], r), left)
    ensures RecLen(Oversized(r, p, walLen)) > walLen
    ensures |left| == 2 && left[0].ref == a && left[1].ref == r
    ensures !SurvivesReplay(None, [Write(a, q, 0, 0, [1]), Write(r, p, 0, 0, [1])], Oversized(r, p, walLen), r, p)
  {
    hide EncodePayload, Intervals.Splice;
    var x, y, w := Write(a, q, 0, 0, [1]), Write(r, p, 0, 0, [1]), Oversized(r, p, walLen);
    PayloadHolds(w);
    forall c
      ensures After(c, [x, y], r, p) == Step(c, y, r, p)
    {
      assert [x, y][1..] == [y] && Step(c, x, r, p) == c;
      AfterOne(c, y, r, p);
    }
    var m := Marked([RecMeta(1, 0, a, false), RecMeta(2, RecLen(x), r, false)], r);
    assert !m[0].flushed && left == m[|m| - |left|..];
    var tree := Step(After(None, [x, y], r, p), w, r, p);
    assert tree.value[0] == 2;
    assert After(tree, [x, y], r, p).value[0] == 1;
  }

  lemma {:induction false} PayloadHolds(w: WalOp)
    requires w.Write?
    ensures |EncodePayload(w)| >= |w.data|
  {
  }

  lemma {:induction false} LogFlush(recs: seq<RecMeta>, sb: Sb, hist: seq<WalOp>, done: map<Bytes, nat>, r: Bytes)
    requires LogInv(recs, sb, hist, done)
    ensures LogInv(Marked(recs, r), sb, hist, done[r := |hist|])
  {
    hide LogLen, Wrap;
    forall i | 0 <= i < |recs|
      ensures RecOk(Marked(recs, r)[i], i, sb, hist, done[r := |hist|])
    {
      assert RecOk(recs[i], i, sb, hist, done);
    }
  }

  /** The scan for the new log head: past the flushed prefix of the queue. */
  method AdvanceHead(recs: seq<RecMeta>, walSeq: nat) returns (n: nat, head: nat, next: nat)
    ensures n <= |recs| && forall i :: 0 <= i < n ==> recs[i].flushed
    ensures n < |recs| ==> !recs[n].flushed && head == recs[n].off && next == recs[n].seqno
    ensures n == |recs| ==> head == 0 && next == walSeq
  {
    n := 0;
    while n < |recs| && recs[n].flushed
      invariant 0 <= n <= |recs|
      invariant forall i :: 0 <= i < n ==> recs[i].flushed
    {
      n := n + 1;
    }
    if n < |recs| {
      head, next := recs[n].off, recs[n].seqno;
    } else {
      head, next := 0, walSeq;
    }
  }

  lemma {:induction false} WrapTwice(head: nat, a: nat, b: nat, len: nat)
    requires head < len && a + b <= len
    ensures Wrap(Wrap(head + a, len) + b, len) == Wrap(head + a + b, len)
  {
  }

  /** The queue after the head moved past `n` flushed records, some being left. */
  lemma {:induction false} LogMoved(recs: seq<RecMeta>, sb: Sb, hist: seq<WalOp>, done: map<Bytes, nat>, n: nat,
                                    sb': Sb)
    requires LogInv(recs, sb, hist, done) && n < |recs| && forall i :: 0 <= i < n ==> recs[i].flushed
    requires sb'.walHead == recs[n].off && sb'.walNextSeq == recs[n].seqno && sb'.walLen == sb.walLen
    requires sb.walHead < sb.walLen && LogLen(hist[sb.walNextSeq - 1..]) <= sb.walLen
    ensures LogInv(recs[n..], sb', hist, done)
  {
    hide LogLen, Wrap;
    var ops, next := hist[sb.walNextSeq - 1..], sb.walNextSeq;
    assert RecOk(recs[n], n, sb, hist, done);
    forall j | 0 <= j < sb'.walNextSeq - 1
      ensures j < DoneOf(done, hist[j].ref)
    {
      if j >= next - 1 {
        assert RecOk(recs[j - (next - 1)], j - (next - 1), sb, hist, done);
      }
    }
    forall i | 0 <= i < |recs[n..]|
      ensures RecOk(recs[n..][i], i, sb', hist, done)
    {
      assert RecOk(recs[n + i], n + i, sb, hist, done);
      assert hist[sb'.walNextSeq - 1..] == ops[n..];
      LogCut(ops, n, i);
      WrapTwice(sb.walHead, LogLen(ops[..n]), LogLen(ops[n..][..i]), sb.walLen);
    }
  }

  lemma {:induction false} LogCut(ops: seq<WalOp>, n: nat, i: nat)
    requires n + i <= |ops|
    ensures LogLen(ops[..n + i]) == LogLen(ops[..n]) + LogLen(ops[n..][..i]) <= LogLen(ops)
  {
    hide LogLen, EncodeLog;
    LogSplit(ops, n + i, 0);
    LogSplit(ops[..n + i], n, 0);
    assert ops[..n + i][..n] == ops[..n] && ops[..n + i][n..] == ops[n..][..i];
  }

  /** The queue after all of it was flushed and dropped. */
  lemma {:induction false} LogReset(recs: seq<RecMeta>, sb: Sb, hist: seq<WalOp>, done: map<Bytes, nat>, sb': Sb)
    requires LogInv(recs, sb, hist, done) && forall i :: 0 <= i < |recs| ==> recs[i].flushed
    requires sb'.walNextSeq == |hist| + 1
    ensures LogInv([], sb', hist, done)
  {
    hide LogLen, Wrap;
    forall j | 0 <= j < |hist|
      ensures j < DoneOf(done, hist[j].ref)
    {
      if j >= sb.walNextSeq - 1 {
        assert RecOk(recs[j - (sb.walNextSeq - 1)], j - (sb.walNextSeq - 1), sb, hist, done);
      }
    }
  }

  // ── Refs ──

  /** A ref's tree holds a prefix of the history that covers its flushed operations, and its overlay is
      the rest of the history replayed. */
  ghost predicate RefOk(row: RefRow, overlays: map<Bytes, PO.Overlay>, hist: seq<WalOp>, done: map<Bytes, nat>) {
    var f := DoneOf(done, row.name);
    && f <= |hist|
    && OverlayOf(overlays, row.name) == ReplayOverlay(hist[f..], row.name)
    && ReflectsFrom(row.root, row.name, hist, f)
  }

  predicate SameNames(a: seq<RefRow>, b: seq<RefRow>) {
    |a| == |b| && forall i :: 0 <= i < |a| ==> a[i].name == b[i].name
  }

  predicate Distinct(refs: seq<RefRow>) {
    forall i, j :: 0 <= i < j < |refs| ==> refs[i].name != refs[j].name
  }

  ghost predicate ViewInv(table: RefTable, overlays: map<Bytes, PO.Overlay>, hist: seq<WalOp>, done: map<Bytes, nat>) {
    && Distinct(table.refs) && AllPlain(hist)
    && (forall i :: 0 <= i < |table.refs| ==> RefOk(table.refs[i], overlays, hist, done))
    && (forall k :: 0 <= k < |hist| ==> RefKnown(table, hist[k].ref))
    && (forall r :: r in overlays ==> RefKnown(table, r))
  }

  /** Reads return the acknowledged contents. */
  lemma {:induction false} ViewReads(row: RefRow, overlays: map<Bytes, PO.Overlay>, hist: seq<WalOp>,
                                     done: map<Bytes, nat>, p: Path)
    requires RefOk(row, overlays, hist, done) && AllPlain(hist)
    ensures PO.Valid(OverlayOf(overlays, row.name))
    ensures PO.View(Tree.TreeAt(row.root), OverlayOf(overlays, row.name), p) == After(None, hist, row.name, p)
  {
    hide PO.View, PO.Valid, ReplayOverlay, Plain;
    var f := DoneOf(done, row.name);
    var n :| f <= n && Reflects(row.root, row.name, hist, n);
    ReplayReads(Tree.TreeAt(row.root), hist[f..], row.name, p);
    Replay(None, hist, f, n, row.name, p);
  }

  lemma {:induction false} ReplayMore(ops: seq<WalOp>, op: WalOp, r: Bytes)
    ensures ReplayOverlay(ops + [op], r) == ApplyOp(ReplayOverlay(ops, r), op, r)
  {
    assert (ops + [op])[..|ops|] == ops;
  }

  lemma {:induction false} RefAppend(row: RefRow, overlays: map<Bytes, PO.Overlay>, overlays': map<Bytes, PO.Overlay>,
                                     hist: seq<WalOp>, done: map<Bytes, nat>, op: WalOp)
    requires RefOk(row, overlays, hist, done)
    requires OverlayOf(overlays', row.name) == ApplyOp(OverlayOf(overlays, row.name), op, row.name)
    ensures RefOk(row, overlays', hist + [op], done)
  {
    hide ReplayOverlay, ApplyOp, Reflects;
    var f := DoneOf(done, row.name);
    assert (hist + [op])[f..] == hist[f..] + [op];
    ReplayMore(hist[f..], op, row.name);
    var n :| f <= n && Reflects(row.root, row.name, hist, n);
    CrashSafety.ReflectsGrows(row.root, row.name, hist, op, n);
  }

  lemma {:induction false} ViewAppend(table: RefTable, overlays: map<Bytes, PO.Overlay>, hist: seq<WalOp>,
                                      done: map<Bytes, nat>, op: WalOp)
    requires ViewInv(table, overlays, hist, done) && Plain(op) && RefKnown(table, op.ref)
    ensures ViewInv(table, overlays[op.ref := ApplyOp(OverlayOf(overlays, op.ref), op, op.ref)], hist + [op], done)
    ensures DoneOf(done, op.ref) <= |hist|
  {
    hide Plain, ReplayOverlay, RefOk;
    var overlays' := overlays[op.ref := ApplyOp(OverlayOf(overlays, op.ref), op, op.ref)];
    forall i | 0 <= i < |table.refs|
      ensures RefOk(table.refs[i], overlays', hist + [op], done)
    {
      RefAppend(table.refs[i], overlays, overlays', hist, done, op);
    }
    var i :| 0 <= i < |table.refs| && table.refs[i].name == op.ref;
    RefBound(table.refs[i], overlays, hist, done);
  }

  lemma {:induction false} RefBound(row: RefRow, overlays: map<Bytes, PO.Overlay>, hist: seq<WalOp>,
                                    done: map<Bytes, nat>)
    requires RefOk(row, overlays, hist, done)
    ensures DoneOf(done, row.name) <= |hist|
  {
  }

  function Repointed(table: RefTable, i: nat, root: Hash): RefTable
    requires i < |table.refs|
  {
    table.(refs := table.refs[i := table.refs[i].(root := root)])
  }

  /** Flushing a ref moves what its overlay held into its tree. */
  lemma {:induction false} ViewFlush(table: RefTable, overlays: map<Bytes, PO.Overlay>, hist: seq<WalOp>,
                                     done: map<Bytes, nat>, i: nat, root: Hash)
    requires ViewInv(table, overlays, hist, done) && i < |table.refs|
    requires forall p :: Tree.Files(root, p) ==
                         PO.View(Tree.TreeAt(table.refs[i].root), OverlayOf(overlays, table.refs[i].name), p)
    ensures ViewInv(Repointed(table, i, root), overlays - {table.refs[i].name}, hist,
                    done[table.refs[i].name := |hist|])
  {
    hide ReplayOverlay, RefOk, PO.View, RefKnown, Plain;
    var r := table.refs[i].name;
    var table', overlays', done' := Repointed(table, i, root), overlays - {r}, done[r := |hist|];
    FlushedRef(table.refs[i], overlays, hist, done, root);
    forall k | 0 <= k < |table'.refs|
      ensures RefOk(table'.refs[k], overlays', hist, done')
    {
      if k != i {
        OtherRef(table.refs[k], overlays, hist, done, r);
      }
    }
    forall s | RefKnown(table, s)
      ensures RefKnown(table', s)
    {
      KnownKept(table, i, root, s);
    }
  }

  lemma {:induction false} KnownKept(table: RefTable, i: nat, root: Hash, s: Bytes)
    requires i < |table.refs| && RefKnown(table, s)
    ensures RefKnown(Repointed(table, i, root), s)
  {
    var k :| 0 <= k < |table.refs| && table.refs[k].name == s;
    assert Repointed(table, i, root).refs[k].name == s;
  }

  lemma {:induction false} OtherRef(row: RefRow, overlays: map<Bytes, PO.Overlay>, hist: seq<WalOp>,
                                    done: map<Bytes, nat>, r: Bytes)
    requires RefOk(row, overlays, hist, done) && row.name != r
    ensures RefOk(row, overlays - {r}, hist, done[r := |hist|])
  {
    hide ReplayOverlay, Reflects;
  }

  lemma {:induction false} FlushedRef(row: RefRow, overlays: map<Bytes, PO.Overlay>, hist: seq<WalOp>,
                                      done: map<Bytes, nat>, root: Hash)
    requires RefOk(row, overlays, hist, done) && AllPlain(hist)
    requires forall p :: Tree.Files(root, p) == PO.View(Tree.TreeAt(row.root), OverlayOf(overlays, row.name), p)
    ensures RefOk(row.(root := root), overlays - {row.name}, hist, done[row.name := |hist|])
  {
    hide PO.View, Plain, RefOk, After;
    assert hist[..|hist|] == hist;
    forall p
      ensures Tree.Files(root, p) == After(None, hist, row.name, p)
    {
      ViewReads(row, overlays, hist, done, p);
    }
    assert Reflects(root, row.name, hist, |hist|);
    CleanRef(row.(root := root), overlays - {row.name}, hist, done[row.name := |hist|]);
  }

  lemma {:induction false} CleanRef(row: RefRow, overlays: map<Bytes, PO.Overlay>, hist: seq<WalOp>,
                                    done: map<Bytes, nat>)
    requires row.name !in overlays && DoneOf(done, row.name) == |hist| && Reflects(row.root, row.name, hist, |hist|)
    ensures RefOk(row, overlays, hist, done)
  {
    hide Reflects;
    assert hist[|hist|..] == [];
  }

  /** No operation of the ref between `n` and `m`: the tree stands for both. */
  lemma {:induction false} ReflectsLater(root: Hash, r: Bytes, hist: seq<WalOp>, n: nat, m: nat)
    requires Reflects(root, r, hist, n) && n <= m <= |hist|
    requires forall j :: n <= j < m ==> hist[j].ref != r
    ensures Reflects(root, r, hist, m)
  {
    hide After;
    assert hist[..m] == hist[..n] + hist[n..m];
    forall p
      ensures After(None, hist[..m], r, p) == After(None, hist[..n], r, p)
    {
      AfterConcat(None, hist[..n], hist[n..m], r, p);
      AfterUntouched(After(None, hist[..n], r, p), hist[n..m], r, p);
    }
  }

  /** Every tree holds everything before the new log head, so the next commit may drop it. */
  lemma {:induction false} HeadCovered(table: RefTable, overlays: map<Bytes, PO.Overlay>, hist: seq<WalOp>,
                                       done: map<Bytes, nat>, head: nat)
    requires ViewInv(table, overlays, hist, done) && head <= |hist|
    requires forall j :: 0 <= j < head ==> j < DoneOf(done, hist[j].ref)
    ensures Covered(table, head, hist)
  {
    hide RefKnown, Plain, RefOk;
    forall i | 0 <= i < |table.refs|
      ensures ReflectsFrom(table.refs[i].root, table.refs[i].name, hist, head)
    {
      RowCovered(table.refs[i], overlays, hist, done, head);
    }
  }

  lemma {:induction false} RowCovered(row: RefRow, overlays: map<Bytes, PO.Overlay>, hist: seq<WalOp>,
                                      done: map<Bytes, nat>, head: nat)
    requires RefOk(row, overlays, hist, done) && head <= |hist|
    requires forall j :: 0 <= j < head ==> j < DoneOf(done, hist[j].ref)
    ensures ReflectsFrom(row.root, row.name, hist, head)
  {
    hide Reflects, ReplayOverlay;
    var n :| DoneOf(done, row.name) <= n && Reflects(row.root, row.name, hist, n);
    ReflectsBound(row.root, row.name, hist, n);
    if n < head {
      ReflectsLater(row.root, row.name, hist, n, head);
    }
  }

  lemma {:induction false} ReflectsBound(root: Hash, r: Bytes, hist: seq<WalOp>, n: nat)
    requires Reflects(root, r, hist, n)
    ensures n <= |hist|
  {
  }


  // ── Rebuilding after a mount ──

  /** The ref's records write no more distinct positions, not unlinked later, and are no more than its bounds say. */
  ghost predicate LogWithin(ops: seq<WalOp>, opts: Options, r: Bytes) {
    |Pending(ops, r)| <= opts.perRefBudget && OpsOn(ops, r) <= opts.opBound
  }

  ghost predicate Touched(recs: seq<Rec>, n: nat, r: Bytes)
    requires n <= |recs|
  {
    exists k :: 0 <= k < n && recs[k].op.ref == r
  }

  /** Replay the recovered records into overlays and queue them again, unflushed, at their places. */
  method Rebuild(recs: seq<Rec>, sb: Sb)
    returns (overlays: map<Bytes, PO.Overlay>, acct: map<Bytes, Acct>, queue: seq<RecMeta>)
    ensures acct.Keys == overlays.Keys
    ensures forall r :: Accounted(acct, OpsOf(recs), r)
    ensures forall r :: OverlayOf(overlays, r) == ReplayOverlay(OpsOf(recs), r)
    ensures forall r :: r in overlays ==> Touched(recs, |recs|, r)
    ensures |queue| == |recs|
    ensures forall i :: 0 <= i < |recs| ==>
              queue[i] == RecMeta(recs[i].seqno, Wrap(sb.walHead + recs[i].off, sb.walLen), recs[i].op.ref, false)
  {
    hide ReplayOverlay, ApplyOp, Accounted, Account;
    overlays, acct, queue := map[], map[], [];
    forall r
      ensures ReplayOverlay([], r) == PO.EMPTY && Accounted(map[], [], r)
    {
      ReplayNone(r);
    }
    assert OpsOf(recs)[..0] == [];
    for i := 0 to |recs|
      invariant forall r :: OverlayOf(overlays, r) == ReplayOverlay(OpsOf(recs)[..i], r)
      invariant forall r :: Accounted(acct, OpsOf(recs)[..i], r)
      invariant acct.Keys == overlays.Keys && forall r :: r in overlays ==> Touched(recs, i, r)
      invariant |queue| == i
      invariant forall k :: 0 <= k < i ==>
                  queue[k] == RecMeta(recs[k].seqno, Wrap(sb.walHead + recs[k].off, sb.walLen), recs[k].op.ref, false)
    {
      var op := recs[i].op;
      ghost var was := overlays;
      assert Touched(recs, i + 1, op.ref);
      forall r | Touched(recs, i, r)
        ensures Touched(recs, i + 1, r)
      {
        var k :| 0 <= k < i && recs[k].op.ref == r;
      }
      overlays := overlays[op.ref := ApplyOp(OverlayOf(overlays, op.ref), op, op.ref)];
      ghost var more := OpsOf(recs)[..i + 1];
      forall r
        ensures Accounted(Account(acct, op), more, r)
      {
        assert more == OpsOf(recs)[..i] + [op];
        AccountMore(acct, OpsOf(recs)[..i], op, r);
      }
      AccountKeys(acct, op);
      acct := Account(acct, op);
      forall r
        ensures OverlayOf(overlays, r) == ReplayOverlay(OpsOf(recs)[..i + 1], r)
      {
        ReplayStep(recs, i, was, r);
      }
      queue := queue + [RecMeta(recs[i].seqno, Wrap(sb.walHead + recs[i].off, sb.walLen), op.ref, false)];
    }
    assert OpsOf(recs)[..|recs|] == OpsOf(recs);
  }

  lemma {:induction false} ReplayStep(recs: seq<Rec>, i: nat, overlays: map<Bytes, PO.Overlay>, r: Bytes)
    requires i < |recs| && OverlayOf(overlays, r) == ReplayOverlay(OpsOf(recs)[..i], r)
    ensures var op := recs[i].op;
            OverlayOf(overlays[op.ref := ApplyOp(OverlayOf(overlays, op.ref), op, op.ref)], r)
            == ReplayOverlay(OpsOf(recs)[..i + 1], r)
  {
    hide ReplayOverlay;
    assert OpsOf(recs)[..i + 1] == OpsOf(recs)[..i] + [recs[i].op];
    ReplayMore(OpsOf(recs)[..i], recs[i].op, r);
  }

  lemma {:induction false} ReplayNone(r: Bytes)
    ensures ReplayOverlay([], r) == PO.EMPTY && Accounted(map[], [], r)
  {
  }

  lemma {:induction false} AccountKeys(acct: map<Bytes, Acct>, op: WalOp)
    ensures Account(acct, op).Keys == acct.Keys + {op.ref}
  {
  }

  /** After a mount a ref is within its bounds exactly when its records in the log are. */
  lemma {:induction false} MountedWithin(overlays: map<Bytes, PO.Overlay>, acct: map<Bytes, Acct>, ops: seq<WalOp>,
                                         opts: Options, r: Bytes)
    requires acct.Keys == overlays.Keys && Accounted(acct, ops, r)
    requires OverlayOf(overlays, r) == ReplayOverlay(ops, r) && AllPlain(ops)
    ensures RefWithin(overlays, acct, opts, r) <==> LogWithin(ops, opts, r)
  {
    hide ReplayOverlay, OpsOn, Pending;
    PendingBytes(ops, r);
    if r !in overlays {
      NoBytes();
    }
  }

  lemma {:induction false} NoBytes()
    ensures OverlayBytes(PO.EMPTY) == 0
  {
    assert FileBytes(PO.EMPTY) == map[];
  }

  /** The bound of one ref does not survive a crash by itself. Ref `b` took two bytes, was flushed at once, and is
      clean; but its records stay in the log behind the record of `a`, which no commit can drop. A mount replays
      them, and `b` is over a budget of one byte. */
  lemma {:induction false} BudgetLost(a: Bytes, b: Bytes, p: Path, opts: Options, recs: seq<RecMeta>)
    requires a != b && opts.perRefBudget == 1
    requires |recs| == 3 && recs[0].ref == a && recs[1].ref == recs[2].ref == b && !recs[0].flushed
    ensures var m := Marked(recs, b); !m[0].flushed && m[1].flushed && m[2].flushed
    ensures var log := [Write(a, p, 0, 0, [1]), Write(b, p, 0, 0, [2]), Write(b, p, 1, 0, [3])];
            OverlayBytes(ReplayOverlay(log, b)) == 2 && !LogWithin(log, opts, b)
  {
    hide OverlayBytes, PO.Write, ReplayOverlay, OpsOn, Pending;
    var x, y, z := Write(a, p, 0, 0, [1]), Write(b, p, 0, 0, [2]), Write(b, p, 1, 0, [3]);
    ReplayMore([], x, b);
    ReplayMore([x], y, b);
    ReplayMore([x, y], z, b);
    assert [] + [x] == [x] && [x] + [y] == [x, y] && [x, y] + [z] == [x, y, z];
    ReplayNone(b);
    TwoBytes(p);
    PendingBytes([x, y, z], b);
  }

  lemma {:induction false} TwoBytes(p: Path)
    ensures OverlayBytes(PO.Write(PO.Write(PO.EMPTY, p, 0, [2], 0), p, 1, [3], 0)) == 2
  {
    var o := PO.Write(PO.Write(PO.EMPTY, p, 0, [2], 0), p, 1, [3], 0);
    var w := Intervals.Inserted([], 0, [2]);
    assert w == [Intervals.Interval(0, [2])];
    assert Intervals.Before(w, 1) == w && Intervals.From(w, 2) == [];
    var w2 := Intervals.Inserted(w, 1, [3]);
    assert w2 == [Intervals.Interval(0, [2]), Intervals.Interval(1, [3])];
    assert Intervals.Stored(w2[1..]) == 1 && Intervals.Stored(w2) == 2;
    assert FileBytes(o) == map[p := 2];
    MapSum.SumPick(FileBytes(o), p);
    assert FileBytes(o) - {p} == map[];
  }

  function NamesIn(table: RefTable): set<Bytes> {
    set i | 0 <= i < |table.refs| :: table.refs[i].name
  }

  lemma {:induction false} KnownIn(table: RefTable, r: Bytes)
    ensures RefKnown(table, r) <==> r in NamesIn(table)
  {
  }

  /** Nothing replayed is in the trees as far as the engine knows: the trees hold what precedes the head. */
  function MountDone(table: RefTable, head: nat): map<Bytes, nat> {
    map r | r in NamesIn(table) :: head
  }

  lemma {:induction false} MountDoneAt(table: RefTable, hist: seq<WalOp>, head: nat, k: nat)
    requires Covered(table, head, hist) && k < |hist|
    ensures DoneOf(MountDone(table, head), hist[k].ref) == head
  {
    hide ReflectsFrom, RefKnown;
    KnownIn(table, hist[k].ref);
  }

  lemma {:induction false} QueueRebuilt(table: RefTable, sb: Sb, hist: seq<WalOp>, recs: seq<Rec>, queue: seq<RecMeta>)
    requires 1 <= sb.walNextSeq <= |hist| + 1 && recs == Recs(hist[sb.walNextSeq - 1..], 0, sb.walNextSeq)
    requires Covered(table, sb.walNextSeq - 1, hist) && |queue| == |recs|
    requires forall i :: 0 <= i < |recs| ==>
               queue[i] == RecMeta(recs[i].seqno, Wrap(sb.walHead + recs[i].off, sb.walLen), recs[i].op.ref, false)
    ensures LogInv(queue, sb, hist, MountDone(table, sb.walNextSeq - 1))
  {
    hide LogLen, Recs, Wrap, RecLen, Covered, MountDone;
    var next := sb.walNextSeq;
    var ops := hist[next - 1..];
    var done := MountDone(table, next - 1);
    forall k | 0 <= k < |hist|
      ensures DoneOf(done, hist[k].ref) == next - 1
    {
      MountDoneAt(table, hist, next - 1, k);
    }
    forall i | 0 <= i < |queue|
      ensures RecOk(queue[i], i, sb, hist, done)
    {
      RecsAt(ops, 0, next, i);
      assert ops[i] == hist[next - 1 + i];
    }
  }

  /** The accounts rebuilt at a mount are those of the records in the log. */
  lemma {:induction false} AcctRebuilt(table: RefTable, hist: seq<WalOp>, head: nat, acct: map<Bytes, Acct>)
    requires head <= |hist| && Covered(table, head, hist) && forall r :: Accounted(acct, hist[head..], r)
    ensures AcctInv(acct, hist, MountDone(table, head))
  {
    hide ReflectsFrom, OpsOn, FirstTime;
    forall r
      ensures AcctAt(acct, hist, MountDone(table, head), r)
    {
      assert Accounted(acct, hist[head..], r);
      if r !in NamesIn(table) {
        forall j | 0 <= j < |hist|
          ensures hist[j].ref != r
        {
          NameKnown(table, hist[j].ref);
          assert RefKnown(table, hist[j].ref);
        }
        NoneBefore(hist[head..], r);
        assert hist[0..] == hist;
        NoneBefore(hist, r);
      }
    }
  }

  lemma {:induction false} NameKnown(table: RefTable, r: Bytes)
    ensures RefKnown(table, r) <==> r in NamesIn(table)
  {
  }

  lemma {:induction false} ViewRebuilt(table: RefTable, sb: Sb, hist: seq<WalOp>, recs: seq<Rec>,
                                       overlays: map<Bytes, PO.Overlay>)
    requires 1 <= sb.walNextSeq <= |hist| + 1 && recs == Recs(hist[sb.walNextSeq - 1..], 0, sb.walNextSeq)
    requires Covered(table, sb.walNextSeq - 1, hist) && AllPlain(hist)
    requires forall r :: OverlayOf(overlays, r) == ReplayOverlay(OpsOf(recs), r)
    requires forall r :: r in overlays ==> Touched(recs, |recs|, r)
    ensures ViewInv(table, overlays, hist, MountDone(table, sb.walNextSeq - 1))
  {
    hide LogLen, Recs, ReplayOverlay, Plain, RecLen, ReflectsFrom;
    var next := sb.walNextSeq;
    var ops := hist[next - 1..];
    RecsOps(ops, 0, next);
    forall i | 0 <= i < |table.refs|
      ensures RefOk(table.refs[i], overlays, hist, MountDone(table, next - 1))
    {
      assert table.refs[i].name in NamesIn(table);
    }
    forall r | r in overlays
      ensures RefKnown(table, r)
    {
      var i :| 0 <= i < |recs| && recs[i].op.ref == r;
      RecsAt(ops, 0, next, i);
      assert ops[i] == hist[next - 1 + i];
    }
  }

  /** Just past the last record on the ring. */
  function MountTail(recs: seq<Rec>, sb: Sb): nat {
    Wrap(sb.walHead + (if recs == [] then 0 else recs[|recs| - 1].off + recs[|recs| - 1].len), sb.walLen)
  }

  lemma {:induction false} LogNone()
    ensures LogLen([]) == 0
  {
  }

  lemma {:induction false} TailFound(w: seq<Cell>, sb: Sb, tail: nat, hist: seq<WalOp>, a: set<WalOp>)
    requires |w| == sb.walLen && RingInv(w, sb.walHead, sb.walNextSeq, tail, hist, a)
    ensures MountTail(Recs(hist[sb.walNextSeq - 1..], 0, sb.walNextSeq), sb) == tail
  {
    hide RingView, Rot, Recs, RecLen, LogLen, EncodeLog;
    var ops := hist[sb.walNextSeq - 1..];
    LogNone();
    if ops != [] {
      LogLenPositive(ops);
      var n := |ops| - 1;
      RecsAt(ops, 0, sb.walNextSeq, n);
      LogLenSnoc(ops[..n], ops[n], 0);
      assert ops == ops[..n] + [ops[n]];
    }
  }

  // ── A dirty ref has an overlay ──

  /** An operation of the ref since its last flush shows in its overlay. */
  lemma {:induction false} ReplayDirty(ops: seq<WalOp>, r: Bytes, j: nat)
    requires AllPlain(ops) && j < |ops| && ops[j].ref == r
    ensures !PO.IsEmpty(ReplayOverlay(ops, r))
  {
    hide Plain;
    var pre, op := ops[..|ops| - 1], ops[|ops| - 1];
    if op.ref == r {
      assert Plain(op);
      Dirties(ReplayOverlay(pre, r), op);
    } else {
      ReplayDirty(pre, r, j);
    }
  }

  lemma {:induction false} Dirties(o: PO.Overlay, op: WalOp)
    requires Plain(op)
    ensures !PO.IsEmpty(ApplyOp(o, op, op.ref))
  {
    match op
    case Write(_, p, off, mt, data) =>
      assert p in ApplyOp(o, op, op.ref).files;
    case Unlink(_, p, _) =>
      assert p in ApplyOp(o, op, op.ref).unlinks;
  }

  lemma {:induction false} CleanRow(row: RefRow, overlays: map<Bytes, PO.Overlay>, hist: seq<WalOp>,
                                    done: map<Bytes, nat>, j: nat)
    requires RefOk(row, overlays, hist, done) && AllPlain(hist) && PO.IsEmpty(OverlayOf(overlays, row.name))
    requires j < |hist| && hist[j].ref == row.name
    ensures j < DoneOf(done, row.name)
  {
    hide ReplayOverlay, Plain, ReflectsFrom, PO.IsEmpty;
    var f := DoneOf(done, row.name);
    if f <= j {
      assert hist[f..][j - f] == hist[j];
      ReplayDirty(hist[f..], row.name, j - f);
    }
  }

  /** So a ref without one has no unflushed record: flushing it changes nothing. */
  lemma {:induction false} CleanMarked(table: RefTable, overlays: map<Bytes, PO.Overlay>, recs: seq<RecMeta>, sb: Sb,
                                       hist: seq<WalOp>, done: map<Bytes, nat>, r: Bytes)
    requires LogInv(recs, sb, hist, done) && ViewInv(table, overlays, hist, done) && PO.IsEmpty(OverlayOf(overlays, r))
    ensures Marked(recs, r) == recs
  {
    hide ReplayOverlay, Plain, LogLen, Wrap, RefOk, PO.IsEmpty;
    forall i | 0 <= i < |recs| && recs[i].ref == r
      ensures recs[i].flushed
    {
      assert RecOk(recs[i], i, sb, hist, done);
      var j := sb.walNextSeq - 1 + i;
      assert RefKnown(table, hist[j].ref);
      var k :| 0 <= k < |table.refs| && table.refs[k].name == r;
      CleanRow(table.refs[k], overlays, hist, done, j);
    }
  }

  lemma {:induction false} ViewDrop(table: RefTable, overlays: map<Bytes, PO.Overlay>, hist: seq<WalOp>,
                                    done: map<Bytes, nat>, r: Bytes)
    requires ViewInv(table, overlays, hist, done) && PO.IsEmpty(OverlayOf(overlays, r))
    ensures ViewInv(table, overlays - {r}, hist, done)
  {
    hide ReplayOverlay, Plain, RefKnown, ReflectsFrom;
    forall i | 0 <= i < |table.refs|
      ensures RefOk(table.refs[i], overlays - {r}, hist, done)
    {
      assert RefOk(table.refs[i], overlays, hist, done);
    }
  }

  /** Without dirty operations there is no account. */
  lemma {:induction false} CleanAccount(table: RefTable, overlays: map<Bytes, PO.Overlay>, acct: map<Bytes, Acct>,
                                        hist: seq<WalOp>, done: map<Bytes, nat>, r: Bytes)
    requires ViewInv(table, overlays, hist, done) && AcctInv(acct, hist, done) && PO.IsEmpty(OverlayOf(overlays, r))
    ensures r !in acct
  {
    hide ReplayOverlay, Plain, RefOk, PO.IsEmpty, OpsOn, FirstTime;
    var f := DoneOf(done, r);
    assert AcctAt(acct, hist, done, r);
    forall j | 0 <= j < |hist[f..]|
      ensures hist[f..][j].ref != r
    {
      if hist[f..][j].ref == r {
        assert hist[f + j].ref == r && RefKnown(table, hist[f + j].ref);
        var k :| 0 <= k < |table.refs| && table.refs[k].name == r;
        CleanRow(table.refs[k], overlays, hist, done, f + j);
      }
    }
    NoneBefore(hist[f..], r);
  }

  // ── A new ref ──

  lemma {:induction false} LogIgnores(recs: seq<RecMeta>, sb: Sb, hist: seq<WalOp>, done: map<Bytes, nat>, r: Bytes,
                                      n: nat)
    requires LogInv(recs, sb, hist, done) && forall k :: 0 <= k < |hist| ==> hist[k].ref != r
    ensures LogInv(recs, sb, hist, done[r := n])
  {
    hide LogLen, Wrap;
    forall i | 0 <= i < |recs|
      ensures RecOk(recs[i], i, sb, hist, done[r := n])
    {
      assert RecOk(recs[i], i, sb, hist, done);
    }
  }

  lemma {:induction false} ViewCreate(table: RefTable, overlays: map<Bytes, PO.Overlay>, hist: seq<WalOp>,
                                      done: map<Bytes, nat>, r: Bytes, root: Hash)
    requires ViewInv(table, overlays, hist, done) && !RefKnown(table, r) && forall p :: Tree.Files(root, p) == None
    ensures ViewInv(table.(refs := table.refs + [NewRow(r, root)]), overlays, hist, done[r := |hist|])
    ensures forall k :: 0 <= k < |hist| ==> hist[k].ref != r
  {
    hide ReplayOverlay, Plain, ReflectsFrom, After;
    var table', done' := table.(refs := table.refs + [NewRow(r, root)]), done[r := |hist|];
    forall i | 0 <= i < |table.refs|
      ensures RefOk(table'.refs[i], overlays, hist, done')
    {
      assert RefOk(table.refs[i], overlays, hist, done);
    }
    assert hist[..|hist|] == hist;
    forall p
      ensures After(None, hist, r, p) == None
    {
      AfterUntouched(None, hist, r, p);
    }
    assert Reflects(root, r, hist, |hist|);
    CleanRef(NewRow(r, root), overlays, hist, done');
    forall s | RefKnown(table, s)
      ensures RefKnown(table', s)
    {
      var i :| 0 <= i < |table.refs| && table.refs[i].name == s;
      assert table'.refs[i].name == s;
    }
  }
}
