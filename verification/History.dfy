/** What a sequence of logged operations means for one path of one ref, and why replaying
    operations already applied changes nothing. */
module History {
  import opened Cells
  import opened WalCodec
  import opened WalLog
  import opened Intervals

  /** The operations the recovery argument covers. */
  predicate Plain(op: WalOp) {
    op.Unlink? || (op.Write? && op.data != [])
  }

  predicate AllPlain(ops: seq<WalOp>) {
    forall i :: 0 <= i < |ops| ==> Plain(ops[i])
  }

  lemma {:induction false} PlainSuffix(ops: seq<WalOp>, k: nat)
    requires AllPlain(ops) && k <= |ops|
    ensures AllPlain(ops[k..])
  {
    hide Plain;
    assert forall i :: 0 <= i < |ops[k..]| ==> ops[k..][i] == ops[k + i];
  }

  predicate Touches(op: WalOp, r: Bytes, p: Path) {
    !op.Rename? && op.ref == r && op.path == p
  }

  function Content(cur: Option<Bytes>): Bytes {
    if cur.Some? then cur.value else []
  }

  function Step(cur: Option<Bytes>, op: WalOp, r: Bytes, p: Path): Option<Bytes> {
    if !Touches(op, r, p) then cur
    else if op.Unlink? then None
    else Some(Splice(Content(cur), op.offset, op.data))
  }

  /** The content at path `p` of ref `r` after `ops`, starting from `cur`. */
  function After(cur: Option<Bytes>, ops: seq<WalOp>, r: Bytes, p: Path): Option<Bytes>
    decreases |ops|
  {
    if ops == [] then cur else After(Step(cur, ops[0], r, p), ops[1..], r, p)
  }

  lemma {:induction false} AfterConcat(cur: Option<Bytes>, a: seq<WalOp>, b: seq<WalOp>, r: Bytes, p: Path)
    ensures After(cur, a + b, r, p) == After(After(cur, a, r, p), b, r, p)
    decreases |a|
  {
    if a == [] {
      assert a + b == b;
    } else {
      assert (a + b)[1..] == a[1..] + b;
      AfterConcat(Step(cur, a[0], r, p), a[1..], b, r, p);
    }
  }

  lemma {:induction false} AfterUntouched(cur: Option<Bytes>, ops: seq<WalOp>, r: Bytes, p: Path)
    requires forall i :: 0 <= i < |ops| ==> ops[i].ref != r
    ensures After(cur, ops, r, p) == cur
    decreases |ops|
  {
    if ops != [] {
      AfterUntouched(cur, ops[1..], r, p);
    }
  }

  predicate Unlinks(op: WalOp, r: Bytes, p: Path) {
    Touches(op, r, p) && op.Unlink?
  }

  predicate Writes(op: WalOp, r: Bytes, p: Path, i: nat) {
    Touches(op, r, p) && op.Write? && op.offset <= i < op.offset + |op.data|
  }

  /** The byte the last write over position `i` put there. */
  function LastByte(ops: seq<WalOp>, r: Bytes, p: Path, i: nat): Option<Byte> {
    if ops == [] then None
    else if LastByte(ops[1..], r, p, i).Some? then LastByte(ops[1..], r, p, i)
    else if Writes(ops[0], r, p, i) then Some(ops[0].data[i - ops[0].offset])
    else None
  }

  function WriteEnd(ops: seq<WalOp>, r: Bytes, p: Path): nat {
    if ops == [] then 0
    else if Touches(ops[0], r, p) && ops[0].Write? then Max(ops[0].offset + |ops[0].data|, WriteEnd(ops[1..], r, p))
    else WriteEnd(ops[1..], r, p)
  }

  /** Without an unlink, each byte is the last one written there, else the byte it was. */
  lemma {:induction false} AfterBytes(cur: Option<Bytes>, ops: seq<WalOp>, r: Bytes, p: Path, i: nat)
    requires forall k :: 0 <= k < |ops| ==> !Unlinks(ops[k], r, p)
    ensures |Content(After(cur, ops, r, p))| == Max(|Content(cur)|, WriteEnd(ops, r, p))
    ensures At(Content(After(cur, ops, r, p)), i) ==
              if LastByte(ops, r, p, i).Some? then LastByte(ops, r, p, i).value else At(Content(cur), i)
    ensures cur.Some? ==> After(cur, ops, r, p).Some?
    decreases |ops|
  {
    if ops != [] {
      assert !Unlinks(ops[0], r, p);
      AfterBytes(Step(cur, ops[0], r, p), ops[1..], r, p, i);
    }
  }

  /** An unlink erases what came before it. */
  lemma {:induction false} AfterUnlink(cur: Option<Bytes>, cur': Option<Bytes>, ops: seq<WalOp>, k: nat, r: Bytes,
                                       p: Path)
    requires k < |ops| && Unlinks(ops[k], r, p)
    ensures After(cur, ops, r, p) == After(cur', ops, r, p)
    decreases |ops|
  {
    if k > 0 {
      AfterUnlink(Step(cur, ops[0], r, p), Step(cur', ops[0], r, p), ops[1..], k - 1, r, p);
    }
  }

  /** Applying operations twice in a row is applying them once. */
  lemma {:induction false} Idempotent(cur: Option<Bytes>, ops: seq<WalOp>, r: Bytes, p: Path)
    ensures After(After(cur, ops, r, p), ops, r, p) == After(cur, ops, r, p)
  {
    var x := After(cur, ops, r, p);
    if k :| 0 <= k < |ops| && Unlinks(ops[k], r, p) {
      AfterUnlink(cur, x, ops, k, r, p);
    } else if x.None? {
      NothingWritten(cur, ops, r, p);
    } else {
      var y := After(x, ops, r, p);
      AfterBytes(cur, ops, r, p, 0);
      AfterBytes(x, ops, r, p, 0);
      forall i: nat
        ensures At(y.value, i) == At(x.value, i)
      {
        AfterBytes(cur, ops, r, p, i);
        AfterBytes(x, ops, r, p, i);
      }
      SameBytes(x.value, y.value);
    }
  }

  lemma {:induction false} NothingWritten(cur: Option<Bytes>, ops: seq<WalOp>, r: Bytes, p: Path)
    requires forall k :: 0 <= k < |ops| ==> !Unlinks(ops[k], r, p)
    requires After(cur, ops, r, p).None?
    ensures cur.None? && forall c :: After(c, ops, r, p) == c
    decreases |ops|
  {
    if ops != [] {
      assert !Unlinks(ops[0], r, p);
      if Touches(ops[0], r, p) {
        AfterBytes(Step(cur, ops[0], r, p), ops[1..], r, p, 0);
      }
      NothingWritten(cur, ops[1..], r, p);
    }
  }

  /** Replay: a root that already holds the first `done` operations, with everything from record
      `head` on applied again, reads as the whole history. */
  lemma {:induction false} Replay(cur: Option<Bytes>, ops: seq<WalOp>, head: nat, done: nat, r: Bytes, p: Path)
    requires head <= done <= |ops|
    ensures After(After(cur, ops[..done], r, p), ops[head..], r, p) == After(cur, ops, r, p)
  {
    var a, t, u := ops[..head], ops[head..done], ops[done..];
    assert ops[..done] == a + t && ops[head..] == t + u && ops == ops[..done] + u;
    AfterConcat(cur, a, t, r, p);
    AfterConcat(After(cur, ops[..done], r, p), t, u, r, p);
    Idempotent(After(cur, a, r, p), t, r, p);
    AfterConcat(cur, ops[..done], u, r, p);
  }

  // ── Operations that hide a difference ──

  predicate Unwritten(ops: seq<WalOp>, r: Bytes, p: Path, i: nat) {
    forall k :: 0 <= k < |ops| ==> !Writes(ops[k], r, p, i)
  }

  predicate WritesAt(op: WalOp, r: Bytes, p: Path) {
    Touches(op, r, p) && op.Write?
  }

  /** The operations hide what was at `p` before: one of them unlinks it; or the two contents agree wherever none
      writes, and in length unless both end within what is written, and in being there unless one writes. */
  ghost predicate Hides(a: Option<Bytes>, b: Option<Bytes>, ops: seq<WalOp>, r: Bytes, p: Path) {
    || (exists k :: 0 <= k < |ops| && Unlinks(ops[k], r, p))
    || (&& (a.Some? == b.Some? || exists k :: 0 <= k < |ops| && WritesAt(ops[k], r, p))
        && (|Content(a)| == |Content(b)| || Max(|Content(a)|, |Content(b)|) <= WriteEnd(ops, r, p))
        && (forall i: nat :: Unwritten(ops, r, p, i) ==> At(Content(a), i) == At(Content(b), i)))
  }

  lemma {:induction false} UnwrittenIs(ops: seq<WalOp>, r: Bytes, p: Path, i: nat)
    ensures Unwritten(ops, r, p, i) <==> LastByte(ops, r, p, i).None?
  {
    if ops != [] {
      UnwrittenIs(ops[1..], r, p, i);
      assert ops == [ops[0]] + ops[1..];
      assert forall k :: 0 <= k < |ops[1..]| ==> ops[1..][k] == ops[k + 1];
    }
  }

  lemma {:induction false} ThereAfter(cur: Option<Bytes>, ops: seq<WalOp>, r: Bytes, p: Path)
    requires forall k :: 0 <= k < |ops| ==> !Unlinks(ops[k], r, p)
    ensures After(cur, ops, r, p).Some? <==> cur.Some? || exists k :: 0 <= k < |ops| && WritesAt(ops[k], r, p)
    decreases |ops|
  {
    if ops != [] {
      assert !Unlinks(ops[0], r, p);
      ThereAfter(Step(cur, ops[0], r, p), ops[1..], r, p);
      if k :| 0 <= k < |ops| && WritesAt(ops[k], r, p) {
        if k > 0 {
          assert WritesAt(ops[1..][k - 1], r, p);
        }
      }
      if k :| 0 <= k < |ops[1..]| && WritesAt(ops[1..][k], r, p) {
        assert WritesAt(ops[k + 1], r, p);
      }
    }
  }

  /** Two contents read the same after the operations exactly when the operations hide their difference. */
  lemma {:induction false} HidesExact(a: Option<Bytes>, b: Option<Bytes>, ops: seq<WalOp>, r: Bytes, p: Path)
    ensures After(a, ops, r, p) == After(b, ops, r, p) <==> Hides(a, b, ops, r, p)
  {
    hide After, LastByte, WriteEnd, Unwritten;
    if k :| 0 <= k < |ops| && Unlinks(ops[k], r, p) {
      AfterUnlink(a, b, ops, k, r, p);
    } else {
      var x, y := After(a, ops, r, p), After(b, ops, r, p);
      ThereAfter(a, ops, r, p);
      ThereAfter(b, ops, r, p);
      AfterBytes(a, ops, r, p, 0);
      AfterBytes(b, ops, r, p, 0);
      forall i: nat
        ensures At(Content(x), i) == At(Content(y), i) <==>
                (Unwritten(ops, r, p, i) ==> At(Content(a), i) == At(Content(b), i))
      {
        UnwrittenIs(ops, r, p, i);
        AfterBytes(a, ops, r, p, i);
        AfterBytes(b, ops, r, p, i);
      }
      if Hides(a, b, ops, r, p) {
        SameBytes(Content(x), Content(y));
      }
    }
  }

  // ── A write that bypasses the log ──

  /** The tree that holds the log's operations and then an unlogged write still reads the same after the
      log has been replayed over it. */
  ghost predicate SurvivesReplay(cur: Option<Bytes>, log: seq<WalOp>, w: WalOp, r: Bytes, p: Path) {
    var tree := Step(After(cur, log, r, p), w, r, p);
    After(tree, log, r, p) == tree
  }

  /** A logged operation that leaves bytes `off` to `off + n` of the path alone. */
  predicate Apart(op: WalOp, r: Bytes, p: Path, off: nat, n: nat) {
    Touches(op, r, p) ==> op.Write? && (op.data == [] || op.offset + |op.data| <= off || off + n <= op.offset)
  }

  /** A write too large for the log, made durable by a commit, survives the next mount whatever its data if
      and only if no record still in the log unlinks its path or writes into its range. */
  lemma {:induction false} UnloggedExact(cur: Option<Bytes>, log: seq<WalOp>, r: Bytes, p: Path, off: nat, n: nat,
                                         mtime: nat)
    requires n > 0
    ensures (forall y: Bytes :: |y| == n ==> SurvivesReplay(cur, log, Write(r, p, off, mtime, y), r, p)) <==>
            (forall k :: 0 <= k < |log| ==> Apart(log[k], r, p, off, n))
  {
    if k :| 0 <= k < |log| && !Apart(log[k], r, p, off, n) {
      UnloggedLost(cur, log, r, p, off, n, mtime, k);
    } else {
      forall y: Bytes | |y| == n
        ensures SurvivesReplay(cur, log, Write(r, p, off, mtime, y), r, p)
      {
        UnloggedKept(cur, log, Write(r, p, off, mtime, y), r, p);
      }
    }
  }

  lemma {:induction false} UnloggedKept(cur: Option<Bytes>, log: seq<WalOp>, w: WalOp, r: Bytes, p: Path)
    requires w.Write? && Touches(w, r, p)
    requires forall k :: 0 <= k < |log| ==> Apart(log[k], r, p, w.offset, |w.data|)
    ensures SurvivesReplay(cur, log, w, r, p)
  {
    var x := After(cur, log, r, p);
    var tree := Step(x, w, r, p);
    var again := After(tree, log, r, p);
    assert forall k :: 0 <= k < |log| ==> Apart(log[k], r, p, w.offset, |w.data|) ==> !Unlinks(log[k], r, p);
    AfterBytes(cur, log, r, p, 0);
    AfterBytes(tree, log, r, p, 0);
    forall i: nat
      ensures At(again.value, i) == At(tree.value, i)
    {
      AfterBytes(cur, log, r, p, i);
      AfterBytes(tree, log, r, p, i);
      if w.offset <= i < w.offset + |w.data| {
        NeverWritten(log, r, p, i, w.offset, |w.data|);
      }
    }
    SameBytes(tree.value, again.value);
  }

  lemma {:induction false} NeverWritten(log: seq<WalOp>, r: Bytes, p: Path, i: nat, off: nat, n: nat)
    requires off <= i < off + n && forall k :: 0 <= k < |log| ==> Apart(log[k], r, p, off, n)
    ensures LastByte(log, r, p, i).None?
  {
    if log != [] {
      assert Apart(log[0], r, p, off, n);
      NeverWritten(log[1..], r, p, i, off, n);
    }
  }

  lemma {:induction false} WrittenOnce(log: seq<WalOp>, r: Bytes, p: Path, i: nat, k: nat)
    requires k < |log| && Writes(log[k], r, p, i)
    ensures LastByte(log, r, p, i).Some?
  {
    if k > 0 {
      WrittenOnce(log[1..], r, p, i, k - 1);
    }
  }

  /** The record decides what is read after replay, so of two different writes one is lost. */
  lemma {:induction false} UnloggedLost(cur: Option<Bytes>, log: seq<WalOp>, r: Bytes, p: Path, off: nat, n: nat,
                                        mtime: nat, k: nat)
    requires n > 0 && k < |log| && !Apart(log[k], r, p, off, n)
    ensures exists y: Bytes :: |y| == n && !SurvivesReplay(cur, log, Write(r, p, off, mtime, y), r, p)
  {
    var x := After(cur, log, r, p);
    var y0: Bytes, y1: Bytes := seq(n, _ => 0), seq(n, _ => 1);
    var t0, t1 := Step(x, Write(r, p, off, mtime, y0), r, p), Step(x, Write(r, p, off, mtime, y1), r, p);
    var i := if log[k].Write? then Max(off, log[k].offset) else off;
    assert At(t0.value, i) == 0 && At(t1.value, i) == 1;
    assert At(Content(After(t0, log, r, p)), i) == At(Content(After(t1, log, r, p)), i) by {
      if u :| 0 <= u < |log| && Unlinks(log[u], r, p) {
        AfterUnlink(t0, t1, log, u, r, p);
      } else {
        WrittenOnce(log, r, p, i, k);
        AfterBytes(t0, log, r, p, i);
        AfterBytes(t1, log, r, p, i);
      }
    }
    assert !SurvivesReplay(cur, log, Write(r, p, off, mtime, y0), r, p) ||
           !SurvivesReplay(cur, log, Write(r, p, off, mtime, y1), r, p);
  }

  // ── A ref created again ──

  /** Record `k` writes the path, and no later one unlinks it. */
  ghost predicate LeftBy(ops: seq<WalOp>, k: nat, r: Bytes, p: Path) {
    k < |ops| && WritesAt(ops[k], r, p) && forall j :: k < j < |ops| ==> !Unlinks(ops[j], r, p)
  }

  ghost predicate Left(ops: seq<WalOp>, r: Bytes, p: Path) {
    exists k: nat :: LeftBy(ops, k, r, p)
  }

  lemma {:induction false} SomeAfter(cur: Option<Bytes>, ops: seq<WalOp>, r: Bytes, p: Path)
    ensures After(cur, ops, r, p).Some? <==>
            Left(ops, r, p) ||
            (cur.Some? && forall j :: 0 <= j < |ops| ==> !Unlinks(ops[j], r, p))
    decreases |ops|
  {
    if ops != [] {
      var rest := ops[1..];
      SomeAfter(Step(cur, ops[0], r, p), rest, r, p);
      assert forall j :: 0 <= j < |rest| ==> rest[j] == ops[j + 1];
      if k: nat :| LeftBy(rest, k, r, p) {
        assert LeftBy(ops, k + 1, r, p) by {
          assert forall j :: k + 1 < j < |ops| ==> ops[j] == rest[j - 1];
        }
      }
      if k: nat :| LeftBy(ops, k, r, p) {
        if k > 0 {
          assert LeftBy(rest, k - 1, r, p);
        } else {
          assert forall j :: 0 <= j < |rest| ==> !Unlinks(rest[j], r, p);
        }
      }
      if WritesAt(ops[0], r, p) && forall j :: 0 <= j < |rest| ==> !Unlinks(rest[j], r, p) {
        assert LeftBy(ops, 0, r, p) by {
          assert forall j :: 0 < j < |ops| ==> ops[j] == rest[j - 1];
        }
      }
      if forall j :: 0 <= j < |ops| ==> !Unlinks(ops[j], r, p) {
        assert !Unlinks(ops[0], r, p);
        assert forall j :: 0 <= j < |rest| ==> !Unlinks(rest[j], r, p);
      } else if cur.Some? && !Unlinks(ops[0], r, p) {
        var j :| 0 <= j < |ops| && Unlinks(ops[j], r, p);
        assert Unlinks(rest[j - 1], r, p);
      }
    }
  }

  /** Creating a ref that exists gives it an empty tree but leaves its records in the log, and its overlay. What is
      read then, and after the next mount, is the records over nothing: the ref is empty if and only if every path
      one of them writes is unlinked by a later one. */
  lemma {:induction false} ResetExact(ops: seq<WalOp>, r: Bytes)
    ensures (forall p :: After(None, ops, r, p) == None) <==> (forall p :: !Left(ops, r, p))
  {
    hide Left;
    forall p
      ensures After(None, ops, r, p).Some? <==> Left(ops, r, p)
    {
      SomeAfter(None, ops, r, p);
    }
    if p :| Left(ops, r, p) {
      assert After(None, ops, r, p).Some?;
    }
    if p :| After(None, ops, r, p) != None {
      assert Left(ops, r, p);
    }
  }

  /** A single write comes back. */
  lemma {:induction false} ResetExample(r: Bytes, p: Path)
    ensures After(None, [Write(r, p, 0, 0, [1])], r, p) == Some([1])
  {
    var log := [Write(r, p, 0, 0, [1])];
    assert After(None, log, r, p) == After(Step(None, log[0], r, p), log[1..], r, p);
    assert Splice([], 0, [1]) == [1];
  }
}
