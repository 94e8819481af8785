/** What the scheduler's accounts hold: for each ref, how many operations it has taken since its last flush, and the
    time of the first of them. */
module Accounts {
  import opened Cells
  import opened WalCodec
  import opened Scheduler

  /** How many operations of the history ref `r`'s tree is known to hold. */
  function DoneOf(done: map<Bytes, nat>, r: Bytes): nat {
    if r in done then done[r] else 0
  }

  /** How many of the operations are the ref's. */
  function OpsOn(ops: seq<WalOp>, r: Bytes): nat {
    if ops == [] then 0
    else OpsOn(ops[..|ops| - 1], r) + if ops[|ops| - 1].ref == r then 1 else 0
  }

  /** The time of the first of them. */
  function FirstTime(ops: seq<WalOp>, r: Bytes): Option<nat> {
    if ops == [] then None
    else
      var t, op := FirstTime(ops[..|ops| - 1], r), ops[|ops| - 1];
      if t.Some? then t else if op.ref == r then Some(op.mtime) else None
  }

  function OpsIn(acct: map<Bytes, Acct>, r: Bytes): nat {
    if r in acct then acct[r].ops else 0
  }

  function TimeIn(acct: map<Bytes, Acct>, r: Bytes): Option<nat> {
    if r in acct then Some(acct[r].oldest) else None
  }

  /** The account of `r` is that of `ops`. */
  ghost predicate Accounted(acct: map<Bytes, Acct>, ops: seq<WalOp>, r: Bytes) {
    OpsIn(acct, r) == OpsOn(ops, r) && TimeIn(acct, r) == FirstTime(ops, r)
  }

  /** Every account is that of the ref's operations since its last flush. */
  ghost predicate AcctInv(acct: map<Bytes, Acct>, hist: seq<WalOp>, done: map<Bytes, nat>) {
    forall r :: AcctAt(acct, hist, done, r)
  }

  ghost predicate AcctAt(acct: map<Bytes, Acct>, hist: seq<WalOp>, done: map<Bytes, nat>, r: Bytes) {
    DoneOf(done, r) <= |hist| && Accounted(acct, hist[DoneOf(done, r)..], r)
  }

  /** Operation `i` is the first of ref `r` from `f` on. */
  ghost predicate FirstSince(hist: seq<WalOp>, f: nat, r: Bytes, i: nat) {
    f <= i < |hist| && hist[i].ref == r && forall j :: f <= j < i ==> hist[j].ref != r
  }

  /** The first operation of the ref since its last flush lies more than `bound` before the clock. */
  ghost predicate Overdue(hist: seq<WalOp>, done: map<Bytes, nat>, r: Bytes, now: nat, bound: nat) {
    exists i: nat :: FirstSince(hist, DoneOf(done, r), r, i) && now > hist[i].mtime && now - hist[i].mtime > bound
  }

  lemma {:induction false} CountMore(ops: seq<WalOp>, op: WalOp, r: Bytes)
    ensures OpsOn(ops + [op], r) == OpsOn(ops, r) + if op.ref == r then 1 else 0
    ensures FirstTime(ops + [op], r) ==
            if FirstTime(ops, r).Some? then FirstTime(ops, r) else if op.ref == r then Some(op.mtime) else None
  {
    assert (ops + [op])[..|ops|] == ops;
  }

  lemma {:induction false} NoneOn(r: Bytes)
    ensures OpsOn([], r) == 0 && FirstTime([], r) == None
  {
  }

  lemma {:induction false} AccountMore(acct: map<Bytes, Acct>, ops: seq<WalOp>, op: WalOp, r: Bytes)
    requires Accounted(acct, ops, r)
    ensures Accounted(Account(acct, op), ops + [op], r)
  {
    hide OpsOn, FirstTime;
    CountMore(ops, op, r);
  }

  lemma {:induction false} AcctAppend(acct: map<Bytes, Acct>, hist: seq<WalOp>, done: map<Bytes, nat>, op: WalOp)
    requires AcctInv(acct, hist, done)
    ensures AcctInv(Account(acct, op), hist + [op], done)
  {
    hide Accounted, Account;
    forall r
      ensures AcctAt(Account(acct, op), hist + [op], done, r)
    {
      var f := DoneOf(done, r);
      assert AcctAt(acct, hist, done, r);
      assert (hist + [op])[f..] == hist[f..] + [op];
      AccountMore(acct, hist[f..], op, r);
    }
  }

  lemma {:induction false} AcctFlush(acct: map<Bytes, Acct>, hist: seq<WalOp>, done: map<Bytes, nat>, r: Bytes)
    requires AcctInv(acct, hist, done)
    ensures AcctInv(acct - {r}, hist, done[r := |hist|])
  {
    hide OpsOn, FirstTime;
    var rest, flushed := acct - {r}, done[r := |hist|];
    forall x
      ensures AcctAt(rest, hist, flushed, x)
    {
      assert AcctAt(acct, hist, done, x);
      if x == r {
        assert hist[|hist|..] == [];
        NoneOn(r);
      }
    }
  }

  /** A ref that is not accounted for can be taken as flushed. */
  lemma {:induction false} AcctNew(acct: map<Bytes, Acct>, hist: seq<WalOp>, done: map<Bytes, nat>, r: Bytes)
    requires AcctInv(acct, hist, done) && r !in acct
    ensures AcctInv(acct, hist, done[r := |hist|])
  {
    AcctFlush(acct, hist, done, r);
    assert acct - {r} == acct;
  }

  lemma {:induction false} FirstTimeAt(ops: seq<WalOp>, r: Bytes, i: nat)
    requires i < |ops| && ops[i].ref == r && forall j :: 0 <= j < i ==> ops[j].ref != r
    ensures FirstTime(ops, r) == Some(ops[i].mtime)
    decreases |ops|
  {
    var pre := ops[..|ops| - 1];
    if i < |pre| {
      FirstTimeAt(pre, r, i);
    } else {
      NoneBefore(pre, r);
    }
  }

  lemma {:induction false} NoneBefore(ops: seq<WalOp>, r: Bytes)
    requires forall j :: 0 <= j < |ops| ==> ops[j].ref != r
    ensures OpsOn(ops, r) == 0 && FirstTime(ops, r) == None
    decreases |ops|
  {
    if ops != [] {
      NoneBefore(ops[..|ops| - 1], r);
    }
  }

  lemma {:induction false} FirstExists(ops: seq<WalOp>, r: Bytes) returns (i: nat)
    requires FirstTime(ops, r).Some?
    ensures i < |ops| && ops[i].ref == r && (forall j :: 0 <= j < i ==> ops[j].ref != r)
    ensures FirstTime(ops, r) == Some(ops[i].mtime)
  {
    i := 0;
    while i < |ops| && ops[i].ref != r
      invariant 0 <= i <= |ops| && forall j :: 0 <= j < i ==> ops[j].ref != r
    {
      i := i + 1;
    }
    if i == |ops| {
      NoneBefore(ops, r);
    } else {
      FirstTimeAt(ops, r, i);
    }
  }

  /** The ref has taken at most `bound` operations since its last flush. */
  ghost predicate FewOps(hist: seq<WalOp>, done: map<Bytes, nat>, r: Bytes, bound: nat) {
    DoneOf(done, r) <= |hist| && OpsOn(hist[DoneOf(done, r)..], r) <= bound
  }

  /** An account is within a bound exactly when the ref's operations since its last flush are. */
  lemma {:induction false} FewIs(acct: map<Bytes, Acct>, hist: seq<WalOp>, done: map<Bytes, nat>, r: Bytes, bound: nat)
    requires AcctInv(acct, hist, done)
    ensures FewOps(hist, done, r, bound) <==> (r in acct ==> acct[r].ops <= bound)
  {
    hide OpsOn, FirstTime;
    assert AcctAt(acct, hist, done, r);
  }

  /** An account is stale exactly when the ref's first operation since its last flush is overdue. */
  lemma {:induction false} StaleIs(acct: map<Bytes, Acct>, hist: seq<WalOp>, done: map<Bytes, nat>, r: Bytes, now: nat,
                                   bound: nat)
    requires AcctInv(acct, hist, done)
    ensures Overdue(hist, done, r, now, bound) <==> r in acct && Stale(acct[r], now, bound)
  {
    hide OpsOn, FirstTime;
    var f := DoneOf(done, r);
    assert AcctAt(acct, hist, done, r);
    if i: nat :| FirstSince(hist, f, r, i) && now > hist[i].mtime && now - hist[i].mtime > bound {
      FirstTimeAt(hist[f..], r, i - f);
    }
    if r in acct && Stale(acct[r], now, bound) {
      var i := FirstExists(hist[f..], r);
      assert FirstSince(hist, f, r, f + i);
    }
  }
}
