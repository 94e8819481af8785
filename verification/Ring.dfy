/** The circular write-ahead log. Everything is stated on the ring as seen from the tail: the free
    space comes first, the live records last. */
module Ring {
  import opened Cells
  import opened WalCodec
  import opened WalLog

  /** Ring offsets stay below twice the length, so wrapping once is the source's `%`. */
  function Wrap(x: nat, len: nat): nat {
    if x < len then x else x - len
  }

  function Rot(w: seq<Cell>, h: nat): (r: seq<Cell>)
    requires h <= |w|
    ensures |r| == |w|
    ensures forall i :: 0 <= i < |w| ==> r[i] == w[Wrap(h + i, |w|)]
  {
    w[h..] + w[..h]
  }

  /** Bytes in use: the live span, or the whole ring when the tail is back on the head. */
  function Usage(empty: bool, head: nat, tail: nat, len: nat): nat
    requires head <= len && tail <= len
  {
    if empty then 0 else
    var raw := Wrap(tail + len - head, len);
    if raw == 0 then len else raw
  }

  predicate TailAt(head: nat, tail: nat, n: nat, len: nat) {
    if n == 0 then head == 0 && tail == 0
    else head < len && n <= len && tail == Wrap(head + n, len)
  }

  /** The live records, from the head, are the last `n` cells seen from the tail. */
  lemma {:induction false} FromHead(w: seq<Cell>, head: nat, tail: nat, n: nat)
    requires TailAt(head, tail, n, |w|)
    ensures var u := Rot(w, tail); Rot(w, head) == u[|w| - n..] + u[..|w| - n]
  {
  }

  /** `wal_usage` is the total length of the live records. */
  lemma {:induction false} UsageIsLogLen(head: nat, tail: nat, ops: seq<WalOp>, len: nat)
    requires TailAt(head, tail, LogLen(ops), len)
    ensures Usage(ops == [], head, tail, len) == LogLen(ops)
  {
  }

  // ── Invariant ──

  /** A record attempted at the tail that sits there whole. */
  ghost predicate Complete(u: seq<Cell>, seqno: nat, op: WalOp) {
    EncodeRecord(op, seqno) <= u
  }

  /** No checksum belongs to a future record. Checksums under the next sequence number are those of
      records attempted here and lost to a crash, or lie where no record will be looked for. */
  ghost predicate Spent(u: seq<Cell>, tail: nat, seqno: nat, attempted: set<WalOp>) {
    forall j :: 0 <= j < |u| && u[j].Dig? && u[j].i == 0 && SeqOf(u[j].h) >= seqno ==>
      && SeqOf(u[j].h) == seqno
      && ((j == 16 && exists op :: op in attempted && u[j].h == Of(Summed(op, seqno))) || (tail == 0 && j != 16))
  }

  /** The live records are the last cells seen from the tail. */
  ghost predicate Live(u: seq<Cell>, ops: seq<WalOp>, nextSeq: nat) {
    LogLen(ops) <= |u| && u[|u| - LogLen(ops)..] == EncodeLog(ops, nextSeq)
  }

  /** The attempted records fitted the free space, and none of them is there whole. */
  ghost predicate Lost(u: seq<Cell>, room: int, seqno: nat, attempted: set<WalOp>) {
    forall op :: op in attempted ==> Loggable(op) && RecLen(op) <= room && !Complete(u, seqno, op)
  }

  /** The ring seen from the tail holds the records of `hist` from sequence number `nextSeq` on.
      Record `i` of the history carries sequence number `i + 1`. `attempted` are the records that
      were in flight here when a crash came. */
  ghost predicate RingView(u: seq<Cell>, tail: nat, nextSeq: nat, hist: seq<WalOp>, attempted: set<WalOp>) {
    && 1 <= nextSeq <= |hist| + 1 < U64
    && AllLoggable(hist)
    && Live(u, hist[nextSeq - 1..], nextSeq)
    && Spent(u, tail, |hist| + 1, attempted)
    && Lost(u, |u| - LogLen(hist[nextSeq - 1..]), |hist| + 1, attempted)
  }

  /** The same of the ring as it lies on disk, with the oldest live record at `head` and the next
      record due at `tail`. */
  ghost predicate RingInv(w: seq<Cell>, head: nat, nextSeq: nat, tail: nat, hist: seq<WalOp>, attempted: set<WalOp>) {
    && 1 <= nextSeq <= |hist| + 1
    && tail <= |w| && TailAt(head, tail, LogLen(hist[nextSeq - 1..]), |w|)
    && RingView(Rot(w, tail), tail, nextSeq, hist, attempted)
  }

  lemma {:induction false} LogLenSnoc(ops: seq<WalOp>, op: WalOp, seqno: nat)
    ensures LogLen(ops + [op]) == LogLen(ops) + RecLen(op)
    ensures EncodeLog(ops + [op], seqno) == EncodeLog(ops, seqno) + EncodeRecord(op, seqno + |ops|)
  {
    hide EncodeRecord, RecLen;
    if ops == [] {
      assert ops + [op] == [op];
      assert EncodeLog([op], seqno) == EncodeRecord(op, seqno) + EncodeLog([], seqno + 1);
    } else {
      assert (ops + [op])[1..] == ops[1..] + [op];
      LogLenSnoc(ops[1..], op, seqno + 1);
    }
  }

  lemma {:induction false} LogSplit(ops: seq<WalOp>, k: nat, seqno: nat)
    requires k <= |ops|
    ensures LogLen(ops) == LogLen(ops[..k]) + LogLen(ops[k..])
    ensures EncodeLog(ops, seqno)[LogLen(ops[..k])..] == EncodeLog(ops[k..], seqno + k)
  {
    hide EncodeRecord, RecLen;
    if k > 0 {
      LogSplit(ops[1..], k - 1, seqno + 1);
      assert ops[..k][1..] == ops[1..][..k - 1] && ops[1..][k - 1..] == ops[k..];
      var e := EncodeLog(ops, seqno);
      assert e[RecLen(ops[0])..] == EncodeLog(ops[1..], seqno + 1);
      assert e[LogLen(ops[..k])..] == e[RecLen(ops[0])..][LogLen(ops[1..][..k - 1])..];
    } else {
      assert ops[k..] == ops;
    }
  }

  /** Record `i` of an honest log sits behind the records before it. */
  lemma {:induction false} RecsAt(ops: seq<WalOp>, off: nat, seqno: nat, i: nat)
    requires i < |ops|
    ensures Recs(ops, off, seqno)[i] == Rec(seqno + i, off + LogLen(ops[..i]), ops[i], RecLen(ops[i]))
    decreases i
  {
    hide RecLen;
    if i > 0 {
      RecsAt(ops[1..], off + RecLen(ops[0]), seqno + 1, i - 1);
      assert ops[..i][1..] == ops[1..][..i - 1];
    }
  }

  /** Recovery, from the rotated ring, finds exactly the live records. */
  lemma {:induction false} RingMount(w: seq<Cell>, head: nat, nextSeq: nat, tail: nat, hist: seq<WalOp>,
                                     attempted: set<WalOp>)
    requires RingInv(w, head, nextSeq, tail, hist, attempted)
    ensures Walk(Rot(w, head), 0, nextSeq) == Recs(hist[nextSeq - 1..], 0, nextSeq)
  {
    hide Live, Spent, Lost, LogLen, Walk, Recs, Rot;
    var ops := hist[nextSeq - 1..];
    FromHead(w, head, tail, LogLen(ops));
    MountWalk(Rot(w, head), Rot(w, tail), ops, nextSeq, tail, attempted);
  }

  lemma {:induction false} MountWalk(c: seq<Cell>, u: seq<Cell>, ops: seq<WalOp>, nextSeq: nat, tail: nat,
                                     attempted: set<WalOp>)
    requires Live(u, ops, nextSeq) && AllLoggable(ops) && nextSeq + |ops| < U64
    requires c == u[|u| - LogLen(ops)..] + u[..|u| - LogLen(ops)]
    requires Spent(u, tail, nextSeq + |ops|, attempted)
    requires Lost(u, |u| - LogLen(ops), nextSeq + |ops|, attempted)
    ensures Walk(c, 0, nextSeq) == Recs(ops, 0, nextSeq)
  {
    hide Walk, Recs, EncodeLog, Loggable, Spent, Complete, RecLen;
    var n := LogLen(ops);
    hide LogLen;
    assert c[0..n] == EncodeLog(ops, nextSeq);
    assert c[n..] == u[..|u| - n];
    WalkLog(c, 0, ops, nextSeq);
    NothingBehind(c, n, u, tail, nextSeq + |ops|, attempted);
    assert Recs(ops, 0, nextSeq) + [] == Recs(ops, 0, nextSeq);
  }

  lemma {:induction false} NothingBehind(c: seq<Cell>, n: nat, u: seq<Cell>, tail: nat, s: nat, attempted: set<WalOp>)
    requires n <= |c| == |u| && s < U64 && c[n..] == u[..|u| - n] && Spent(u, tail, s, attempted)
    requires forall op :: op in attempted ==> Loggable(op) && !Complete(u, s, op)
    ensures Walk(c, n, s) == []
  {
    hide Walk, EncodeRecord, Loggable, Summed, SeqOf, DecodeRecord;
    if Walk(c, n, s) != [] {
      TailAccepts(c, n, s);
      assert c[n + 16] == c[n..][16] == u[16];
      var op :| op in attempted && u[16].h == Of(Summed(op, s));
      AcceptedCells(c[n..], op, s);
    }
  }

  lemma {:induction false} TailAccepts(c: seq<Cell>, n: nat, s: nat)
    requires Walk(c, n, s) != []
    ensures n + 16 < |c| && DecodeRecord(c[n..]).Some?
    ensures c[n + 16].Dig? && c[n + 16].i == 0 && SeqOf(c[n + 16].h) == s
  {
    hide DecodeRecord, SeqOf;
    AcceptedSeq(c[n..]);
    assert c[n..][16] == c[n + 16];
  }

  // ── A record in flight ──

  /** Each cell is as before, or as the record set it. */
  ghost predicate Mixed(u: seq<Cell>, u': seq<Cell>, rec: seq<Cell>) {
    && |u'| == |u| && |rec| <= |u|
    && forall j :: 0 <= j < |u| ==> u'[j] == u[j] || (j < |rec| && u'[j] == rec[j])
  }

  /** Tearing the next record touches no live record. */
  lemma {:induction false} TornLive(u: seq<Cell>, u': seq<Cell>, ops: seq<WalOp>, nextSeq: nat, rec: seq<Cell>)
    requires Live(u, ops, nextSeq) && Mixed(u, u', rec) && LogLen(ops) + |rec| <= |u|
    ensures Live(u', ops, nextSeq)
  {
    hide LogLen, EncodeLog;
    assert u'[|u| - LogLen(ops)..] == u[|u| - LogLen(ops)..];
  }

  /** It leaves no checksum behind but its own and older ones. */
  lemma {:induction false} TornSpent(u: seq<Cell>, u': seq<Cell>, tail: nat, s: nat, attempted: set<WalOp>, op: WalOp)
    requires Spent(u, tail, s, attempted) && s < U64 && Mixed(u, u', EncodeRecord(op, s))
    ensures Spent(u', tail, s, attempted + {op})
  {
    hide Summed, SeqOf, EncodeRecord, RecLen;
    RecordDigests(op, s);
    forall j | 0 <= j < |u'| && u'[j].Dig? && u'[j].i == 0 && SeqOf(u'[j].h) >= s
      ensures SeqOf(u'[j].h) == s
      ensures (j == 16 && exists o :: o in attempted + {op} && u'[j].h == Of(Summed(o, s))) || (tail == 0 && j != 16)
    {
      if u'[j] == u[j] {
        if j == 16 {
          var o :| o in attempted && u[j].h == Of(Summed(o, s));
          assert o in attempted + {op};
        }
      } else {
        assert op in attempted + {op};
      }
    }
  }

  /** The only checksum cell numbered 0 in a record is at 16, and it is the record's. */
  lemma {:induction false} RecordDigests(op: WalOp, s: nat)
    requires s < U64
    ensures forall j :: 0 <= j < RecLen(op) && EncodeRecord(op, s)[j].Dig? && EncodeRecord(op, s)[j].i == 0 ==>
      j == 16 && EncodeRecord(op, s)[j].h == Of(Summed(op, s)) && SeqOf(EncodeRecord(op, s)[j].h) == s
  {
    hide EncodePayload, Summed, SeqOf, Le;
    SeqOfSummed(op, s);
    var e := EncodeRecord(op, s);
    var p := EncodePayload(op);
    assert forall j :: 0 <= j < 16 ==> e[j].Raw?;
    assert forall j :: WAL_HEADER <= j < |e| ==> e[j].Raw?;
    assert forall j :: 16 <= j < WAL_HEADER ==> e[j] == HashCells(Of(Summed(op, s)))[j - 16];
  }

  lemma {:induction false} RotShift(w: seq<Cell>, t: nat, k: nat)
    requires t <= |w| && k <= |w| && (t < |w| || k == 0)
    ensures Wrap(t + k, |w|) <= |w|
    ensures var u := Rot(w, t); Rot(w, Wrap(t + k, |w|)) == u[k..] + u[..k]
  {
  }

  lemma {:induction false} TailAdd(head: nat, tail: nat, n: nat, k: nat, len: nat)
    requires TailAt(head, tail, n, len) && 0 < k && n + k <= len
    ensures TailAt(head, Wrap(tail + k, len), n + k, len) && tail < len
  {
  }

  lemma {:induction false} TailDrop(head: nat, tail: nat, n: nat, m: nat, len: nat)
    requires TailAt(head, tail, n, len) && m < n
    ensures TailAt(Wrap(head + m, len), tail, n - m, len)
  {
  }

  lemma {:induction false} ShiftLive(u: seq<Cell>, ops: seq<WalOp>, nextSeq: nat, x: WalOp)
    requires Live(u, ops, nextSeq) && Complete(u, nextSeq + |ops|, x) && LogLen(ops) + RecLen(x) <= |u|
    ensures Live(u[RecLen(x)..] + u[..RecLen(x)], ops + [x], nextSeq)
  {
    hide LogLen, EncodeLog, EncodeRecord, RecLen;
    LogLenSnoc(ops, x, nextSeq);
    var n, k := LogLen(ops), RecLen(x);
    var u2 := u[k..] + u[..k];
    assert u[..k] == EncodeRecord(x, nextSeq + |ops|);
    assert u2[|u| - n - k..] == u[|u| - n..] + u[..k];
  }

  lemma {:induction false} ShiftSpent(u: seq<Cell>, tail: nat, tail': nat, s: nat, k: nat, attempted: set<WalOp>)
    requires k <= |u| && Spent(u, tail, s, attempted)
    ensures Spent(u[k..] + u[..k], tail', s + 1, {})
  {
    hide SeqOf, Summed;
    var u2 := u[k..] + u[..k];
    forall j | 0 <= j < |u2| && u2[j].Dig? && u2[j].i == 0
      ensures SeqOf(u2[j].h) < s + 1
    {
      assert u2[j] == u[if j < |u| - k then j + k else j - (|u| - k)];
    }
  }

  /** A record that sits whole at the tail is the next record of the log. */
  lemma {:induction false} ViewAccept(u: seq<Cell>, tail: nat, tail': nat, nextSeq: nat, hist: seq<WalOp>,
                                      attempted: set<WalOp>, x: WalOp)
    requires 1 <= nextSeq <= |hist| + 1 && |hist| + 2 < U64 && AllLoggable(hist) && Loggable(x)
    requires var ops := hist[nextSeq - 1..];
             && LogLen(ops) + RecLen(x) <= |u| && Live(u, ops, nextSeq)
             && Spent(u, tail, |hist| + 1, attempted) && Complete(u, |hist| + 1, x)
    ensures RingView(u[RecLen(x)..] + u[..RecLen(x)], tail', nextSeq, hist + [x], {})
  {
    hide LogLen, RecLen, Live, Spent, Complete, Loggable;
    var ops := hist[nextSeq - 1..];
    assert (hist + [x])[nextSeq - 1..] == ops + [x];
    ShiftLive(u, ops, nextSeq, x);
    ShiftSpent(u, tail, tail', |hist| + 1, RecLen(x), attempted);
  }

  lemma {:induction false} RingAccept(w: seq<Cell>, head: nat, nextSeq: nat, tail: nat, hist: seq<WalOp>,
                                      attempted: set<WalOp>, x: WalOp)
    requires 1 <= nextSeq <= |hist| + 1 && |hist| + 2 < U64 && AllLoggable(hist) && Loggable(x) && tail <= |w|
    requires var ops, u := hist[nextSeq - 1..], Rot(w, tail);
             && TailAt(head, tail, LogLen(ops), |w|) && LogLen(ops) + RecLen(x) <= |w| && Live(u, ops, nextSeq)
             && Spent(u, tail, |hist| + 1, attempted) && Complete(u, |hist| + 1, x)
    ensures RingInv(w, head, nextSeq, Wrap(tail + RecLen(x), |w|), hist + [x], {})
  {
    hide LogLen, EncodeLog, Live, Spent, Complete, Loggable, Rot, RingView, AllLoggable, TailAt;
    var ops, k := hist[nextSeq - 1..], RecLen(x);
    assert (hist + [x])[nextSeq - 1..] == ops + [x];
    LogLenSnoc(ops, x, nextSeq);
    TailAdd(head, tail, LogLen(ops), k, |w|);
    RotShift(w, tail, k);
    ViewAccept(Rot(w, tail), tail, Wrap(tail + k, |w|), nextSeq, hist, attempted, x);
  }

  /** A crash while `op` is being appended: the ring holds the log as it was, or one whole record
      more, and that record is `op` or one that was lost here before. */
  lemma {:induction false} RingTorn(w: seq<Cell>, w': seq<Cell>, head: nat, nextSeq: nat, tail: nat, hist: seq<WalOp>,
                                    attempted: set<WalOp>, op: WalOp)
    requires RingInv(w, head, nextSeq, tail, hist, attempted) && |w'| == |w| && Loggable(op) && |hist| + 2 < U64
    requires LogLen(hist[nextSeq - 1..]) + RecLen(op) <= |w|
    requires Mixed(Rot(w, tail), Rot(w', tail), EncodeRecord(op, |hist| + 1))
    ensures RingInv(w', head, nextSeq, tail, hist, attempted + {op})
            || exists x :: x in attempted + {op}
                           && RingInv(w', head, nextSeq, Wrap(tail + RecLen(x), |w|), hist + [x], {})
  {
    hide LogLen, EncodeLog, Loggable, Live, Spent, Mixed, Complete, Rot, EncodeRecord, TailAt, AllLoggable, RecLen;
    var ops, s := hist[nextSeq - 1..], |hist| + 1;
    TornLive(Rot(w, tail), Rot(w', tail), ops, nextSeq, EncodeRecord(op, s));
    TornSpent(Rot(w, tail), Rot(w', tail), tail, s, attempted, op);
    if x :| x in attempted + {op} && Complete(Rot(w', tail), s, x) {
      RingAccept(w', head, nextSeq, tail, hist, attempted + {op}, x);
    }
  }

  /** When no record attempted here is there whole, the log is as it was. */
  lemma {:induction false} RingMissed(w: seq<Cell>, w': seq<Cell>, head: nat, nextSeq: nat, tail: nat,
                                      hist: seq<WalOp>, attempted: set<WalOp>, op: WalOp)
    requires RingInv(w, head, nextSeq, tail, hist, attempted) && |w'| == |w| && Loggable(op) && |hist| + 2 < U64
    requires LogLen(hist[nextSeq - 1..]) + RecLen(op) <= |w|
    requires Mixed(Rot(w, tail), Rot(w', tail), EncodeRecord(op, |hist| + 1))
    requires forall x :: x in attempted + {op} ==> !Complete(Rot(w', tail), |hist| + 1, x)
    ensures RingInv(w', head, nextSeq, tail, hist, attempted + {op})
  {
    hide LogLen, EncodeLog, Loggable, Live, Spent, Mixed, Complete, Rot, EncodeRecord, TailAt, AllLoggable, RecLen;
    var ops, s := hist[nextSeq - 1..], |hist| + 1;
    TornLive(Rot(w, tail), Rot(w', tail), ops, nextSeq, EncodeRecord(op, s));
    TornSpent(Rot(w, tail), Rot(w', tail), tail, s, attempted, op);
  }

  /** An acknowledged append. */
  lemma {:induction false} RingAppend(w: seq<Cell>, w': seq<Cell>, head: nat, nextSeq: nat, tail: nat, hist: seq<WalOp>,
                                      attempted: set<WalOp>, op: WalOp)
    requires RingInv(w, head, nextSeq, tail, hist, attempted) && |w'| == |w| && Loggable(op) && |hist| + 2 < U64
    requires LogLen(hist[nextSeq - 1..]) + RecLen(op) <= |w|
    requires Rot(w', tail) == EncodeRecord(op, |hist| + 1) + Rot(w, tail)[RecLen(op)..]
    ensures RingInv(w', head, nextSeq, Wrap(tail + RecLen(op), |w|), hist + [op], {})
  {
    hide LogLen, EncodeLog, Loggable, Live, Spent, Rot, EncodeRecord, TailAt, AllLoggable, RecLen, Lost;
    var ops, s := hist[nextSeq - 1..], |hist| + 1;
    var u, u' := Rot(w, tail), Rot(w', tail);
    WholeIsMixed(u, EncodeRecord(op, s));
    TornLive(u, u', ops, nextSeq, EncodeRecord(op, s));
    TornSpent(u, u', tail, s, attempted, op);
    RingAccept(w', head, nextSeq, tail, hist, attempted + {op}, op);
  }

  lemma {:induction false} WholeIsMixed(u: seq<Cell>, rec: seq<Cell>)
    requires |rec| <= |u|
    ensures Mixed(u, rec + u[|rec|..], rec) && rec <= rec + u[|rec|..]
  {
  }

  // ── The head moves ──

  lemma {:induction false} AdvanceLive(u: seq<Cell>, ops: seq<WalOp>, nextSeq: nat, k: nat)
    requires Live(u, ops, nextSeq) && k <= |ops|
    ensures Live(u, ops[k..], nextSeq + k)
    ensures LogLen(ops) == LogLen(ops[..k]) + LogLen(ops[k..])
  {
    hide LogLen, EncodeLog;
    LogSplit(ops, k, nextSeq);
    var n, m := LogLen(ops), LogLen(ops[..k]);
    assert u[|u| - (n - m)..] == u[|u| - n..][m..];
  }

  lemma {:induction false} ViewAdvance(u: seq<Cell>, tail: nat, nextSeq: nat, hist: seq<WalOp>, attempted: set<WalOp>,
                                       k: nat)
    requires RingView(u, tail, nextSeq, hist, attempted) && nextSeq - 1 + k <= |hist|
    ensures RingView(u, tail, nextSeq + k, hist, attempted)
  {
    hide LogLen, Live, Spent, Loggable, Complete, RecLen;
    var ops := hist[nextSeq - 1..];
    AdvanceLive(u, ops, nextSeq, k);
    assert ops[k..] == hist[nextSeq + k - 1..];
  }

  /** Dropping the first `k` records from the log: their space joins the free space. */
  lemma {:induction false} RingAdvance(w: seq<Cell>, head: nat, nextSeq: nat, tail: nat, hist: seq<WalOp>,
                                       attempted: set<WalOp>, k: nat)
    requires RingInv(w, head, nextSeq, tail, hist, attempted)
    requires nextSeq - 1 + k < |hist|
    ensures var m := LogLen(hist[nextSeq - 1..][..k]);
            RingInv(w, Wrap(head + m, |w|), nextSeq + k, tail, hist, attempted)
  {
    hide LogLen, Live, Spent, Lost, Rot, TailAt;
    var ops := hist[nextSeq - 1..];
    ViewAdvance(Rot(w, tail), tail, nextSeq, hist, attempted, k);
    AdvanceLive(Rot(w, tail), ops, nextSeq, k);
    LogLenPositive(ops[k..]);
    assert ops[k..] == hist[nextSeq + k - 1..];
    TailDrop(head, tail, LogLen(ops), LogLen(ops[..k]), |w|);
  }

  lemma {:induction false} LogLenPositive(ops: seq<WalOp>)
    requires ops != []
    ensures LogLen(ops) > 0
  {
  }

  /** When every record is dropped, head and tail go back to the start of the ring; what was lost at
      the old tail can no longer be found. */
  lemma {:induction false} RingReset(w: seq<Cell>, head: nat, nextSeq: nat, tail: nat, hist: seq<WalOp>,
                                     attempted: set<WalOp>)
    requires RingInv(w, head, nextSeq, tail, hist, attempted)
    ensures RingInv(w, 0, |hist| + 1, 0, hist, if tail == 0 then attempted else {})
  {
    hide EncodeLog, Loggable, Complete, RecLen, Spent, Rot;
    RotZero(w);
    TailBelow(head, tail, LogLen(hist[nextSeq - 1..]), |w|);
    ResetSpent(w, tail, |hist| + 1, attempted);
    ResetLive(w, hist);
  }

  lemma {:induction false} RotZero(w: seq<Cell>)
    ensures Rot(w, 0) == w
  {
  }

  lemma {:induction false} ResetLive(w: seq<Cell>, hist: seq<WalOp>)
    ensures Live(w, hist[|hist|..], |hist| + 1) && LogLen(hist[|hist|..]) == 0
  {
    assert w[|w|..] == [];
  }

  lemma {:induction false} TailBelow(head: nat, tail: nat, n: nat, len: nat)
    requires TailAt(head, tail, n, len)
    ensures tail == 0 || tail < len
  {
  }

  lemma {:induction false} ResetSpent(w: seq<Cell>, tail: nat, s: nat, attempted: set<WalOp>)
    requires tail <= |w| && (tail == |w| ==> tail == 0) && Spent(Rot(w, tail), tail, s, attempted)
    ensures Spent(w, 0, s, if tail == 0 then attempted else {})
  {
    hide SeqOf, Summed;
    var u := Rot(w, tail);
    if tail == 0 {
      assert u == w;
    } else {
      forall p | 0 <= p < |w| && w[p].Dig? && w[p].i == 0 && SeqOf(w[p].h) >= s
        ensures SeqOf(w[p].h) == s && p != 16
      {
        var j := if p >= tail then p - tail else p + |w| - tail;
        assert u[j] == w[p];
      }
    }
  }
}
