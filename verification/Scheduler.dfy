/** The flush scheduler's accounting: dirty bytes, operation counts and ages of refs. */
module Scheduler {
  import opened Cells
  import opened WalCodec
  import opened Intervals
  import opened MapSum
  import Prolly
  import PO = PathOverlay

  /** `oldest` is the timestamp of the ref's first operation since its last flush. */
  datatype Acct = Acct(ops: nat, oldest: nat)

  datatype Options = Options(walWatermark: nat, perRefBudget: nat, opBound: nat, sizeLow: nat, staleness: nat)

  function Account(acct: map<Bytes, Acct>, op: WalOp): map<Bytes, Acct> {
    acct[op.ref := if op.ref in acct then acct[op.ref].(ops := acct[op.ref].ops + 1) else Acct(1, op.mtime)]
  }

  /** `now` may lie before `oldest`: the subtraction saturates. */
  predicate Stale(a: Acct, now: nat, bound: nat) {
    now > a.oldest && now - a.oldest > bound
  }

  ghost function FileBytes(o: PO.Overlay): map<Path, nat> {
    map p | p in o.files :: Stored(o.files[p].writes)
  }

  /** Dirty bytes of one overlay. */
  ghost function OverlayBytes(o: PO.Overlay): nat {
    Sum(FileBytes(o))
  }

  ghost function SizeMap(overlays: map<Bytes, PO.Overlay>): map<Bytes, nat> {
    map r | r in overlays :: OverlayBytes(overlays[r])
  }

  /** Dirty bytes of all overlays. */
  ghost function Total(overlays: map<Bytes, PO.Overlay>): nat {
    Sum(SizeMap(overlays))
  }

  method BytesOf(o: PO.Overlay) returns (n: nat)
    ensures n == OverlayBytes(o)
  {
    hide Stored;
    n := 0;
    var todo := o.files.Keys;
    ghost var left := FileBytes(o);
    while todo != {}
      invariant todo <= o.files.Keys && left == (map p | p in todo :: Stored(o.files[p].writes))
      invariant n + Sum(left) == OverlayBytes(o)
      decreases todo
    {
      var p :| p in todo;
      SumPick(left, p);
      n := n + Stored(o.files[p].writes);
      todo, left := todo - {p}, left - {p};
    }
    assert left == map[];
  }

  method Measure(overlays: map<Bytes, PO.Overlay>) returns (sizes: map<Bytes, nat>, total: nat)
    ensures sizes == SizeMap(overlays) && total == Total(overlays)
  {
    hide OverlayBytes;
    sizes, total := map[], 0;
    var todo := overlays.Keys;
    ghost var left := SizeMap(overlays);
    while todo != {}
      invariant todo <= overlays.Keys && left == (map r | r in todo :: OverlayBytes(overlays[r]))
      invariant sizes == (map r | r in overlays.Keys - todo :: OverlayBytes(overlays[r]))
      invariant total + Sum(left) == Total(overlays)
      decreases todo
    {
      var r :| r in todo;
      var n := BytesOf(overlays[r]);
      SumPick(left, r);
      sizes, total := sizes[r := n], total + n;
      todo, left := todo - {r}, left - {r};
    }
    assert left == map[];
  }

  /** The order in which size pressure flushes: the bigger ref first, of two as big the one whose name comes first. */
  predicate Before(sizes: map<Bytes, nat>, r: Bytes, s: Bytes) {
    r in sizes && s in sizes && (sizes[r] > sizes[s] || (sizes[r] == sizes[s] && Prolly.Less(r, s)))
  }

  lemma {:induction false} BeforeTrans(sizes: map<Bytes, nat>, r: Bytes, s: Bytes, t: Bytes)
    requires Before(sizes, r, s) && Before(sizes, s, t)
    ensures Before(sizes, r, t)
  {
    hide Prolly.Less;
    if sizes[r] == sizes[t] {
      Prolly.LessTrans(r, s, t);
    }
  }

  /** The biggest offender. */
  method Biggest(sizes: map<Bytes, nat>) returns (r: Bytes)
    requires sizes != map[]
    ensures r in sizes && forall s :: s in sizes && s != r ==> Before(sizes, r, s)
  {
    hide Before;
    r :| r in sizes;
    var todo := sizes.Keys - {r};
    while todo != {}
      invariant r in sizes && r !in todo && todo <= sizes.Keys
      invariant forall s :: s in sizes.Keys - todo && s != r ==> Before(sizes, r, s)
      decreases todo
    {
      var s :| s in todo;
      OneBefore(sizes, r, s);
      if Before(sizes, s, r) {
        forall x | x in sizes.Keys - todo && x != r
          ensures Before(sizes, s, x)
        {
          BeforeTrans(sizes, s, r, x);
        }
        r := s;
      }
      todo := todo - {s};
    }
  }

  lemma {:induction false} OneBefore(sizes: map<Bytes, nat>, r: Bytes, s: Bytes)
    requires r in sizes && s in sizes && r != s
    ensures Before(sizes, r, s) || Before(sizes, s, r)
  {
    hide Prolly.Less;
    Prolly.LessTotal(r, s);
  }

  /** Size pressure: the total is above the low watermark and more than one ref is dirty. */
  ghost predicate Pressed(overlays: map<Bytes, PO.Overlay>, opts: Options) {
    Total(overlays) > opts.sizeLow && |overlays| > 1
  }

  /** Every ref gone comes before every ref kept. */
  ghost predicate FromTop(overlays: map<Bytes, PO.Overlay>, was: map<Bytes, PO.Overlay>) {
    forall r, s :: r in was.Keys - overlays.Keys && s in overlays ==> Before(SizeMap(was), r, s)
  }

  /** Ref `last` went last, and with it the total was still above the low watermark. */
  ghost predicate LastGone(overlays: map<Bytes, PO.Overlay>, was: map<Bytes, PO.Overlay>, opts: Options, last: Bytes) {
    && last in was && last !in overlays
    && (forall r :: r in was.Keys - overlays.Keys && r != last ==> Before(SizeMap(was), r, last))
    && Total(overlays) + OverlayBytes(was[last]) > opts.sizeLow
  }

  /** What size pressure leaves: the biggest refs are gone, no more of them than it takes, and not all. */
  ghost predicate Trimmed(overlays: map<Bytes, PO.Overlay>, was: map<Bytes, PO.Overlay>, opts: Options) {
    overlays != map[] && FromTop(overlays, was) && exists last :: LastGone(overlays, was, opts, last)
  }

  lemma {:induction false} TrimMore(overlays: map<Bytes, PO.Overlay>, was: map<Bytes, PO.Overlay>,
                                    acct: map<Bytes, Acct>, acctWas: map<Bytes, Acct>, opts: Options, r: Bytes)
    requires Shrunk(overlays, was, acct, acctWas) && FromTop(overlays, was) && Pressed(overlays, opts)
    requires r in overlays && forall s :: s in overlays && s != r ==> Before(SizeMap(overlays), r, s)
    ensures Trimmed(overlays - {r}, was, opts)
  {
    hide OverlayBytes, Prolly.Less;
    var less := overlays - {r};
    assert overlays.Keys == less.Keys + {r};
    assert |overlays.Keys| == |less.Keys| + 1;
    assert forall s :: s in overlays ==> SizeMap(was)[s] == SizeMap(overlays)[s];
    assert LastGone(less, was, opts, r) by {
      SumPick(SizeMap(overlays), r);
      assert SizeMap(less) == SizeMap(overlays) - {r};
    }
  }

  lemma {:induction false} NoneGone(overlays: map<Bytes, PO.Overlay>)
    ensures FromTop(overlays, overlays)
  {
  }

  /** With at most one ref dirty, the total is that ref's. */
  lemma {:induction false} LoneTotal(overlays: map<Bytes, PO.Overlay>, bound: nat)
    requires |overlays| <= 1 && forall r :: r in overlays ==> OverlayBytes(overlays[r]) <= bound
    ensures Total(overlays) <= bound
  {
    hide OverlayBytes;
    var m := SizeMap(overlays);
    if overlays != map[] {
      var r :| r in overlays;
      Smaller(m, r);
      SumPick(m, r);
      assert |m.Keys| == |overlays.Keys| by {
        assert m.Keys == overlays.Keys;
      }
      assert |m| <= 1;
      assert m - {r} == map[];
    }
  }

  lemma {:induction false} TotalSmaller(overlays: map<Bytes, PO.Overlay>, r: Bytes)
    ensures Total(overlays - {r}) <= Total(overlays)
  {
    hide OverlayBytes;
    if r in overlays {
      SumPick(SizeMap(overlays), r);
    }
    assert SizeMap(overlays - {r}) == SizeMap(overlays) - {r};
    if r !in overlays {
      SumSame(SizeMap(overlays), r);
    }
  }

  lemma {:induction false} TotalShrunk(overlays: map<Bytes, PO.Overlay>, was: map<Bytes, PO.Overlay>)
    requires overlays.Keys <= was.Keys && forall r :: r in overlays ==> overlays[r] == was[r]
    ensures Total(overlays) <= Total(was)
    decreases |was|
  {
    hide OverlayBytes, Total;
    if overlays.Keys == was.Keys {
      assert overlays == was;
    } else {
      var r :| r in was && r !in overlays;
      TotalSmaller(was, r);
      OneFewer(was, r);
      TotalShrunk(overlays, was - {r});
    }
  }

  /** A ref within its byte budget and operation count. */
  ghost predicate RefWithin(overlays: map<Bytes, PO.Overlay>, acct: map<Bytes, Acct>, opts: Options, r: Bytes) {
    && (r in overlays ==> OverlayBytes(overlays[r]) <= opts.perRefBudget)
    && (r in acct ==> acct[r].ops <= opts.opBound)
  }

  ghost predicate Within(overlays: map<Bytes, PO.Overlay>, acct: map<Bytes, Acct>, opts: Options) {
    forall r :: RefWithin(overlays, acct, opts, r)
  }

  /** Every ref that was within its bounds still is. */
  ghost predicate KeptWithin(overlays: map<Bytes, PO.Overlay>, was: map<Bytes, PO.Overlay>, acct: map<Bytes, Acct>,
                             acctWas: map<Bytes, Acct>, opts: Options) {
    forall r :: RefWithin(was, acctWas, opts, r) ==> RefWithin(overlays, acct, opts, r)
  }

  /** Flushing refs only takes overlays and accounts away. */
  predicate Shrunk(overlays: map<Bytes, PO.Overlay>, was: map<Bytes, PO.Overlay>, acct: map<Bytes, Acct>,
                   acctWas: map<Bytes, Acct>) {
    && overlays.Keys <= was.Keys && (forall r :: r in overlays ==> overlays[r] == was[r])
    && acct.Keys <= acctWas.Keys && (forall r :: r in acct ==> acct[r] == acctWas[r])
  }

  lemma {:induction false} ShrunkSelf(overlays: map<Bytes, PO.Overlay>, acct: map<Bytes, Acct>)
    ensures Shrunk(overlays, overlays, acct, acct)
  {
  }

  lemma {:induction false} ShrunkLess(overlays: map<Bytes, PO.Overlay>, was: map<Bytes, PO.Overlay>,
                                      acct: map<Bytes, Acct>, acctWas: map<Bytes, Acct>, r: Bytes)
    requires Shrunk(overlays, was, acct, acctWas)
    ensures Shrunk(overlays - {r}, was, acct - {r}, acctWas)
  {
  }

  lemma {:induction false} ShrunkTwice(o2: map<Bytes, PO.Overlay>, o1: map<Bytes, PO.Overlay>,
                                       o0: map<Bytes, PO.Overlay>, a2: map<Bytes, Acct>, a1: map<Bytes, Acct>,
                                       a0: map<Bytes, Acct>)
    requires Shrunk(o2, o1, a2, a1) && Shrunk(o1, o0, a1, a0)
    ensures Shrunk(o2, o0, a2, a0)
  {
  }

  /** Fewer refs hold no more bytes. */
  lemma {:induction false} TotalLess(overlays: map<Bytes, PO.Overlay>, was: map<Bytes, PO.Overlay>,
                                     acct: map<Bytes, Acct>, acctWas: map<Bytes, Acct>)
    requires Shrunk(overlays, was, acct, acctWas)
    ensures Total(overlays) <= Total(was) && |overlays| <= |was|
  {
    hide Total;
    TotalShrunk(overlays, was);
    FewerKeys(overlays.Keys, was.Keys);
  }

  lemma {:induction false} FewerKeys(a: set<Bytes>, b: set<Bytes>)
    requires a <= b
    ensures |a| <= |b|
  {
    assert b == a + (b - a);
    assert |b| == |a| + |b - a|;
  }

  lemma {:induction false} CleanWithin(overlays: map<Bytes, PO.Overlay>, acct: map<Bytes, Acct>, opts: Options,
                                       r: Bytes)
    requires r !in overlays && r !in acct
    ensures RefWithin(overlays, acct, opts, r)
  {
  }

  lemma {:induction false} StillWithin(overlays: map<Bytes, PO.Overlay>, was: map<Bytes, PO.Overlay>,
                                       acct: map<Bytes, Acct>, acctWas: map<Bytes, Acct>, opts: Options, r: Bytes)
    requires KeptWithin(overlays, was, acct, acctWas, opts) && RefWithin(was, acctWas, opts, r)
    ensures RefWithin(overlays, acct, opts, r)
  {
  }

  lemma {:induction false} SizeKeys(overlays: map<Bytes, PO.Overlay>)
    ensures SizeMap(overlays).Keys == overlays.Keys
  {
    hide OverlayBytes;
  }

  lemma {:induction false} WithinShrunk(overlays: map<Bytes, PO.Overlay>, was: map<Bytes, PO.Overlay>,
                                        acct: map<Bytes, Acct>, acctWas: map<Bytes, Acct>, opts: Options)
    requires Shrunk(overlays, was, acct, acctWas)
    ensures KeptWithin(overlays, was, acct, acctWas, opts)
    ensures Within(was, acctWas, opts) ==> Within(overlays, acct, opts)
  {
    hide OverlayBytes;
    assert forall r :: RefWithin(was, acctWas, opts, r) ==> RefWithin(overlays, acct, opts, r);
  }

  lemma {:induction false} KeptTwice(o0: map<Bytes, PO.Overlay>, a0: map<Bytes, Acct>, o1: map<Bytes, PO.Overlay>,
                                     a1: map<Bytes, Acct>, o2: map<Bytes, PO.Overlay>, a2: map<Bytes, Acct>,
                                     opts: Options)
    requires KeptWithin(o1, o0, a1, a0, opts) && KeptWithin(o2, o1, a2, a1, opts)
    ensures KeptWithin(o2, o0, a2, a0, opts)
  {
    hide RefWithin;
  }

  /** After one operation only its own ref can be over; if it is, its flush brings it back within. */
  lemma {:induction false} WithinAfter(was: map<Bytes, PO.Overlay>, acctWas: map<Bytes, Acct>, r: Bytes, o: PO.Overlay,
                                       a: Acct, opts: Options)
    ensures RefWithin(was[r := o], acctWas[r := a], opts, r) ==>
              KeptWithin(was[r := o], was, acctWas[r := a], acctWas, opts)
    ensures RefWithin(was[r := o] - {r}, acctWas[r := a] - {r}, opts, r)
    ensures KeptWithin(was[r := o] - {r}, was, acctWas[r := a] - {r}, acctWas, opts)
  {
    hide OverlayBytes;
  }

  lemma {:induction false} OneFewer(overlays: map<Bytes, PO.Overlay>, r: Bytes)
    requires r in overlays
    ensures |overlays - {r}| < |overlays|
  {
    assert overlays.Keys == (overlays - {r}).Keys + {r};
    assert |overlays.Keys| == |(overlays - {r}).Keys| + 1;
  }

  function Max(a: nat, b: nat): nat {
    if a > b then a else b
  }

  /** The bounds the scheduler keeps: each ref within its own, and the total within the larger of the low
      watermark and one ref's budget. */
  ghost predicate Bounded(overlays: map<Bytes, PO.Overlay>, acct: map<Bytes, Acct>, opts: Options) {
    Within(overlays, acct, opts) && Total(overlays) <= Max(opts.sizeLow, opts.perRefBudget)
  }

  lemma {:induction false} NoneBounded(opts: Options)
    ensures Bounded(map[], map[], opts)
  {
    LoneTotal(map[], 0);
  }

  lemma {:induction false} ShrunkNone(was: map<Bytes, PO.Overlay>, acctWas: map<Bytes, Acct>)
    ensures Shrunk(map[], was, map[], acctWas)
  {
  }
}
