/** The dirty interval map of one file: insertion that trims what it overlaps, and application
    over base content. */
module Intervals {
  import opened Cells

  datatype Interval = Interval(off: nat, data: Bytes) {
    function End(): nat {
      off + |data|
    }
  }

  function Max(a: nat, b: nat): nat {
    if a < b then b else a
  }

  /** Byte `i` of a file, zero where the file has no byte. */
  function At(b: Bytes, i: nat): Byte {
    if i < |b| then b[i] else 0
  }

  /** The reference meaning of a write: overwrite at `off`, extending with zeros. */
  function Splice(b: Bytes, off: nat, data: Bytes): (r: Bytes)
    ensures |r| == Max(|b|, off + |data|)
    ensures forall i :: 0 <= i < |r| ==> r[i] == if off <= i < off + |data| then data[i - off] else At(b, i)
  {
    seq(Max(|b|, off + |data|),
        i requires 0 <= i < Max(|b|, off + |data|) => if off <= i < off + |data| then data[i - off] else At(b, i))
  }

  /** The first key that may follow interval `v`. */
  function Next(v: Interval): nat {
    Max(v.off + 1, v.End())
  }

  /** From `lo` on, offsets strictly increase and intervals do not overlap. */
  predicate SortedFrom(w: seq<Interval>, lo: nat) {
    w == [] || (lo <= w[0].off && SortedFrom(w[1..], Next(w[0])))
  }

  predicate Sorted(w: seq<Interval>) {
    SortedFrom(w, 0)
  }

  function Stored(w: seq<Interval>): nat {
    if w == [] then 0 else |w[0].data| + Stored(w[1..])
  }

  /** Base content with the intervals applied in offset order, zero-filling gaps. */
  function Apply(base: Bytes, w: seq<Interval>): Bytes
    decreases |w|
  {
    if w == [] then base else Apply(Splice(base, w[0].off, w[0].data), w[1..])
  }

  /** Loop form of `Apply`. */
  method ApplyOver(base: Bytes, w: seq<Interval>) returns (content: Bytes)
    ensures content == Apply(base, w)
  {
    content := base;
    for k := 0 to |w|
      invariant Apply(content, w[k..]) == Apply(base, w)
    {
      var end := w[k].End();
      ghost var was := content;
      if |content| < end {
        content := content + seq(end - |content|, _ => 0);
      }
      content := content[..w[k].off] + w[k].data + content[end..];
      assert content == Splice(was, w[k].off, w[k].data);
      assert w[k..][1..] == w[k + 1..];
    }
  }

  // ── Insertion ──

  /** What remains of the map before `off`. */
  function Before(w: seq<Interval>, off: nat): seq<Interval> {
    if w == [] || w[0].off >= off then []
    else if w[0].End() <= off then [w[0]] + Before(w[1..], off)
    else [Interval(w[0].off, w[0].data[..off - w[0].off])] + Before(w[1..], off)
  }

  /** What remains of the map from `end` on. */
  function From(w: seq<Interval>, end: nat): seq<Interval> {
    if w == [] then []
    else if w[0].off >= end then w
    else if w[0].End() <= end then From(w[1..], end)
    else [Interval(end, w[0].data[end - w[0].off..])] + From(w[1..], end)
  }

  /** A key inserted twice keeps the last value. */
  function DropKey(w: seq<Interval>, key: nat): seq<Interval> {
    if w != [] && w[0].off == key then w[1..] else w
  }

  function Inserted(w: seq<Interval>, off: nat, data: Bytes): seq<Interval> {
    Before(w, off) + ([Interval(off, data)] + DropKey(From(w, off + |data|), off))
  }

  // ── The byte an interval list holds at a position ──

  function ByteIn(w: seq<Interval>, i: nat): Option<Byte> {
    if w == [] then None
    else if w[0].off <= i < w[0].End() then Some(w[0].data[i - w[0].off])
    else ByteIn(w[1..], i)
  }

  function EndOf(w: seq<Interval>): nat {
    if w == [] then 0 else Max(w[0].End(), EndOf(w[1..]))
  }

  lemma {:induction false} ByteBelow(w: seq<Interval>, lo: nat, i: nat)
    requires SortedFrom(w, lo) && i < lo
    ensures ByteIn(w, i) == None
  {
    if w != [] {
      ByteBelow(w[1..], Next(w[0]), i);
    }
  }

  lemma {:induction false} SortedDown(w: seq<Interval>, lo: nat, lo': nat)
    requires SortedFrom(w, lo) && lo' <= lo
    ensures SortedFrom(w, lo')
  {
  }

  /** Application holds the interval's byte where there is one and the base's byte elsewhere. */
  lemma {:induction false} ApplyAt(base: Bytes, w: seq<Interval>, lo: nat, i: nat)
    requires SortedFrom(w, lo)
    ensures |Apply(base, w)| == Max(|base|, EndOf(w))
    ensures At(Apply(base, w), i) == if ByteIn(w, i).Some? then ByteIn(w, i).value else At(base, i)
    decreases |w|
  {
    if w != [] {
      ApplyAt(Splice(base, w[0].off, w[0].data), w[1..], Next(w[0]), i);
      if w[0].off <= i < w[0].End() {
        ByteBelow(w[1..], Next(w[0]), i);
      }
    }
  }

  lemma {:induction false} ByteConcat(a: seq<Interval>, b: seq<Interval>, i: nat)
    ensures ByteIn(a + b, i) == if ByteIn(a, i).Some? then ByteIn(a, i) else ByteIn(b, i)
    ensures EndOf(a + b) == Max(EndOf(a), EndOf(b))
  {
    if a == [] {
      assert a + b == b;
    } else {
      assert (a + b)[1..] == a[1..] + b;
      ByteConcat(a[1..], b, i);
    }
  }

  lemma {:induction false} StoredConcat(a: seq<Interval>, b: seq<Interval>)
    ensures Stored(a + b) == Stored(a) + Stored(b)
  {
    if a == [] {
      assert a + b == b;
    } else {
      assert (a + b)[1..] == a[1..] + b;
      StoredConcat(a[1..], b);
    }
  }

  lemma {:induction false} StoredCons(v: Interval, w: seq<Interval>)
    ensures Stored([v] + w) == |v.data| + Stored(w)
  {
    assert ([v] + w)[1..] == w;
  }

  lemma {:induction false} BeforeByte(w: seq<Interval>, lo: nat, off: nat, i: nat)
    requires SortedFrom(w, lo)
    ensures ByteIn(Before(w, off), i) == if i < off then ByteIn(w, i) else None
  {
    if w == [] {
    } else if w[0].off >= off {
      if i < off {
        SortedDown(w, w[0].off, off);
        ByteBelow(w, off, i);
      }
    } else {
      BeforeByte(w[1..], Next(w[0]), off, i);
      if off < w[0].End() && w[0].off <= i < w[0].End() {
        ByteBelow(w[1..], Next(w[0]), i);
      }
    }
  }

  lemma {:induction false} BeforeEnd(w: seq<Interval>, off: nat)
    ensures EndOf(Before(w, off)) <= off && EndOf(Before(w, off)) <= EndOf(w)
  {
    if w != [] && w[0].off < off {
      BeforeEnd(w[1..], off);
    }
  }

  lemma {:induction false} FromByte(w: seq<Interval>, lo: nat, end: nat, i: nat)
    requires SortedFrom(w, lo)
    ensures ByteIn(From(w, end), i) == if i >= end then ByteIn(w, i) else None
  {
    if w == [] {
    } else if w[0].off >= end {
      if i < end {
        SortedDown(w, w[0].off, end);
        ByteBelow(w, end, i);
      }
    } else {
      FromByte(w[1..], Next(w[0]), end, i);
    }
  }

  lemma {:induction false} FromEnd(w: seq<Interval>, end: nat)
    ensures EndOf(From(w, end)) <= EndOf(w) <= Max(end, EndOf(From(w, end)))
  {
    if w != [] && w[0].off < end {
      FromEnd(w[1..], end);
    }
  }

  lemma {:induction false} FromSorted(w: seq<Interval>, lo: nat, end: nat)
    requires SortedFrom(w, lo)
    ensures SortedFrom(From(w, end), end)
    ensures lo > end ==> From(w, end) == w
  {
    if w != [] && w[0].off < end {
      FromSorted(w[1..], Next(w[0]), end);
      if w[0].End() > end {
        SortedDown(w[1..], Next(w[0]), Next(w[0]));
      }
    }
  }

  lemma {:induction false} InsertedSorted(w: seq<Interval>, lo: nat, off: nat, tail: seq<Interval>)
    requires SortedFrom(w, lo) && lo <= off && SortedFrom(tail, off)
    ensures SortedFrom(Before(w, off) + tail, lo)
  {
    if w == [] || w[0].off >= off {
      assert Before(w, off) + tail == tail;
      SortedDown(tail, off, lo);
    } else {
      var b := Before(w, off);
      assert (b + tail)[1..] == Before(w[1..], off) + tail;
      if w[0].End() <= off {
        InsertedSorted(w[1..], Next(w[0]), off, tail);
      } else {
        assert Before(w[1..], off) == [];
        assert Before(w[1..], off) + tail == tail;
      }
    }
  }

  /** Insertion keeps the map sorted and disjoint. */
  lemma {:induction false} InsertKeepsSorted(w: seq<Interval>, off: nat, data: Bytes)
    requires Sorted(w)
    ensures Sorted(Inserted(w, off, data))
  {
    var f := From(w, off + |data|);
    FromSorted(w, 0, off + |data|);
    var tail := [Interval(off, data)] + DropKey(f, off);
    assert tail[1..] == DropKey(f, off);
    if f != [] && f[0].off != off {
      SortedDown(f, f[0].off, Next(tail[0]));
    } else if f != [] {
      SortedDown(f[1..], Next(f[0]), Next(tail[0]));
    }
    InsertedSorted(w, 0, off, tail);
  }

  /** Where the insertion is faithful, each position holds the new byte or the old one. */
  lemma {:induction false} InsertByte(w: seq<Interval>, off: nat, data: Bytes, i: nat)
    requires Sorted(w) && (data != [] || ByteIn(w, off).None?)
    ensures ByteIn(Inserted(w, off, data), i) ==
              if off <= i < off + |data| then Some(data[i - off]) else ByteIn(w, i)
    ensures EndOf(Inserted(w, off, data)) == Max(EndOf(w), off + |data|)
  {
    hide Before, From, SortedFrom;
    var end := off + |data|;
    var b, f := Before(w, off), From(w, end);
    var d := DropKey(f, off);
    ByteConcat(b, [Interval(off, data)] + d, i);
    assert ([Interval(off, data)] + d)[1..] == d;
    BeforeByte(w, 0, off, i);
    BeforeEnd(w, off);
    FromByte(w, 0, end, i);
    FromEnd(w, end);
    FromSorted(w, 0, end);
    if f != [] && f[0].off == off {
      assert data == [];
      FromByte(w, 0, end, off);
      assert f[0].data == [];
      assert f == [f[0]] + f[1..];
    }
  }

  lemma {:induction false} SameBytes(a: Bytes, b: Bytes)
    requires |a| == |b| && forall i: nat :: At(a, i) == At(b, i)
    ensures a == b
  {
    forall i | 0 <= i < |a|
      ensures a[i] == b[i]
    {
      assert At(a, i) == At(b, i);
    }
  }

  /** Last write wins: applying the updated map equals splicing the data into the old result. */
  lemma {:induction false} InsertIsSplice(base: Bytes, w: seq<Interval>, off: nat, data: Bytes)
    requires Sorted(w) && (data != [] || ByteIn(w, off).None?)
    ensures Apply(base, Inserted(w, off, data)) == Splice(Apply(base, w), off, data)
  {
    var a, b := Apply(base, Inserted(w, off, data)), Splice(Apply(base, w), off, data);
    InsertKeepsSorted(w, off, data);
    forall i: nat
      ensures |a| == |b| && At(a, i) == At(b, i)
    {
      hide Inserted, Splice, Apply;
      InsertByte(w, off, data, i);
      ApplyAt(base, w, 0, i);
      ApplyAt(base, Inserted(w, off, data), 0, i);
    }
    InsertByte(w, off, data, 0);
    ApplyAt(base, w, 0, 0);
    ApplyAt(base, Inserted(w, off, data), 0, 0);
    SameBytes(a, b);
  }

  lemma {:induction false} EmptyInsertLoses(w: seq<Interval>, off: nat)
    requires Sorted(w) && ByteIn(w, off).Some?
    ensures ByteIn(Inserted(w, off, []), off) == None
  {
    var b, f := Before(w, off), From(w, off);
    FromSorted(w, 0, off);
    FromByte(w, 0, off, off);
    BeforeByte(w, 0, off, off);
    if f[0].off != off {
      SortedDown(f, f[0].off, off + 1);
      ByteBelow(f, off + 1, off);
    }
    ByteBelow(f[1..], Next(f[0]), off);
    ByteConcat(b, [Interval(off, [])] + f[1..], off);
    assert ([Interval(off, [])] + f[1..])[1..] == f[1..];
  }

  /** The insertion is the splice over every base exactly when the data is non-empty or no dirty
      byte sits at `off`: an empty write lands on the key of the interval it meets and drops it. */
  lemma {:induction false} InsertExact(w: seq<Interval>, off: nat, data: Bytes)
    requires Sorted(w)
    ensures (forall base :: Apply(base, Inserted(w, off, data)) == Splice(Apply(base, w), off, data))
            <==> (data != [] || ByteIn(w, off).None?)
  {
    if data != [] || ByteIn(w, off).None? {
      forall base
        ensures Apply(base, Inserted(w, off, data)) == Splice(Apply(base, w), off, data)
      {
        InsertIsSplice(base, w, off, data);
      }
    } else {
      var x := ByteIn(w, off).value;
      var base: Bytes := seq(off + 1, _ => if x == 0 then 1 else 0);
      InsertKeepsSorted(w, off, data);
      EmptyInsertLoses(w, off);
      ApplyAt(base, w, 0, off);
      ApplyAt(base, Inserted(w, off, data), 0, off);
      assert At(Apply(base, Inserted(w, off, data)), off) != At(Splice(Apply(base, w), off, data), off);
    }
  }

  /** One dirty byte, and an empty write at its offset: the byte is gone. */
  lemma {:induction false} EmptyInsertExample()
    ensures var w := [Interval(0, [7])];
            Apply([], w) == [7] && Splice(Apply([], w), 0, []) == [7] && Apply([], Inserted(w, 0, [])) == []
  {
    var w := [Interval(0, [7])];
    assert Apply([], w) == Apply(Splice([], 0, [7]), w[1..]) == [7];
    assert From(w, 0) == w && DropKey(w, 0) == w[1..] == [];
    assert Inserted(w, 0, []) == [Interval(0, [])];
    var v := [Interval(0, [])];
    assert Apply([], v) == Apply(Splice([], 0, []), v[1..]) == [];
  }

  // ── The insertion loop ──

  /** A front whose intervals all end at or before `off` is kept as it is. */
  lemma {:induction false} SkipBefore(w: seq<Interval>, n: nat, off: nat)
    requires n <= |w|
    requires forall k :: 0 <= k < n ==> w[k].End() <= off && w[k].off < off
    ensures Before(w, off) == w[..n] + Before(w[n..], off)
  {
    if n > 0 {
      SkipBefore(w[1..], n - 1, off);
      hide Before;
      BeforeStep(w, off);
      assert w[1..][n - 1..] == w[n..];
      assert w[..n] == [w[0]] + w[1..][..n - 1];
    } else {
      assert w[0..] == w;
    }
  }

  lemma {:induction false} BeforeStep(w: seq<Interval>, off: nat)
    requires w != [] && w[0].off < off && w[0].End() <= off
    ensures Before(w, off) == [w[0]] + Before(w[1..], off)
  {
  }

  lemma {:induction false} SkipFrom(w: seq<Interval>, n: nat, end: nat)
    requires n <= |w|
    requires forall k :: 0 <= k < n ==> w[k].End() <= end && w[k].off < end
    ensures From(w, end) == From(w[n..], end)
  {
    if n > 0 {
      SkipFrom(w[1..], n - 1, end);
      assert w[1..][n - 1..] == w[n..];
    } else {
      assert w[0..] == w;
    }
  }

  lemma {:induction false} KeysFollow(w: seq<Interval>, lo: nat, i: nat, j: nat)
    requires SortedFrom(w, lo) && i < j < |w|
    ensures w[i].off < w[j].off && w[i].End() <= w[j].off
    ensures lo <= w[i].off
  {
    if i == 0 {
      if j == 1 {
      } else {
        KeysFollow(w[1..], Next(w[0]), 0, j - 1);
      }
    } else {
      KeysFollow(w[1..], Next(w[0]), i - 1, j - 1);
    }
  }

  lemma {:induction false} BeforeKeys(w: seq<Interval>, off: nat)
    ensures forall k :: 0 <= k < |Before(w, off)| ==> Before(w, off)[k].off < off
  {
    if w != [] && w[0].off < off {
      BeforeKeys(w[1..], off);
    }
  }

  lemma {:induction false} SortedSuffix(w: seq<Interval>, lo: nat, k: nat)
    requires SortedFrom(w, lo) && k <= |w|
    ensures k < |w| ==> SortedFrom(w[k..], w[k].off)
  {
    if 0 < k < |w| {
      SortedSuffix(w[1..], Next(w[0]), k - 1);
      assert w[1..][k - 1..] == w[k..];
    } else {
      assert k == 0 ==> w[k..] == w;
    }
  }

  function LeftPart(v: Interval, off: nat): seq<Interval>
    requires v.End() > off
  {
    if v.off < off then [Interval(v.off, v.data[..off - v.off])] else []
  }

  function RightPart(v: Interval, end: nat): seq<Interval>
    requires v.off < end
  {
    if v.End() > end then [Interval(end, v.data[end - v.off..])] else []
  }

  /** Trimming one overlapping interval. */
  lemma {:induction false} TrimStep(w: seq<Interval>, k: nat, off: nat, end: nat)
    requires Sorted(w) && k < |w| && w[k].off < end && w[k].End() > off && off <= end
    ensures Before(w[k..], off) == LeftPart(w[k], off) && Before(w[k + 1..], off) == []
    ensures From(w[k..], end) == RightPart(w[k], end) + From(w[k + 1..], end)
  {
    assert w[k..][1..] == w[k + 1..];
    if k + 1 < |w| {
      KeysFollow(w, 0, k, k + 1);
    }
  }

  /** The trimmed map, before the new interval is put in. */
  function Trimmed(w: seq<Interval>, k: nat, off: nat, end: nat): seq<Interval>
    requires k <= |w|
  {
    w[..k] + Before(w[k..], off) + From(w[k..], end)
  }

  lemma {:induction false} TrimStart(w: seq<Interval>, hi: nat, off: nat, end: nat)
    requires hi <= |w| && off <= end && (hi < |w| ==> w[hi].off >= end)
    ensures w == Trimmed(w, hi, off, end)
  {
    assert w == w[..hi] + w[hi..];
  }

  lemma {:induction false} PutLast(w: seq<Interval>, k: nat, off: nat, data: Bytes, n: nat)
    requires Sorted(w) && k <= |w|
    requires forall j :: 0 <= j < k ==> w[j].End() <= off && w[j].off < off + |data|
    requires var t := Trimmed(w, k, off, off + |data|);
             n <= |t| && (forall j :: 0 <= j < n ==> t[j].off < off) && (n < |t| ==> t[n].off >= off)
    ensures var t := Trimmed(w, k, off, off + |data|);
            t[..n] + ([Interval(off, data)] + DropKey(t[n..], off)) == Inserted(w, off, data)
    ensures var t := Trimmed(w, k, off, off + |data|);
            data != [] || ByteIn(w, off).None? ==> Stored(Inserted(w, off, data)) == Stored(t) + |data|
  {
    hide Before, From, Stored, ByteIn;
    var end := off + |data|;
    var b, f := Before(w[k..], off), From(w[k..], end);
    var t := Trimmed(w, k, off, end);
    BeforeKeys(w[k..], off);
    if k < |w| {
      SortedSuffix(w, 0, k);
      FromSorted(w[k..], w[k].off, end);
    } else {
      FromSorted(w[k..], 0, end);
    }
    if k > 0 && w[k - 1].off == off {
      PutOverEmpty(w, k, off, data, n);
    } else {
      forall j | 0 <= j < k
        ensures w[j].off < off
      {
        if j < k - 1 {
          KeysFollow(w, 0, j, k - 1);
        }
      }
      SkipBefore(w, k, off);
      SkipFrom(w, k, end);
      hide SortedFrom;
      assert forall j :: k <= j < k + |b| ==> t[j] == b[j - k];
      assert f != [] ==> t[k + |b|] == f[0];
      assert n == k + |b|;
      assert t[..n] == Before(w, off) && t[n..] == f == From(w, end);
      if data != [] || ByteIn(w, off).None? {
        PutStored(w, off, data, t);
      }
    }
  }

  lemma {:induction false} PutStored(w: seq<Interval>, off: nat, data: Bytes, t: seq<Interval>)
    requires Sorted(w) && t == Before(w, off) + From(w, off + |data|)
    requires data != [] || ByteIn(w, off).None?
    ensures Stored(Inserted(w, off, data)) == Stored(t) + |data|
  {
    hide Before, From, ByteIn;
    var b, f := Before(w, off), From(w, off + |data|);
    FromSorted(w, 0, off + |data|);
    FromByte(w, 0, off + |data|, off);
    DroppedIsEmpty(f, off, off + |data|);
    StoredConcat(b, [Interval(off, data)] + DropKey(f, off));
    StoredCons(Interval(off, data), DropKey(f, off));
    StoredConcat(b, f);
  }

  lemma {:induction false} DroppedIsEmpty(f: seq<Interval>, off: nat, end: nat)
    requires SortedFrom(f, end) && (off < end || ByteIn(f, off).None?)
    ensures Stored(DropKey(f, off)) == Stored(f)
  {
    if f != [] && f[0].off == off {
      assert f[0].data == [];
    }
  }

  lemma {:induction false} PutOverEmpty(w: seq<Interval>, k: nat, off: nat, data: Bytes, n: nat)
    requires Sorted(w) && 0 < k <= |w| && w[k - 1].off == off && w[k - 1].data == [] && data != []
    requires forall j :: 0 <= j < k ==> w[j].End() <= off
    requires var t := Trimmed(w, k, off, off + |data|);
             n <= |t| && (forall j :: 0 <= j < n ==> t[j].off < off) && (n < |t| ==> t[n].off >= off)
    ensures var t := Trimmed(w, k, off, off + |data|);
            t[..n] + ([Interval(off, data)] + DropKey(t[n..], off)) == Inserted(w, off, data)
    ensures Stored(Inserted(w, off, data)) == Stored(Trimmed(w, k, off, off + |data|)) + |data|
  {
    hide Stored, ByteIn, Before, From, SortedFrom;
    var end := off + |data|;
    var t, f := Trimmed(w, k, off, end), From(w[k..], end);
    OverEmptyParts(w, k, off, data);
    assert t == w[..k - 1] + ([w[k - 1]] + f);
    assert t[k - 1] == w[k - 1];
    assert n == k - 1;
    assert t[..n] == w[..k - 1] && t[n..] == [w[k - 1]] + f;
    StoredSwap(w[..k - 1], w[k - 1], Interval(off, data), f);
  }

  lemma {:induction false} OverEmptyParts(w: seq<Interval>, k: nat, off: nat, data: Bytes)
    requires Sorted(w) && 0 < k <= |w| && w[k - 1].off == off && w[k - 1].data == [] && data != []
    requires forall j :: 0 <= j < k ==> w[j].End() <= off
    ensures forall j :: 0 <= j < k - 1 ==> w[j].off < off
    ensures Before(w, off) == w[..k - 1] && Before(w[k..], off) == []
    ensures var f := From(w[k..], off + |data|); From(w, off + |data|) == f && DropKey(f, off) == f
  {
    hide Stored, ByteIn, Before, From;
    forall j | 0 <= j < k - 1
      ensures w[j].off < off
    {
      KeysFollow(w, 0, j, k - 1);
    }
    SkipBefore(w, k - 1, off);
    SkipFrom(w, k, off + |data|);
    NoneBefore(w, k, off);
    FromSorted(w, 0, off + |data|);
  }

  lemma {:induction false} StoredSwap(pre: seq<Interval>, x: Interval, y: Interval, post: seq<Interval>)
    ensures Stored(pre + ([y] + post)) + |x.data| == Stored(pre + ([x] + post)) + |y.data|
  {
    hide Stored;
    StoredConcat(pre, [x] + post);
    StoredCons(x, post);
    StoredConcat(pre, [y] + post);
    StoredCons(y, post);
  }

  lemma {:induction false} NoneBefore(w: seq<Interval>, k: nat, off: nat)
    requires Sorted(w) && 0 < k <= |w| && w[k - 1].off == off
    ensures Before(w[k - 1..], off) == [] && Before(w[k..], off) == []
  {
    if k < |w| {
      KeysFollow(w, 0, k - 1, k);
    }
  }

  /** Replacing `v` by its uncovered ends changes the stored bytes by the bytes it loses. */
  lemma {:induction false} TrimStored(a: seq<Interval>, v: Interval, off: nat, end: nat, z: seq<Interval>)
    requires off <= end && off < v.End() && v.off < end
    ensures Stored(a + LeftPart(v, off) + RightPart(v, end) + z) ==
              Stored(a + [v] + z) - |v.data|
              + (if v.off < off then off - v.off else 0) + (if v.End() > end then v.End() - end else 0)
  {
    var l, r := LeftPart(v, off), RightPart(v, end);
    StoredConcat(a + l + r, z);
    StoredConcat(a + l, r);
    StoredConcat(a, l);
    StoredConcat(a + [v], z);
    StoredConcat(a, [v]);
    StoredCons(v, []);
    if l != [] {
      StoredCons(l[0], []);
    }
    if r != [] {
      StoredCons(r[0], []);
    }
  }

  /** Insert an interval, trimming whatever it overlaps; returns the map and the change in dirty
      bytes. Scans the keys below the new end downwards while they reach past `off`, as the
      source does over its ordered map. */
  method Insert(w: seq<Interval>, off: nat, data: Bytes) returns (w': seq<Interval>, delta: int)
    requires Sorted(w)
    ensures w' == Inserted(w, off, data) && Sorted(w')
    ensures data != [] || ByteIn(w, off).None? ==> delta == Stored(w') - Stored(w)
  {
    hide Before, From, Stored, Sorted, ByteIn;
    var end := off + |data|;
    var hi := 0;
    while hi < |w| && w[hi].off < end
      invariant 0 <= hi <= |w|
      invariant forall k :: 0 <= k < hi ==> w[k].off < end
    {
      hi := hi + 1;
    }
    var t, k, d := Trim(w, off, end, hi);
    var n := 0;
    while n < |t| && t[n].off < off
      invariant 0 <= n <= |t|
      invariant forall j :: 0 <= j < n ==> t[j].off < off
    {
      n := n + 1;
    }
    PutLast(w, k, off, data, n);
    InsertKeepsSorted(w, off, data);
    w', delta := t[..n] + ([Interval(off, data)] + DropKey(t[n..], off)), d + |data|;
  }

  /** The removal loop of `Insert`: every overlapping interval is taken out and its uncovered
      ends are put back. */
  method Trim(w: seq<Interval>, off: nat, end: nat, hi: nat) returns (t: seq<Interval>, k: nat, delta: int)
    requires Sorted(w) && hi <= |w| && off <= end
    requires forall j :: 0 <= j < hi ==> w[j].off < end
    requires hi < |w| ==> w[hi].off >= end
    ensures k <= hi && t == Trimmed(w, k, off, end)
    ensures forall j :: 0 <= j < k ==> w[j].End() <= off
    ensures delta == Stored(t) - Stored(w)
  {
    hide Stored, Before, From, SortedFrom;
    k, t, delta := hi, w, 0;
    TrimStart(w, hi, off, end);
    while k > 0 && w[k - 1].End() > off
      invariant 0 <= k <= hi
      invariant t == Trimmed(w, k, off, end)
      invariant delta == Stored(t) - Stored(w)
      decreases k
    {
      k := k - 1;
      var v := w[k];
      TrimStep(w, k, off, end);
      ghost var f := From(w[k + 1..], end);
      assert t == w[..k] + [v] + f;
      TrimStored(w[..k], v, off, end, f);
      assert t[..k] == w[..k] && t[k + 1..] == f;
      t := t[..k] + LeftPart(v, off) + RightPart(v, end) + t[k + 1..];
      delta := delta - |v.data|;
      if v.off < off {
        delta := delta + (off - v.off);
      }
      if v.End() > end {
        delta := delta + (v.End() - end);
      }
    }
    forall j | 0 <= j < k
      ensures w[j].End() <= off
    {
      if j < k - 1 {
        KeysFollow(w, 0, j, k - 1);
      }
    }
  }
}
