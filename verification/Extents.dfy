/** The extent allocator of the chunk region: first fit over a sorted free list, a tail that only
    grows, and the merge that folds deferred extents back in. Conservation is stated by counting,
    for each byte, how many extents of a list cover it. */
module Extents {
  import opened Cells

  datatype Extent = Extent(off: nat, len: nat)

  predicate Has(e: Extent, p: int) {
    e.off <= p < e.off + e.len
  }

  function Once(e: Extent, p: int): nat {
    if Has(e, p) then 1 else 0
  }

  /** How many extents of the list cover byte `p`. */
  function Count(es: seq<Extent>, p: int): nat {
    if es == [] then 0 else Once(es[0], p) + Count(es[1..], p)
  }

  /** As `Count`, with the untouched space from `tail` on as one more extent. */
  function Avail(free: seq<Extent>, tail: nat, p: int): nat {
    Count(free, p) + if p >= tail then 1 else 0
  }

  lemma {:induction false} CountConcat(a: seq<Extent>, b: seq<Extent>, p: int)
    ensures Count(a + b, p) == Count(a, p) + Count(b, p)
  {
    if a == [] {
      assert a + b == b;
    } else {
      assert (a + b)[1..] == a[1..] + b;
      CountConcat(a[1..], b, p);
    }
  }

  lemma {:induction false} CountOne(e: Extent, p: int)
    ensures Count([e], p) == Once(e, p)
  {
    assert Count([e], p) == Once(e, p) + Count([e][1..], p);
  }

  lemma {:induction false} CountSplit(s: seq<Extent>, i: nat, p: int)
    requires i < |s|
    ensures Count(s, p) == Count(s[..i], p) + Once(s[i], p) + Count(s[i + 1..], p)
  {
    assert s == s[..i] + ([s[i]] + s[i + 1..]);
    CountConcat(s[..i], [s[i]] + s[i + 1..], p);
    CountConcat([s[i]], s[i + 1..], p);
    CountOne(s[i], p);
  }

  lemma {:induction false} CountTwice(s: seq<Extent>, i: nat, j: nat, p: int)
    requires i < j < |s| && Has(s[i], p) && Has(s[j], p)
    ensures Count(s, p) >= 2
  {
    CountSplit(s, i, p);
    CountSplit(s[i + 1..], j - i - 1, p);
  }

  predicate Ordered(s: seq<Extent>) {
    && (forall i :: 0 <= i < |s| ==> s[i].len > 0)
    && (forall i, j :: 0 <= i < j < |s| ==> s[i].off + s[i].len <= s[j].off)
  }

  /** Take the front of extent `i`. */
  function Carve(free: seq<Extent>, i: nat, need: nat): seq<Extent>
    requires i < |free| && free[i].len >= need
  {
    if free[i].len > need then free[i := Extent(free[i].off + need, free[i].len - need)]
    else free[..i] + free[i + 1..]
  }

  /** Some extent of the list is as long. */
  ghost predicate NoLonger(e: Extent, free: seq<Extent>) {
    exists j :: 0 <= j < |free| && e.len <= free[j].len
  }

  lemma {:induction false} CarveShorter(free: seq<Extent>, i: nat, need: nat)
    requires i < |free| && free[i].len >= need
    ensures forall k :: 0 <= k < |Carve(free, i, need)| ==> NoLonger(Carve(free, i, need)[k], free)
  {
    var c := Carve(free, i, need);
    forall k | 0 <= k < |c|
      ensures NoLonger(c[k], free)
    {
      var j := if free[i].len > need || k < i then k else k + 1;
      assert c[k].len <= free[j].len;
    }
  }

  lemma {:induction false} CarveOrdered(free: seq<Extent>, i: nat, need: nat)
    requires i < |free| && free[i].len >= need && Ordered(free)
    ensures Ordered(Carve(free, i, need))
  {
    var r := Carve(free, i, need);
    if free[i].len == need {
      assert forall k :: 0 <= k < |r| ==> r[k] == free[if k < i then k else k + 1];
    }
  }

  lemma {:induction false} CarveCount(free: seq<Extent>, i: nat, need: nat, p: int)
    requires i < |free| && free[i].len >= need
    ensures Count(free, p) == Count(Carve(free, i, need), p) + Once(Extent(free[i].off, need), p)
  {
    hide Count;
    var r := Carve(free, i, need);
    CountSplit(free, i, p);
    if free[i].len > need {
      assert r[..i] == free[..i] && r[i + 1..] == free[i + 1..];
      CountSplit(r, i, p);
    } else {
      CountConcat(free[..i], free[i + 1..], p);
    }
  }

  /** First fit from the free list, else bump the tail. The extent handed out leaves the available
      space exactly once, and nothing else changes. */
  ghost predicate FirstAt(free: seq<Extent>, need: nat, i: nat) {
    i < |free| && free[i].len >= need && forall j :: 0 <= j < i ==> free[j].len < need
  }

  /** Space is taken from the front of the first free extent that is long enough; the tail moves only when none is, and
      then the free list stays as it is. */
  ghost predicate FirstFit(free: seq<Extent>, tail: nat, need: nat, off: nat, free': seq<Extent>, tail': nat) {
    if exists i :: 0 <= i < |free| && free[i].len >= need
    then tail' == tail && exists i: nat :: FirstAt(free, need, i) && off == free[i].off
    else off == tail && tail' == tail + need && free' == free
  }

  method Alloc(free: seq<Extent>, tail: nat, need: nat, limit: nat)
    returns (off: Option<nat>, free': seq<Extent>, tail': nat)
    requires Ordered(free) && need > 0
    ensures Ordered(free') && tail <= tail'
    ensures off.None? <==> tail + need > limit && forall i :: 0 <= i < |free| ==> free[i].len < need
    ensures off.None? ==> free' == free && tail' == tail
    ensures off.Some? ==> |free'| <= |free| <= |free'| + 1 && (tail' <= limit || tail' == tail)
    ensures forall i :: 0 <= i < |free'| ==> NoLonger(free'[i], free)
    ensures off.Some? ==>
      forall p :: Avail(free, tail, p) == Avail(free', tail', p) + Once(Extent(off.value, need), p)
    ensures off.Some? ==> FirstFit(free, tail, need, off.value, free', tail')
  {
    hide Count, Ordered;
    var i := 0;
    while i < |free| && free[i].len < need
      invariant 0 <= i <= |free|
      invariant forall j :: 0 <= j < i ==> free[j].len < need
    {
      i := i + 1;
    }
    if i < |free| {
      off, tail' := Some(free[i].off), tail;
      assert FirstAt(free, need, i);
      free' := Carve(free, i, need);
      CarveOrdered(free, i, need);
      CarveShorter(free, i, need);
      forall p
        ensures Count(free, p) == Count(free', p) + Once(Extent(free[i].off, need), p)
      {
        CarveCount(free, i, need, p);
      }
    } else if tail + need <= limit {
      off, free', tail' := Some(tail), free, tail + need;
    } else {
      off, free', tail' := None, free, tail;
    }
  }

  // ── Sorting ──

  function InsertByOff(s: seq<Extent>, e: Extent): (r: seq<Extent>)
    ensures |r| == |s| + 1
    ensures multiset(r) == multiset(s) + multiset{e}
  {
    if s == [] || e.off <= s[0].off then [e] + s
    else
      assert s == [s[0]] + s[1..];
      [s[0]] + InsertByOff(s[1..], e)
  }

  function SortByOff(s: seq<Extent>): (r: seq<Extent>)
    ensures |r| == |s|
    ensures multiset(r) == multiset(s)
  {
    if s == [] then [] else
      assert s == [s[0]] + s[1..];
      InsertByOff(SortByOff(s[1..]), s[0])
  }

  predicate SortedByOff(s: seq<Extent>) {
    forall i, j :: 0 <= i < j < |s| ==> s[i].off <= s[j].off
  }

  lemma {:induction false} InsertProps(s: seq<Extent>, e: Extent, p: int)
    requires SortedByOff(s)
    ensures SortedByOff(InsertByOff(s, e))
    ensures Count(InsertByOff(s, e), p) == Count(s, p) + Once(e, p)
  {
    if s == [] || e.off <= s[0].off {
      assert ([e] + s)[1..] == s;
    } else {
      InsertProps(s[1..], e, p);
      var r := InsertByOff(s[1..], e);
      InsertFrom(s[1..], e);
      hide InsertByOff;
      assert ([s[0]] + r)[1..] == r;
      assert forall k :: 0 <= k < |r| ==> s[0].off <= r[k].off;
    }
  }

  lemma {:induction false} InsertFrom(s: seq<Extent>, e: Extent)
    ensures forall k :: 0 <= k < |InsertByOff(s, e)| ==> InsertByOff(s, e)[k] in s + [e]
  {
    var r := InsertByOff(s, e);
    forall k | 0 <= k < |r|
      ensures r[k] in s + [e]
    {
      assert r[k] in multiset(r);
    }
  }

  lemma {:induction false} SortProps(s: seq<Extent>, p: int)
    ensures SortedByOff(SortByOff(s)) && Count(SortByOff(s), p) == Count(s, p)
  {
    if s != [] {
      SortProps(s[1..], p);
      InsertProps(SortByOff(s[1..]), s[0], p);
    }
  }

  lemma {:induction false} DisjointIsOrdered(s: seq<Extent>)
    requires SortedByOff(s)
    requires forall i :: 0 <= i < |s| ==> s[i].len > 0
    requires forall p :: Count(s, p) <= 1
    ensures Ordered(s)
  {
    forall i, j | 0 <= i < j < |s|
      ensures s[i].off + s[i].len <= s[j].off
    {
      if s[j].off < s[i].off + s[i].len {
        CountTwice(s, i, j, s[j].off);
      }
    }
  }

  /** No two extents of the list touch. */
  predicate Gapped(s: seq<Extent>) {
    forall i :: 0 < i < |s| ==> s[i - 1].off + s[i - 1].len < s[i].off
  }

  /** The free list as the next commit will record it: the same bytes, sorted, with adjacent
      extents merged, and never more extents than before. */
  method MergedFree(free: seq<Extent>, pending: seq<Extent>) returns (merged: seq<Extent>)
    requires forall i :: 0 <= i < |free| ==> free[i].len > 0
    requires forall i :: 0 <= i < |pending| ==> pending[i].len > 0
    requires forall p :: Count(free, p) + Count(pending, p) <= 1
    ensures forall p :: Count(merged, p) == Count(free, p) + Count(pending, p)
    ensures |merged| <= |free| + |pending|
    ensures Ordered(merged) && Gapped(merged)
  {
    SortedDisjoint(free, pending);
    hide Count;
    merged := MergeAdjacent(SortByOff(free + pending));
  }

  /** The loop computes the source's map for every list, and folds adjacent extents of an ordered one. */
  method MergeAdjacent(all: seq<Extent>) returns (merged: seq<Extent>)
    ensures MapOf(merged) == Merged(all)
    ensures Ordered(all) ==> Folded(merged, all)
  {
    hide Count, Ordered, Folded, MergeAll, MapOf;
    FoldedNil();
    MergeNone();
    merged := [];
    var cur: Option<Extent> := None;
    var i := 0;
    assert merged + Hold(cur) == all[..0] == [];
    while i < |all|
      invariant 0 <= i <= |all|
      invariant Ordered(all) ==> Folded(merged + Hold(cur), all[..i])
      invariant cur.None? ==> i == 0 && merged == []
      invariant Merging(cur, MapOf(merged)) == MergeAll(all[..i])
    {
      var e := all[i];
      ghost var was := merged + Hold(cur);
      ghost var n := |merged|;
      assert all[..i + 1] == all[..i] + [e];
      MergeNext(all[..i], e);
      MapMore(merged, e);
      if cur.Some? {
        MapMore(merged, cur.value);
      }
      if cur.Some? && cur.value.off + cur.value.len == e.off {
        assert was[n] == cur.value;
        cur := Some(Extent(cur.value.off, cur.value.len + e.len));
        if Ordered(all) {
          MergeStep(was, n, all, i);
        }
        assert merged + Hold(cur) == was[n := cur.value];
      } else {
        assert cur.Some? ==> was[n] == cur.value;
        if cur.Some? {
          merged := merged + [cur.value];
        }
        cur := Some(e);
        if Ordered(all) {
          PushStep(was, all, i);
        }
        assert merged + Hold(cur) == was + [e];
      }
      i := i + 1;
    }
    assert all[..i] == all;
    if cur.Some? {
      MapMore(merged, cur.value);
      merged := merged + [cur.value];
    } else {
      assert merged + Hold(cur) == merged;
    }
  }

  /** A list of extents as a map from offsets, as the source keeps it. */
  function MapOf(es: seq<Extent>): map<nat, nat> {
    if es == [] then map[] else MapOf(es[..|es| - 1])[es[|es| - 1].off := es[|es| - 1].len]
  }

  lemma {:induction false} MapMore(es: seq<Extent>, e: Extent)
    ensures MapOf(es + [e]) == MapOf(es)[e.off := e.len]
  {
    assert (es + [e])[..|es|] == es;
  }

  /** `out` covers what `done` covers, with adjacent extents merged. */
  ghost predicate Folded(out: seq<Extent>, done: seq<Extent>) {
    && (forall p :: Count(out, p) == Count(done, p))
    && |out| <= |done| && Ordered(out) && Gapped(out)
    && (out == [] <==> done == [])
    && (out != [] ==> var o, d := out[|out| - 1], done[|done| - 1]; o.off + o.len == d.off + d.len)
  }

  function Hold(cur: Option<Extent>): seq<Extent> {
    if cur.Some? then [cur.value] else []
  }

  lemma {:induction false} SortedDisjoint(free: seq<Extent>, pending: seq<Extent>)
    requires forall i :: 0 <= i < |free| ==> free[i].len > 0
    requires forall i :: 0 <= i < |pending| ==> pending[i].len > 0
    requires forall p :: Count(free, p) + Count(pending, p) <= 1
    ensures Ordered(SortByOff(free + pending))
    ensures forall p :: Count(SortByOff(free + pending), p) == Count(free, p) + Count(pending, p)
  {
    var all := SortByOff(free + pending);
    forall p
      ensures SortedByOff(all) && Count(all, p) == Count(free, p) + Count(pending, p)
    {
      SortProps(free + pending, p);
      CountConcat(free, pending, p);
    }
    SortProps(free + pending, 0);
    forall i | 0 <= i < |all|
      ensures all[i].len > 0
    {
      assert all[i] in multiset(all);
      assert all[i] in free + pending;
    }
    DisjointIsOrdered(all);
  }

  lemma {:induction false} FoldedNil()
    ensures Folded([], [])
  {
  }

  lemma {:induction false} PushStep(was: seq<Extent>, all: seq<Extent>, i: nat)
    requires i < |all| && Ordered(all) && Folded(was, all[..i])
    requires was != [] ==> was[|was| - 1].off + was[|was| - 1].len != all[i].off
    ensures Folded(was + [all[i]], all[..i] + [all[i]])
  {
    var done, e := all[..i], all[i];
    forall p
      ensures Count(was + [e], p) == Count(done + [e], p)
    {
      hide Ordered, Gapped;
      CountConcat(was, [e], p);
      CountConcat(done, [e], p);
    }
  }

  lemma {:induction false} MergeStep(was: seq<Extent>, n: nat, all: seq<Extent>, i: nat)
    requires i < |all| && Ordered(all) && Folded(was, all[..i])
    requires |was| == n + 1 && was[n].off + was[n].len == all[i].off
    ensures Folded(was[n := Extent(was[n].off, was[n].len + all[i].len)], all[..i] + [all[i]])
  {
    var done, e := all[..i], all[i];
    var m := was[n := Extent(was[n].off, was[n].len + e.len)];
    forall p
      ensures Count(m, p) == Count(done + [e], p)
    {
      CountConcat(done, [e], p);
      CountOne(e, p);
      CountSplit(was, n, p);
      CountSplit(m, n, p);
      assert m[..n] == was[..n] && m[n + 1..] == was[n + 1..];
    }
  }

  // ── An extent pushed twice ──

  /** The merge loop's state: the extent being grown, and the finished ones by offset. */
  datatype Merging = Merging(cur: Option<Extent>, done: map<nat, nat>)

  function Finish(m: Merging): map<nat, nat> {
    if m.cur.Some? then m.done[m.cur.value.off := m.cur.value.len] else m.done
  }

  function MergeOne(m: Merging, e: Extent): Merging {
    if m.cur.Some? && m.cur.value.off + m.cur.value.len == e.off
    then Merging(Some(Extent(m.cur.value.off, m.cur.value.len + e.len)), m.done)
    else Merging(Some(e), Finish(m))
  }

  function MergeAll(all: seq<Extent>): Merging {
    if all == [] then Merging(None, map[]) else MergeOne(MergeAll(all[..|all| - 1]), all[|all| - 1])
  }

  /** The free list as the loop leaves it in its map. */
  function Merged(all: seq<Extent>): map<nat, nat> {
    Finish(MergeAll(all))
  }

  lemma {:induction false} MergeNone()
    ensures MergeAll([]) == Merging(None, map[]) && MapOf([]) == map[]
  {
  }

  lemma {:induction false} MergeNext(all: seq<Extent>, e: Extent)
    ensures MergeAll(all + [e]) == MergeOne(MergeAll(all), e)
  {
    assert (all + [e])[..|all|] == all;
  }

  function End(e: Extent): nat {
    e.off + e.len
  }

  /** Every key is the offset of some extent, and the growing one ends where the last one did. */
  lemma {:induction false} MergeKeys(all: seq<Extent>, bound: nat)
    requires forall i :: 0 <= i < |all| ==> all[i].off < bound
    ensures var m := MergeAll(all);
            && (m.cur.None? <==> all == [])
            && (m.cur.Some? ==> m.cur.value.off < bound)
            && (m.cur.Some? ==> End(m.cur.value) == End(all[|all| - 1]))
            && (forall k :: k in m.done ==> k < bound)
  {
    if all != [] {
      MergeKeys(all[..|all| - 1], bound);
    }
  }

  /** The two runs agree, or differ only in an entry that the growing extent will overwrite. */
  ghost predicate SameSoFar(a: Merging, b: Merging, e: Extent) {
    || a == b
    || (a.cur == b.cur && a.cur.Some? && a.cur.value.off == e.off && a.done == b.done[e.off := e.len])
  }

  lemma {:induction false} SameOn(pre: seq<Extent>, e: Extent, post: seq<Extent>)
    requires SameSoFar(MergeAll(pre + [e, e]), MergeAll(pre + [e]), e)
    ensures SameSoFar(MergeAll(pre + [e, e] + post), MergeAll(pre + [e] + post), e)
    decreases |post|
  {
    hide MergeAll, SameSoFar, MergeOne;
    if post == [] {
      assert pre + [e, e] + post == pre + [e, e] && pre + [e] + post == pre + [e];
    } else {
      var init, x := post[..|post| - 1], post[|post| - 1];
      SameOn(pre, e, init);
      assert pre + [e, e] + post == (pre + [e, e] + init) + [x] && pre + [e] + post == (pre + [e] + init) + [x];
      MergeNext(pre + [e, e] + init, x);
      MergeNext(pre + [e] + init, x);
      SameStep(MergeAll(pre + [e, e] + init), MergeAll(pre + [e] + init), e, x);
    }
  }

  lemma {:induction false} SameStep(a: Merging, b: Merging, e: Extent, x: Extent)
    requires SameSoFar(a, b, e)
    ensures SameSoFar(MergeOne(a, x), MergeOne(b, x), e)
  {
    if a != b {
      assert Finish(a) == Finish(b);
    }
  }

  /** The second copy, when the first did not join the extent before it, and when it did. */
  lemma {:induction false} SecondCopy(m: Merging, e: Extent)
    requires e.len > 0 && (m.cur.Some? ==> m.cur.value.off < e.off) && forall k :: k in m.done ==> k < e.off
    ensures var one := MergeOne(m, e); var two := MergeOne(one, e);
            if m.cur.Some? && End(m.cur.value) == e.off
            then Doubled(two, e, m.cur.value.off) && NotAt(one, e)
            else SameSoFar(two, one, e)
  {
  }

  ghost predicate NotAt(m: Merging, e: Extent) {
    e.off !in m.done && (m.cur.Some? ==> m.cur.value.off != e.off)
  }

  /** The second copy starts an extent of its own, inside one that was finished before it. */
  ghost predicate Doubled(a: Merging, e: Extent, k: nat) {
    && k < e.off && k in a.done && k + a.done[k] > e.off
    && (e.off in a.done || (a.cur.Some? && a.cur.value.off == e.off))
    && (a.cur.Some? ==> a.cur.value.off >= e.off)
  }

  lemma {:induction false} DoubledOn(pre: seq<Extent>, e: Extent, post: seq<Extent>, k: nat)
    requires Doubled(MergeAll(pre + [e, e]), e, k) && forall i :: 0 <= i < |post| ==> post[i].off > e.off
    ensures Doubled(MergeAll(pre + [e, e] + post), e, k)
    decreases |post|
  {
    hide MergeAll;
    if post == [] {
      assert pre + [e, e] + post == pre + [e, e];
    } else {
      var init, x := post[..|post| - 1], post[|post| - 1];
      DoubledOn(pre, e, init, k);
      assert pre + [e, e] + post == (pre + [e, e] + init) + [x];
      MergeNext(pre + [e, e] + init, x);
    }
  }

  lemma {:induction false} OnceOn(pre: seq<Extent>, e: Extent, post: seq<Extent>)
    requires forall i :: 0 <= i < |post| ==> post[i].off > e.off
    requires NotAt(MergeAll(pre + [e]), e)
    ensures NotAt(MergeAll(pre + [e] + post), e)
    decreases |post|
  {
    hide MergeAll;
    if post == [] {
      assert pre + [e] + post == pre + [e];
    } else {
      var init, x := post[..|post| - 1], post[|post| - 1];
      OnceOn(pre, e, init);
      assert pre + [e] + post == (pre + [e] + init) + [x];
      MergeNext(pre + [e] + init, x);
    }
  }

  /** A commit that fails after deferring the old index frame is followed by one that defers it again. Merging
      removes the second copy if and only if no free extent ends where the frame begins; otherwise the frame is free
      twice over, once within the extent before it and once by itself. */
  lemma {:induction false} DuplicateExact(pre: seq<Extent>, e: Extent, post: seq<Extent>)
    requires Ordered(pre + [e] + post)
    ensures Merged(pre + [e, e] + post) == Merged(pre + [e] + post) <==> pre == [] || End(pre[|pre| - 1]) != e.off
    ensures pre != [] && End(pre[|pre| - 1]) == e.off ==> Overlapping(Merged(pre + [e, e] + post), e.off)
  {
    hide Ordered, MergeAll, MergeOne, Doubled, SameSoFar, NotAt, End;
    BeforeFrame(pre, e, post);
    MergeKeys(pre, e.off);
    MergeNext(pre, e);
    assert pre + [e, e] == (pre + [e]) + [e];
    MergeNext(pre + [e], e);
    SecondCopy(MergeAll(pre), e);
    if pre == [] || End(pre[|pre| - 1]) != e.off {
      SameOn(pre, e, post);
      SameEnd(MergeAll(pre + [e, e] + post), MergeAll(pre + [e] + post), e);
    } else {
      var k := MergeAll(pre).cur.value.off;
      DoubledOn(pre, e, post, k);
      OnceOn(pre, e, post);
      DoubledEnd(MergeAll(pre + [e, e] + post), MergeAll(pre + [e] + post), e, k);
    }
  }

  /** Two entries hold the byte at `p`. */
  ghost predicate Overlapping(m: map<nat, nat>, p: nat) {
    p in m && exists k :: k in m && k < p < k + m[k]
  }

  lemma {:induction false} SameEnd(a: Merging, b: Merging, e: Extent)
    requires SameSoFar(a, b, e)
    ensures Finish(a) == Finish(b)
  {
  }

  lemma {:induction false} DoubledEnd(a: Merging, b: Merging, e: Extent, k: nat)
    requires Doubled(a, e, k) && NotAt(b, e)
    ensures Finish(a) != Finish(b) && Overlapping(Finish(a), e.off)
  {
    assert e.off in Finish(a) && e.off !in Finish(b);
    assert k in Finish(a) && k < e.off < k + Finish(a)[k];
  }

  lemma {:induction false} BeforeFrame(pre: seq<Extent>, e: Extent, post: seq<Extent>)
    requires Ordered(pre + [e] + post)
    ensures e.len > 0 && (forall i :: 0 <= i < |pre| ==> pre[i].off < e.off)
    ensures forall i :: 0 <= i < |post| ==> post[i].off > e.off
  {
    var all := pre + [e] + post;
    assert all[|pre|] == e;
    forall i | 0 <= i < |pre| ensures pre[i].off < e.off {
      assert all[i] == pre[i];
    }
    forall i | 0 <= i < |post| ensures post[i].off > e.off {
      assert all[|pre| + 1 + i] == post[i];
    }
  }
}
