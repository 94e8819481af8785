/** Canonical directory trees: cutting a level into nodes, saving and loading. The split test is any
    function of an item's stored form. */
module Prolly {
  import opened Cells
  import opened Entries
  import opened NodeLevels

  // ── Directories: entries in strict name order ──

  predicate Less(a: Bytes, b: Bytes) {
    b != [] && (a == [] || a[0] < b[0] || (a[0] == b[0] && Less(a[1..], b[1..])))
  }

  lemma {:induction false} LessTrans(a: Bytes, b: Bytes, c: Bytes)
    requires Less(a, b) && Less(b, c)
    ensures Less(a, c)
    decreases |c|
  {
    if a != [] && a[0] == b[0] && b[0] == c[0] {
      LessTrans(a[1..], b[1..], c[1..]);
    }
  }

  lemma {:induction false} LessTotal(a: Bytes, b: Bytes)
    ensures Less(a, b) || Less(b, a) || a == b
    ensures !(Less(a, b) && Less(b, a)) && (a == b ==> !Less(a, b))
    decreases |a|
  {
    if a != [] && b != [] && a[0] == b[0] {
      LessTotal(a[1..], b[1..]);
      assert a == [a[0]] + a[1..] && b == [b[0]] + b[1..];
    }
  }

  predicate Sorted(d: seq<Entry>) {
    |d| <= 1 || (Less(d[0].name, d[1].name) && Sorted(d[1..]))
  }

  predicate Directory(d: seq<Entry>) {
    AllValid(d) && Sorted(d)
  }

  function Get(d: seq<Entry>, n: Bytes): Option<Entry> {
    if d == [] then None else if d[0].name == n then Some(d[0]) else Get(d[1..], n)
  }

  function Upsert(d: seq<Entry>, e: Entry): seq<Entry> {
    if d == [] || Less(e.name, d[0].name) then [e] + d
    else if d[0].name == e.name then [e] + d[1..]
    else [d[0]] + Upsert(d[1..], e)
  }

  function Remove(d: seq<Entry>, n: Bytes): seq<Entry> {
    if d == [] then [] else if d[0].name == n then d[1..] else [d[0]] + Remove(d[1..], n)
  }

  /** Nothing sorted after `n` is named `n`. */
  lemma {:induction false} GetAbove(d: seq<Entry>, n: Bytes)
    requires Sorted(d) && (d != [] ==> Less(n, d[0].name))
    ensures Get(d, n) == None
    decreases |d|
  {
    if d != [] {
      LessTotal(n, d[0].name);
      if |d| > 1 {
        LessTrans(n, d[0].name, d[1].name);
      }
      GetAbove(d[1..], n);
    }
  }

  lemma {:induction false} UpsertGet(d: seq<Entry>, e: Entry, n: Bytes)
    requires Sorted(d)
    ensures Get(Upsert(d, e), n) == if n == e.name then Some(e) else Get(d, n)
    decreases |d|
  {
    if d != [] {
      LessTotal(e.name, d[0].name);
    }
    if d != [] && !Less(e.name, d[0].name) && d[0].name != e.name {
      UpsertGet(d[1..], e, n);
    } else if d != [] && d[0].name == e.name {
      assert Upsert(d, e)[1..] == d[1..];
    } else {
      assert Upsert(d, e)[1..] == d;
    }
  }

  lemma {:induction false} RemoveGet(d: seq<Entry>, m: Bytes, n: Bytes)
    requires Sorted(d)
    ensures Get(Remove(d, m), n) == if n == m then None else Get(d, n)
    decreases |d|
  {
    if d != [] {
      if d[0].name != m {
        RemoveGet(d[1..], m, n);
      } else if n == m {
        GetAbove(d[1..], m);
      }
    }
  }

  lemma {:induction false} UpsertDirectory(d: seq<Entry>, e: Entry)
    requires Directory(d) && ValidEntry(e)
    ensures Directory(Upsert(d, e)) && Upsert(d, e) != []
    ensures d != [] && !Less(e.name, d[0].name) ==> Upsert(d, e)[0].name == d[0].name
    decreases |d|
  {
    ValidNamed(e);
    if d != [] && !Less(e.name, d[0].name) {
      LessTotal(e.name, d[0].name);
      if d[0].name != e.name {
        UpsertDirectory(d[1..], e);
        assert Upsert(d, e)[1..] == Upsert(d[1..], e);
      } else {
        assert Upsert(d, e)[1..] == d[1..];
      }
    } else {
      assert Upsert(d, e)[1..] == d;
    }
  }

  lemma {:induction false} RemoveDirectory(d: seq<Entry>, n: Bytes)
    requires Directory(d)
    ensures Directory(Remove(d, n))
    ensures |d| > 0 && Remove(d, n) != [] && d[0].name != n ==> Remove(d, n)[0].name == d[0].name
    ensures |d| > 1 && d[0].name == n ==> Remove(d, n) == d[1..]
    decreases |d|
  {
    if d != [] && d[0].name != n {
      RemoveDirectory(d[1..], n);
      assert Remove(d, n)[1..] == Remove(d[1..], n);
      if |d| > 2 && d[1].name == n {
        LessTrans(d[0].name, d[1].name, d[2].name);
      }
    }
  }

  lemma {:induction false} GetValid(d: seq<Entry>, n: Bytes)
    requires AllValid(d) && Get(d, n).Some?
    ensures ValidEntry(Get(d, n).value) && Get(d, n).value.name == n && Get(d, n).value in d
    decreases |d|
  {
    if d[0].name != n {
      GetValid(d[1..], n);
    }
  }

  // ── Cutting a level into nodes ──

  /** The length of the next block, `count` items of it being already taken. */
  function CutLen(flags: seq<bool>, count: nat): (k: nat)
    requires flags != [] && count < MAX_NODE_ENTRIES
    ensures 1 <= k <= |flags| && count + k <= MAX_NODE_ENTRIES
    ensures k < |flags| ==> flags[k - 1] || count + k == MAX_NODE_ENTRIES
    ensures forall i :: 0 <= i < k - 1 ==> !flags[i]
  {
    if flags[0] || count + 1 == MAX_NODE_ENTRIES || |flags| == 1 then 1
    else 1 + CutLen(flags[1..], count + 1)
  }

  function BlockEnds(flags: seq<bool>, from: nat): seq<nat>
    decreases |flags|
  {
    if flags == [] then [] else
      var k := CutLen(flags, 0);
      [from + k] + BlockEnds(flags[k..], from + k)
  }

  /** The blocks ending in `ends` cover the items before `start`. */
  ghost predicate SplitUpto(flags: seq<bool>, start: nat, ends: seq<nat>) {
    start <= |flags| && ends + BlockEnds(flags[start..], start) == BlockEnds(flags, 0)
  }

  lemma {:induction false} SplitMore(flags: seq<bool>, start: nat, ends: seq<nat>)
    requires start < |flags| && SplitUpto(flags, start, ends)
    ensures var end := start + CutLen(flags[start..], 0); SplitUpto(flags, end, ends + [end])
  {
    hide CutLen;
    var k := CutLen(flags[start..], 0);
    assert flags[start..][k..] == flags[start + k..];
    var rest := BlockEnds(flags[start + k..], start + k);
    assert ends + ([start + k] + rest) == ends + [start + k] + rest;
  }

  lemma {:induction false} SplitEnd(flags: seq<bool>, ends: seq<nat>)
    requires SplitUpto(flags, |flags|, ends)
    ensures ends == BlockEnds(flags, 0)
  {
    assert flags[|flags|..] == [];
    assert ends + [] == ends;
  }

  method SplitPoints(flags: seq<bool>) returns (ends: seq<nat>)
    ensures ends == BlockEnds(flags, 0)
  {
    hide SplitUpto, BlockEnds;
    ends := [];
    var start, i := 0, 0;
    assert SplitUpto(flags, 0, []) by {
      SplitNone(flags);
    }
    while i < |flags|
      invariant 0 <= start <= i <= |flags| && i - start < MAX_NODE_ENTRIES
      invariant i == |flags| ==> start == i
      invariant SplitUpto(flags, start, ends)
      invariant i < |flags| ==> CutLen(flags[start..], 0) == i - start + CutLen(flags[i..], i - start)
    {
      assert flags[i..][0] == flags[i];
      assert i + 1 < |flags| ==> flags[i..][1..] == flags[i + 1..];
      if flags[i] || i - start + 1 == MAX_NODE_ENTRIES || i + 1 == |flags| {
        SplitMore(flags, start, ends);
        ends := ends + [i + 1];
        start := i + 1;
      }
      i := i + 1;
    }
    SplitEnd(flags, ends);
  }

  lemma {:induction false} SplitNone(flags: seq<bool>)
    ensures SplitUpto(flags, 0, [])
  {
    hide BlockEnds;
    assert flags[0..] == flags;
  }

  function Flat(images: seq<seq<Cell>>): seq<Cell> {
    if images == [] then [] else images[0] + Flat(images[1..])
  }

  function NodeCells(level: nat, images: seq<seq<Cell>>): seq<Cell>
    requires level <= 255
  {
    Lift([level] + Le(|images|, 4)) + Flat(images)
  }

  function Flags(images: seq<seq<Cell>>, cut: seq<Cell> -> bool): (f: seq<bool>)
    ensures |f| == |images|
  {
    seq(|images|, i requires 0 <= i < |images| => cut(images[i]))
  }

  /** The nodes of one level: each stands for a block of items under the block's first key. */
  function Level(level: nat, keys: seq<Bytes>, images: seq<seq<Cell>>, cut: seq<Cell> -> bool): seq<Child>
    requires level <= 255 && |keys| == |images|
    decreases |keys|
  {
    if keys == [] then [] else
      var k := CutLen(Flags(images, cut), 0);
      [Child(keys[0], Of(NodeCells(level, images[..k])))] + Level(level, keys[k..], images[k..], cut)
  }

  function HashesOfNodes(ks: seq<Child>): set<Hash> {
    set i | 0 <= i < |ks| :: ks[i].hash
  }

  function Concat(blocks: seq<seq<seq<Cell>>>): seq<seq<Cell>> {
    if blocks == [] then [] else blocks[0] + Concat(blocks[1..])
  }

  /** The nodes hold the items in order, one block each. */
  ghost predicate Grouped(level: nat, images: seq<seq<Cell>>, blocks: seq<seq<seq<Cell>>>, nodes: seq<Child>)
    requires level <= 255
  {
    && Concat(blocks) == images && |blocks| == |nodes|
    && forall i :: 0 <= i < |nodes| ==> nodes[i].hash == Of(NodeCells(level, blocks[i]))
  }

  /** The blocks of a level's items. */
  function Pieces(images: seq<seq<Cell>>, cut: seq<Cell> -> bool): seq<seq<seq<Cell>>>
    decreases |images|
  {
    if images == [] then [] else
      var k := CutLen(Flags(images, cut), 0);
      [images[..k]] + Pieces(images[k..], cut)
  }

  lemma {:induction false} PiecesEnd(images: seq<seq<Cell>>, cut: seq<Cell> -> bool)
    ensures EndsRight(Pieces(images, cut), cut) && (images != [] ==> Pieces(images, cut) != [])
    decreases |images|
  {
    if images != [] {
      var k := CutLen(Flags(images, cut), 0);
      PiecesEnd(images[k..], cut);
      assert forall j :: 0 <= j < |images| ==> Flags(images, cut)[j] == cut(images[j]);
      EndsMore(images, k, Pieces(images[k..], cut), cut);
    }
  }

  lemma {:induction false} EndsMore(images: seq<seq<Cell>>, k: nat, rest: seq<seq<seq<Cell>>>, cut: seq<Cell> -> bool)
    requires 0 < k <= |images| && k <= MAX_NODE_ENTRIES && EndsRight(rest, cut) && (rest == [] <==> k == |images|)
    requires forall j :: 0 <= j < k - 1 ==> !cut(images[j])
    requires k < |images| ==> cut(images[k - 1]) || k == MAX_NODE_ENTRIES
    ensures EndsRight([images[..k]] + rest, cut)
  {
    var bs := [images[..k]] + rest;
    forall i | 0 <= i < |bs|
      ensures 0 < |bs[i]| <= MAX_NODE_ENTRIES
    {
      if i > 0 {
        assert bs[i] == rest[i - 1];
      }
    }
    forall i, j | 0 <= i < |bs| && 0 <= j < |bs[i]| && !IsLast(bs, i, j)
      ensures j == |bs[i]| - 1 <==> cut(bs[i][j]) || j == MAX_NODE_ENTRIES - 1
    {
      if i == 0 {
        assert bs[0][j] == images[j];
      } else {
        assert bs[i] == rest[i - 1] && !IsLast(rest, i - 1, j);
      }
    }
  }

  lemma {:induction false} LevelGrouped(level: nat, keys: seq<Bytes>, images: seq<seq<Cell>>, cut: seq<Cell> -> bool)
    requires level <= 255 && |keys| == |images|
    ensures Grouped(level, images, Pieces(images, cut), Level(level, keys, images, cut))
    decreases |keys|
  {
    hide NodeCells, CutLen, Flags;
    if keys != [] {
      var k := CutLen(Flags(images, cut), 0);
      LevelGrouped(level, keys[k..], images[k..], cut);
      assert images == images[..k] + images[k..];
      var bs, ks := Pieces(images, cut), Level(level, keys, images, cut);
      assert bs[1..] == Pieces(images[k..], cut) && ks[1..] == Level(level, keys[k..], images[k..], cut);
      forall i | 0 <= i < |ks|
        ensures ks[i].hash == Of(NodeCells(level, bs[i]))
      {
        if i > 0 {
          assert ks[i] == ks[1..][i - 1] && bs[i] == bs[1..][i - 1];
        }
      }
    }
  }

  method BuildLevel(store: set<Hash>, level: nat, keys: seq<Bytes>, images: seq<seq<Cell>>, cut: seq<Cell> -> bool)
    returns (store': set<Hash>, nodes: seq<Child>)
    requires level <= 255 && |keys| == |images|
    ensures nodes == Level(level, keys, images, cut)
    ensures store' == store + HashesOfNodes(nodes)
    ensures exists blocks :: Grouped(level, images, blocks, nodes) && EndsRight(blocks, cut)
  {
    hide NodeCells, CutLen, BlockEnds, Level, HashesOfNodes, BuiltUpto, EndsRight, Flags;
    LevelGrouped(level, keys, images, cut);
    PiecesEnd(images, cut);
    store', nodes := store, [];
    if images == [] {
      LevelNone(level, keys, images, cut);
      return;
    }
    var flags := Flags(images, cut);
    var ends := SplitPoints(flags);
    var start := 0;
    BuiltNone(level, keys, images, cut);
    for i := 0 to |ends|
      invariant BuiltUpto(level, keys, images, cut, start, ends[i..], nodes)
      invariant store' == store + HashesOfNodes(nodes)
    {
      BuiltMore(level, keys, images, cut, start, ends[i..], nodes);
      var end := ends[i];
      assert ends[i..][1..] == ends[i + 1..];
      var node := NodeCells(level, images[start..end]);
      NodesPush(nodes, Child(keys[start], Of(node)));
      store' := store' + {Of(node)};
      nodes := nodes + [Child(keys[start], Of(node))];
      start := end;
    }
    BuiltEnd(level, keys, images, cut, start, nodes);
  }

  /** `nodes` are the level's nodes for the items before `start`; `ends` are the block ends after it. */
  ghost predicate BuiltUpto(level: nat, keys: seq<Bytes>, images: seq<seq<Cell>>, cut: seq<Cell> -> bool,
                            start: nat, ends: seq<nat>, nodes: seq<Child>)
    requires level <= 255 && |keys| == |images|
  {
    && start <= |images|
    && ends == BlockEnds(Flags(images, cut)[start..], start)
    && nodes + Level(level, keys[start..], images[start..], cut) == Level(level, keys, images, cut)
  }

  lemma {:induction false} LevelNone(level: nat, keys: seq<Bytes>, images: seq<seq<Cell>>, cut: seq<Cell> -> bool)
    requires level <= 255 && |keys| == |images| && keys == []
    ensures Level(level, keys, images, cut) == [] && HashesOfNodes([]) == {}
  {
  }

  lemma {:induction false} BuiltNone(level: nat, keys: seq<Bytes>, images: seq<seq<Cell>>, cut: seq<Cell> -> bool)
    requires level <= 255 && |keys| == |images|
    ensures BuiltUpto(level, keys, images, cut, 0, BlockEnds(Flags(images, cut), 0), []) && HashesOfNodes([]) == {}
  {
    hide Level, BlockEnds;
    var flags := Flags(images, cut);
    assert flags[0..] == flags && keys[0..] == keys && images[0..] == images;
  }

  lemma {:induction false} BuiltMore(level: nat, keys: seq<Bytes>, images: seq<seq<Cell>>, cut: seq<Cell> -> bool,
                                     start: nat, ends: seq<nat>, nodes: seq<Child>)
    requires level <= 255 && |keys| == |images| && ends != []
    requires BuiltUpto(level, keys, images, cut, start, ends, nodes)
    ensures start < ends[0] <= |keys|
    ensures var k := Child(keys[start], Of(NodeCells(level, images[start..ends[0]])));
            BuiltUpto(level, keys, images, cut, ends[0], ends[1..], nodes + [k])
  {
    hide NodeCells, CutLen, Level;
    LevelStep(level, keys, images, cut, start);
    var end := ends[0];
    var k := Child(keys[start], Of(NodeCells(level, images[start..end])));
    var rest := Level(level, keys[end..], images[end..], cut);
    assert nodes + ([k] + rest) == nodes + [k] + rest;
  }

  lemma {:induction false} BuiltEnd(level: nat, keys: seq<Bytes>, images: seq<seq<Cell>>, cut: seq<Cell> -> bool,
                                    start: nat, nodes: seq<Child>)
    requires level <= 255 && |keys| == |images|
    requires BuiltUpto(level, keys, images, cut, start, [], nodes)
    ensures nodes == Level(level, keys, images, cut)
  {
    assert Flags(images, cut)[start..] == [];
    assert nodes + [] == nodes;
  }

  lemma {:induction false} NodesPush(ks: seq<Child>, k: Child)
    ensures HashesOfNodes(ks + [k]) == HashesOfNodes(ks) + {k.hash}
  {
    assert (ks + [k])[|ks|] == k;
    forall i | 0 <= i < |ks| ensures ks[i].hash in HashesOfNodes(ks + [k]) {
      assert (ks + [k])[i] == ks[i];
    }
  }

  lemma {:induction false} LevelStep(level: nat, keys: seq<Bytes>, images: seq<seq<Cell>>, cut: seq<Cell> -> bool,
                                     start: nat)
    requires level <= 255 && |keys| == |images| && start < |keys|
    ensures var flags := Flags(images, cut); var end := start + CutLen(flags[start..], 0);
            && end <= |keys|
            && BlockEnds(flags[start..], start) == [end] + BlockEnds(flags[end..], end)
            && Level(level, keys[start..], images[start..], cut) ==
               [Child(keys[start], Of(NodeCells(level, images[start..end])))] +
               Level(level, keys[end..], images[end..], cut)
  {
    hide NodeCells, CutLen;
    var flags := Flags(images, cut);
    assert Flags(images[start..], cut) == flags[start..];
    var k := CutLen(flags[start..], 0);
    assert flags[start..][k..] == flags[start + k..];
    assert keys[start..][k..] == keys[start + k..];
    assert images[start..][k..] == images[start + k..] && images[start..][..k] == images[start..start + k];
  }

  // ── Saving ──

  function NamesOf(d: seq<Entry>): (ns: seq<Bytes>)
    ensures |ns| == |d|
  {
    seq(|d|, i requires 0 <= i < |d| => d[i].name)
  }

  function KeysOf(ks: seq<Child>): (ns: seq<Bytes>)
    ensures |ns| == |ks|
  {
    seq(|ks|, i requires 0 <= i < |ks| => ks[i].key)
  }

  function Leaves(d: seq<Entry>, cut: seq<Cell> -> bool): seq<Child>
    requires Named(d)
  {
    Level(0, NamesOf(d), EntryImages(d), cut)
  }

  function Parents(level: nat, ks: seq<Child>, cut: seq<Cell> -> bool): seq<Child>
    requires level <= 255 && Keyed(ks)
  {
    Level(level, KeysOf(ks), ChildImages(ks), cut)
  }

  /** The keys of a level are among the keys of the level below. */
  lemma {:induction false} LevelKeyed(level: nat, keys: seq<Bytes>, images: seq<seq<Cell>>, cut: seq<Cell> -> bool)
    requires level <= 255 && |keys| == |images| && forall i :: 0 <= i < |keys| ==> |keys[i]| <= 255
    ensures Keyed(Level(level, keys, images, cut))
    ensures keys != [] ==> Level(level, keys, images, cut) != []
    decreases |keys|
  {
    hide NodeCells;
    if keys != [] {
      var k := CutLen(Flags(images, cut), 0);
      LevelKeyed(level, keys[k..], images[k..], cut);
    }
  }

  lemma {:induction false} ParentsKeyed(level: nat, ks: seq<Child>, cut: seq<Cell> -> bool)
    requires level <= 255 && Keyed(ks)
    ensures Keyed(Parents(level, ks, cut)) && (ks != [] ==> Parents(level, ks, cut) != [])
  {
    hide Level;
    LevelKeyed(level, KeysOf(ks), ChildImages(ks), cut);
  }

  lemma {:induction false} LeavesKeyed(d: seq<Entry>, cut: seq<Cell> -> bool)
    requires Named(d)
    ensures Keyed(Leaves(d, cut)) && (d != [] ==> Leaves(d, cut) != [])
  {
    hide Level;
    LevelKeyed(0, NamesOf(d), EntryImages(d), cut);
  }

  /** Levels are added until one node is left; a tree of more than 255 levels is a failure. */
  function Up(level: nat, nodes: seq<Child>, cut: seq<Cell> -> bool): Option<(set<Hash>, Hash)>
    requires level <= 255 && nodes != [] && Keyed(nodes)
    decreases 255 - level
  {
    if |nodes| == 1 then Some(({}, nodes[0].hash))
    else if level == 255 then None
    else
      ParentsKeyed(level + 1, nodes, cut);
      var above := Parents(level + 1, nodes, cut);
      var up :- Up(level + 1, above, cut);
      Some((HashesOfNodes(above) + up.0, up.1))
  }

  function EmptyRoot(): Hash {
    Of(LeafCells([]))
  }

  /** The objects and the root of a directory's tree. */
  function Saved(d: seq<Entry>, cut: seq<Cell> -> bool): Option<(set<Hash>, Hash)>
    requires Named(d)
  {
    if d == [] then Some(({EmptyRoot()}, EmptyRoot()))
    else
      LeavesKeyed(d, cut);
      var leaves := Leaves(d, cut);
      var up :- Up(0, leaves, cut);
      Some((HashesOfNodes(leaves) + up.0, up.1))
  }

  method Save(store: set<Hash>, d: seq<Entry>, cut: seq<Cell> -> bool)
    returns (store': set<Hash>, root: Option<Hash>)
    requires Named(d)
    ensures root.Some? <==> Saved(d, cut).Some?
    ensures root.Some? ==> root.value == Saved(d, cut).value.1 && store' == store + Saved(d, cut).value.0
    ensures root.Some? && d != [] && AllValid(d) ==>
              exists top :: 0 <= top <= 255 && WellCut(store', root.value, top, cut)
  {
    hide WellCut, AllValid, Saved;
    store', root := SaveLevels(store, d, cut);
    if root.Some? && d != [] && AllValid(d) {
      ghost var top := SavedCuts(store', d, cut);
    }
  }

  method SaveLevels(store: set<Hash>, d: seq<Entry>, cut: seq<Cell> -> bool)
    returns (store': set<Hash>, root: Option<Hash>)
    requires Named(d)
    ensures root.Some? <==> Saved(d, cut).Some?
    ensures root.Some? ==> root.value == Saved(d, cut).value.1 && store' == store + Saved(d, cut).value.0
  {
    hide Level, LeafCells;
    if d == [] {
      return store + {EmptyRoot()}, Some(EmptyRoot());
    }
    var level := 0;
    var nodes;
    LeavesKeyed(d, cut);
    store', nodes := BuildLevel(store, 0, NamesOf(d), EntryImages(d), cut);
    ghost var put := HashesOfNodes(nodes);
    while |nodes| > 1
      invariant level <= 255 && nodes != [] && Keyed(nodes)
      invariant store' == store + put
      invariant Saved(d, cut).Some? <==> Up(level, nodes, cut).Some?
      invariant Saved(d, cut).Some? ==>
                  Saved(d, cut).value == (put + Up(level, nodes, cut).value.0, Up(level, nodes, cut).value.1)
      decreases 255 - level
    {
      if level == 255 {
        return store', None;
      }
      level := level + 1;
      ParentsKeyed(level, nodes, cut);
      store', nodes := BuildLevel(store', level, KeysOf(nodes), ChildImages(nodes), cut);
      ghost var up := Up(level, nodes, cut);
      assert up.Some? ==> put + (HashesOfNodes(nodes) + up.value.0) == put + HashesOfNodes(nodes) + up.value.0;
      put := put + HashesOfNodes(nodes);
    }
    root := Some(nodes[0].hash);
  }

  // ── Loading ──

  function LoadNode(store: set<Hash>, h: Hash, level: nat): Option<seq<Entry>>
    decreases level, 0
  {
    if h !in store then None else
      var node :- DecodeNode(h.content);
      if node.level != level then None
      else
        match node.body
        case Leaf(es) => if es == [] then None else Some(es)
        case Internal(ks) => if ks == [] || level == 0 then None else LoadKids(store, ks, level - 1)
  }

  /** Children one level down; each separator must be the first name under its child. */
  function LoadKids(store: set<Hash>, ks: seq<Child>, level: nat): Option<seq<Entry>>
    decreases level, 1 + |ks|
  {
    if ks == [] then Some([])
    else
      var first :- LoadNode(store, ks[0].hash, level);
      if first == [] || first[0].name != ks[0].key then None
      else
        var more :- LoadKids(store, ks[1..], level);
        Some(first + more)
  }

  function LoadRoot(store: set<Hash>, root: Hash): Option<seq<Entry>> {
    if root !in store then None else
      var node :- DecodeNode(root.content);
      match node.body
      case Leaf(es) => Some(es)
      case Internal(ks) => if ks == [] || node.level == 0 then None else LoadKids(store, ks, node.level - 1)
  }

  function Load(store: set<Hash>, root: Hash): Option<seq<Entry>> {
    var es :- LoadRoot(store, root);
    if Sorted(es) then Some(es) else None
  }

  // ── Load of save ──

  lemma {:induction false} FlatEntries(d: seq<Entry>)
    requires Named(d)
    ensures Flat(EntryImages(d)) == EntriesCells(d)
  {
    hide EntryCells;
    if d != [] {
      FlatEntries(d[1..]);
      assert EntryImages(d)[1..] == EntryImages(d[1..]);
    }
  }

  lemma {:induction false} FlatChildren(ks: seq<Child>)
    requires Keyed(ks)
    ensures Flat(ChildImages(ks)) == ChildrenCells(ks)
  {
    hide ChildCells;
    if ks != [] {
      FlatChildren(ks[1..]);
      assert ChildImages(ks)[1..] == ChildImages(ks[1..]);
    }
  }

  lemma {:induction false} LeafLoads(store: set<Hash>, es: seq<Entry>)
    requires AllValid(es) && 0 < |es| <= MAX_NODE_ENTRIES
    requires Of(NodeCells(0, EntryImages(es))) in store
    ensures LoadNode(store, Of(NodeCells(0, EntryImages(es))), 0) == Some(es)
  {
    hide EntriesCells, EntryImages, DecodeNode, ValidEntry;
    FlatEntries(es);
    assert NodeCells(0, EntryImages(es)) == LeafCells(es);
    LeafRoundTrip(es);
  }

  lemma {:induction false} InternalLoads(store: set<Hash>, level: nat, ks: seq<Child>)
    requires 0 < level <= 255 && Keyed(ks) && 0 < |ks| <= MAX_NODE_ENTRIES
    requires Of(NodeCells(level, ChildImages(ks))) in store
    ensures LoadNode(store, Of(NodeCells(level, ChildImages(ks))), level) == LoadKids(store, ks, level - 1)
  {
    hide ChildrenCells, ChildImages, DecodeNode, LoadKids;
    FlatChildren(ks);
    assert NodeCells(level, ChildImages(ks)) == InternalCells(level, ks);
    InternalRoundTrip(level, ks);
  }

  lemma {:induction false} NodesHave(ks: seq<Child>, i: nat)
    requires i < |ks|
    ensures ks[i].hash in HashesOfNodes(ks)
  {
  }

  lemma {:induction false} NodesTail(ks: seq<Child>, store: set<Hash>)
    requires ks != [] && HashesOfNodes(ks) <= store
    ensures ks[0].hash in store && HashesOfNodes(ks[1..]) <= store
  {
    NodesHave(ks, 0);
    forall h | h in HashesOfNodes(ks[1..]) ensures h in store {
      var i :| 0 <= i < |ks[1..]| && ks[1..][i].hash == h;
      NodesHave(ks, i + 1);
    }
  }

  lemma {:induction false} LeavesStep(d: seq<Entry>, cut: seq<Cell> -> bool)
    requires Named(d) && d != []
    ensures var k := CutLen(Flags(EntryImages(d), cut), 0);
            Leaves(d, cut) ==
            [Child(d[0].name, Of(NodeCells(0, EntryImages(d[..k]))))] + Leaves(d[k..], cut)
  {
    hide NodeCells, EntryCells, CutLen;
    var k := CutLen(Flags(EntryImages(d), cut), 0);
    assert EntryImages(d)[..k] == EntryImages(d[..k]) && EntryImages(d)[k..] == EntryImages(d[k..]);
    assert NamesOf(d)[k..] == NamesOf(d[k..]);
  }

  /** The leaves of a directory load as the directory. */
  lemma {:induction false} LeavesLoad(store: set<Hash>, d: seq<Entry>, cut: seq<Cell> -> bool)
    requires AllValid(d) && HashesOfNodes(Leaves(d, cut)) <= store
    ensures LoadKids(store, Leaves(d, cut), 0) == Some(d)
    decreases |d|
  {
    hide Leaves, NodeCells, EntryImages, LoadNode, ValidEntry;
    if d == [] {
      NoLeaves(cut);
    } else {
      var k := CutLen(Flags(EntryImages(d), cut), 0);
      var ks := Leaves(d, cut);
      LeavesStep(d, cut);
      NodesTail(ks, store);
      assert ks[1..] == Leaves(d[k..], cut);
      LeafLoads(store, d[..k]);
      LeavesLoad(store, d[k..], cut);
      assert d == d[..k] + d[k..];
    }
  }

  lemma {:induction false} NoLeaves(cut: seq<Cell> -> bool)
    ensures Leaves([], cut) == []
  {
  }

  lemma {:induction false} NoParents(level: nat, cut: seq<Cell> -> bool)
    requires level <= 255
    ensures Parents(level, [], cut) == []
  {
  }

  lemma {:induction false} ParentsStep(level: nat, ks: seq<Child>, cut: seq<Cell> -> bool)
    requires level <= 255 && Keyed(ks) && ks != []
    ensures var k := CutLen(Flags(ChildImages(ks), cut), 0);
            Parents(level, ks, cut) ==
            [Child(ks[0].key, Of(NodeCells(level, ChildImages(ks[..k]))))] + Parents(level, ks[k..], cut)
  {
    hide NodeCells, ChildCells, CutLen;
    var k := CutLen(Flags(ChildImages(ks), cut), 0);
    assert ChildImages(ks)[..k] == ChildImages(ks[..k]) && ChildImages(ks)[k..] == ChildImages(ks[k..]);
    assert KeysOf(ks)[k..] == KeysOf(ks[k..]);
  }

  lemma {:induction false} KidsSplit(store: set<Hash>, ks: seq<Child>, level: nat, k: nat)
    requires k <= |ks| && LoadKids(store, ks, level).Some?
    ensures LoadKids(store, ks[..k], level).Some? && LoadKids(store, ks[k..], level).Some?
    ensures LoadKids(store, ks, level).value ==
            LoadKids(store, ks[..k], level).value + LoadKids(store, ks[k..], level).value
    ensures k > 0 ==> LoadKids(store, ks[..k], level).value != [] &&
                      LoadKids(store, ks[..k], level).value[0].name == ks[0].key
    decreases k
  {
    hide LoadNode;
    if k == 0 {
      assert ks[0..] == ks && ks[..0] == [];
    } else {
      KidsSplit(store, ks[1..], level, k - 1);
      assert ks[1..][..k - 1] == ks[..k][1..] && ks[1..][k - 1..] == ks[k..];
    }
  }

  /** Adding a level does not change what is loaded. */
  lemma {:induction false} ParentsLoad(store: set<Hash>, level: nat, ks: seq<Child>, cut: seq<Cell> -> bool)
    requires level < 255 && Keyed(ks) && LoadKids(store, ks, level).Some?
    requires HashesOfNodes(Parents(level + 1, ks, cut)) <= store
    ensures LoadKids(store, Parents(level + 1, ks, cut), level + 1) == LoadKids(store, ks, level)
    decreases |ks|
  {
    hide Parents, NodeCells, ChildImages, LoadNode;
    if ks == [] {
      NoParents(level + 1, cut);
    } else {
      var k := CutLen(Flags(ChildImages(ks), cut), 0);
      var up := Parents(level + 1, ks, cut);
      ParentsStep(level + 1, ks, cut);
      NodesTail(up, store);
      assert up[1..] == Parents(level + 1, ks[k..], cut);
      InternalLoads(store, level + 1, ks[..k]);
      KidsSplit(store, ks, level, k);
      ParentsLoad(store, level, ks[k..], cut);
    }
  }

  lemma {:induction false} NodeAsRoot(store: set<Hash>, h: Hash, level: nat)
    requires LoadNode(store, h, level).Some?
    ensures LoadRoot(store, h) == LoadNode(store, h, level)
  {
    hide DecodeNode;
  }

  lemma {:induction false} UpLoads(store: set<Hash>, level: nat, nodes: seq<Child>, cut: seq<Cell> -> bool)
    requires level <= 255 && nodes != [] && Keyed(nodes) && LoadKids(store, nodes, level).Some?
    requires Up(level, nodes, cut).Some? && Up(level, nodes, cut).value.0 <= store
    ensures LoadRoot(store, Up(level, nodes, cut).value.1) == LoadKids(store, nodes, level)
    decreases 255 - level
  {
    hide Parents, LoadNode, LoadRoot;
    if |nodes| == 1 {
      assert LoadKids(store, nodes[1..], level) == Some([]);
      NodeAsRoot(store, nodes[0].hash, level);
      var es := LoadNode(store, nodes[0].hash, level).value;
      assert es + [] == es;
    } else {
      ParentsKeyed(level + 1, nodes, cut);
      ParentsLoad(store, level, nodes, cut);
      UpLoads(store, level + 1, Parents(level + 1, nodes, cut), cut);
    }
  }

  /** Loading what was saved gives the directory back, for every split test. */
  lemma {:induction false} LoadSaved(store: set<Hash>, d: seq<Entry>, cut: seq<Cell> -> bool)
    requires Directory(d) && Saved(d, cut).Some? && Saved(d, cut).value.0 <= store
    ensures Load(store, Saved(d, cut).value.1) == Some(d)
  {
    hide Leaves, LoadKids, Sorted, DecodeNode, Up, LeafCells, ValidEntry;
    if d == [] {
      EmptyLoads(store);
    } else {
      LeavesKeyed(d, cut);
      LeavesLoad(store, d, cut);
      UpLoads(store, 0, Leaves(d, cut), cut);
    }
  }

  lemma {:induction false} EmptyLoads(store: set<Hash>)
    requires EmptyRoot() in store
    ensures Load(store, EmptyRoot()) == Some([])
  {
    LeafRoundTrip([]);
  }

  /** Two directories have the same root exactly when they are equal. */
  lemma {:induction false} SameRoot(a: seq<Entry>, b: seq<Entry>, cut: seq<Cell> -> bool)
    requires Directory(a) && Directory(b) && Saved(a, cut).Some? && Saved(b, cut).Some?
    ensures Saved(a, cut).value.1 == Saved(b, cut).value.1 <==> a == b
  {
    hide Saved, Load, ValidEntry, Sorted;
    var store := Saved(a, cut).value.0 + Saved(b, cut).value.0;
    LoadSaved(store, a, cut);
    LoadSaved(store, b, cut);
  }

  // ── Where nodes end ──

  lemma {:induction false} LeafItems(es: seq<Entry>)
    requires AllValid(es) && 0 < |es| <= MAX_NODE_ENTRIES
    ensures var h := Of(NodeCells(0, EntryImages(es))); Items(h) == EntryImages(es) && LevelOf(h) == Some(0)
  {
    hide EntriesCells, EntryImages, DecodeNode, ValidEntry;
    FlatEntries(es);
    assert NodeCells(0, EntryImages(es)) == LeafCells(es);
    LeafRoundTrip(es);
  }

  lemma {:induction false} InternalItems(level: nat, ks: seq<Child>)
    requires 0 < level <= 255 && Keyed(ks) && 0 < |ks| <= MAX_NODE_ENTRIES
    ensures var h := Of(NodeCells(level, ChildImages(ks)));
            Items(h) == ChildImages(ks) && LevelOf(h) == Some(level) && Kids(h) == HashSeq(ks)
  {
    hide ChildrenCells, ChildImages, DecodeNode;
    FlatChildren(ks);
    assert NodeCells(level, ChildImages(ks)) == InternalCells(level, ks);
    InternalRoundTrip(level, ks);
  }

  ghost predicate AllLevel(hs: seq<Hash>, level: nat) {
    forall i :: 0 <= i < |hs| ==> LevelOf(hs[i]) == Some(level)
  }

  lemma {:induction false} LevelMore(h: Hash, hs: seq<Hash>, level: nat)
    requires LevelOf(h) == Some(level) && AllLevel(hs, level)
    ensures AllLevel([h] + hs, level) && ItemsOf([h] + hs) == [Items(h)] + ItemsOf(hs)
    ensures Below([h] + hs) == Kids(h) + Below(hs)
  {
    hide LevelOf, Items, Kids;
    assert ([h] + hs)[1..] == hs;
  }

  lemma {:induction false} PiecesStep(images: seq<seq<Cell>>, cut: seq<Cell> -> bool)
    requires images != []
    ensures var k := CutLen(Flags(images, cut), 0); Pieces(images, cut) == [images[..k]] + Pieces(images[k..], cut)
  {
    hide Flags, CutLen;
  }

  lemma {:induction false} EntriesSplit(d: seq<Entry>, k: nat)
    requires Named(d) && k <= |d|
    ensures EntryImages(d)[..k] == EntryImages(d[..k]) && EntryImages(d)[k..] == EntryImages(d[k..])
  {
    hide EntryCells;
  }

  lemma {:induction false} ChildrenSplit(ks: seq<Child>, k: nat)
    requires Keyed(ks) && k <= |ks|
    ensures ChildImages(ks)[..k] == ChildImages(ks[..k]) && ChildImages(ks)[k..] == ChildImages(ks[k..])
    ensures HashSeq(ks) == HashSeq(ks[..k]) + HashSeq(ks[k..])
  {
    hide ChildCells;
  }

  lemma {:induction false} HashMore(c: Child, ks: seq<Child>)
    ensures HashSeq([c] + ks) == [c.hash] + HashSeq(ks)
  {
  }

  lemma {:induction false} NoPieces(cut: seq<Cell> -> bool)
    ensures Pieces([], cut) == [] && ItemsOf([]) == [] && AllLevel([], 0) && Below([]) == [] && HashSeq([]) == []
  {
  }

  lemma {:induction false} LeavesItems(d: seq<Entry>, cut: seq<Cell> -> bool)
    requires AllValid(d)
    ensures var hs := HashSeq(Leaves(d, cut)); ItemsOf(hs) == Pieces(EntryImages(d), cut) && AllLevel(hs, 0)
    decreases |d|
  {
    hide Leaves, NodeCells, EntryImages, ValidEntry, ItemsOf, AllLevel, Below, Pieces, HashSeq, Flags;
    if d == [] {
      NoLeaves(cut);
      NoPieces(cut);
      assert EntryImages(d) == [];
    } else {
      var k := CutLen(Flags(EntryImages(d), cut), 0);
      LeavesStep(d, cut);
      LeafItems(d[..k]);
      LeavesItems(d[k..], cut);
      EntriesSplit(d, k);
      PiecesStep(EntryImages(d), cut);
      var h := Of(NodeCells(0, EntryImages(d[..k])));
      HashMore(Child(d[0].name, h), Leaves(d[k..], cut));
      LevelMore(h, HashSeq(Leaves(d[k..], cut)), 0);
    }
  }

  lemma {:induction false} ParentsItems(level: nat, ks: seq<Child>, cut: seq<Cell> -> bool)
    requires 0 < level <= 255 && Keyed(ks)
    ensures var hs := HashSeq(Parents(level, ks, cut));
            ItemsOf(hs) == Pieces(ChildImages(ks), cut) && AllLevel(hs, level) && Below(hs) == HashSeq(ks)
    decreases |ks|
  {
    hide Parents, NodeCells, ChildImages, ItemsOf, AllLevel, Below, Pieces, HashSeq, Flags, Items, Kids;
    if ks == [] {
      NoParents(level, cut);
      NoPieces(cut);
      assert ChildImages(ks) == [];
      NoLevel(level);
    } else {
      var k := CutLen(Flags(ChildImages(ks), cut), 0);
      ParentsStep(level, ks, cut);
      InternalItems(level, ks[..k]);
      ParentsItems(level, ks[k..], cut);
      ChildrenSplit(ks, k);
      PiecesStep(ChildImages(ks), cut);
      var h := Of(NodeCells(level, ChildImages(ks[..k])));
      HashMore(Child(ks[0].key, h), Parents(level, ks[k..], cut));
      LevelMore(h, HashSeq(Parents(level, ks[k..], cut)), level);
    }
  }

  lemma {:induction false} NoLevel(level: nat)
    ensures AllLevel([], level)
  {
  }

  lemma {:induction false} NodesRight(store: set<Hash>, ks: seq<Child>, level: nat, cut: seq<Cell> -> bool)
    requires HashesOfNodes(ks) <= store && AllLevel(HashSeq(ks), level) && EndsRight(ItemsOf(HashSeq(ks)), cut)
    ensures LevelRight(store, HashSeq(ks), level, cut)
  {
    hide LevelOf, ItemsOf, EndsRight;
    forall i | 0 <= i < |ks|
      ensures ks[i].hash in store
    {
      NodesHave(ks, i);
    }
  }

  /** From some level up to the root. */
  lemma {:induction false} UpCuts(store: set<Hash>, level: nat, nodes: seq<Child>, cut: seq<Cell> -> bool)
    returns (top: nat)
    requires level <= 255 && nodes != [] && Keyed(nodes) && AllLevel(HashSeq(nodes), level)
    requires Up(level, nodes, cut).Some? && Up(level, nodes, cut).value.0 <= store
    ensures var root := Up(level, nodes, cut).value.1;
            && level <= top <= 255 && LevelOf(root) == Some(top) && Depth(root, top - level) == HashSeq(nodes)
            && (forall k :: 0 <= k < top - level ==> LevelRight(store, Depth(root, k), top - k, cut))
            && (forall k :: 0 < k <= top - level ==> |Depth(root, k)| > 1)
    decreases 255 - level
  {
    hide Parents, LevelOf, Below, LevelRight, EndsRight, ItemsOf, Pieces;
    if |nodes| == 1 {
      top := level;
      assert HashSeq(nodes)[0] == nodes[0].hash && HashSeq(nodes) == [nodes[0].hash];
    } else {
      var above := Parents(level + 1, nodes, cut);
      ParentsKeyed(level + 1, nodes, cut);
      ParentsItems(level + 1, nodes, cut);
      PiecesEnd(ChildImages(nodes), cut);
      top := UpCuts(store, level + 1, above, cut);
      NodesRight(store, above, level + 1, cut);
      var root := Up(level, nodes, cut).value.1;
      assert Depth(root, top - level) == Below(Depth(root, top - level - 1));
    }
  }

  lemma {:induction false} SavedCuts(store: set<Hash>, d: seq<Entry>, cut: seq<Cell> -> bool) returns (top: nat)
    requires AllValid(d) && d != [] && Saved(d, cut).Some? && Saved(d, cut).value.0 <= store
    ensures top <= 255 && WellCut(store, Saved(d, cut).value.1, top, cut)
  {
    hide Leaves, ValidEntry, Up, LevelOf, LevelRight, EndsRight, ItemsOf, Pieces, Depth;
    LeavesKeyed(d, cut);
    LeavesItems(d, cut);
    PiecesEnd(EntryImages(d), cut);
    top := UpCuts(store, 0, Leaves(d, cut), cut);
    NodesRight(store, Leaves(d, cut), 0, cut);
  }
}
