/** Path-copying edits. Each returns the objects it stored and the new root. */
module TreeEdit {
  import opened Cells
  import opened FileChunks
  import opened Entries
  import opened NodeLevels
  import opened Prolly
  import opened Gc
  import opened Tree

  // ── A saved directory refers to nothing its entries do not ──

  ghost predicate RefsWithin(d: seq<Entry>, t: set<Hash>, l: set<Hash>) {
    && (forall i :: 0 <= i < |d| && d[i].content.DirRoot? ==> d[i].content.root in t)
    && (forall i :: 0 <= i < |d| && d[i].content.ChunkList? ==> d[i].content.list in l)
  }

  lemma {:induction false} LeafWithin(es: seq<Entry>, t: set<Hash>, l: set<Hash>)
    requires AllValid(es) && |es| <= MAX_NODE_ENTRIES && RefsWithin(es, t, l)
    ensures var h := Of(NodeCells(0, EntryImages(es))); ChildNodes(h) <= t && ListsOf(h) <= l
  {
    hide EntriesCells, EntryImages, DecodeNode, ValidEntry;
    FlatEntries(es);
    assert NodeCells(0, EntryImages(es)) == LeafCells(es);
    LeafRoundTrip(es);
  }

  lemma {:induction false} LeavesWithin(d: seq<Entry>, cut: seq<Cell> -> bool, t: set<Hash>, l: set<Hash>, h: Hash)
    requires AllValid(d) && RefsWithin(d, t, l) && h in HashesOfNodes(Leaves(d, cut))
    ensures ChildNodes(h) <= t && ListsOf(h) <= l
    decreases |d|
  {
    hide Leaves, NodeCells, EntryImages, ValidEntry, ChildNodes, ListsOf;
    var ks := Leaves(d, cut);
    var i :| 0 <= i < |ks| && ks[i].hash == h;
    if d == [] {
      NoLeaves(cut);
    } else {
      var k := CutLen(Flags(EntryImages(d), cut), 0);
      LeavesStep(d, cut);
      if i == 0 {
        LeafWithin(d[..k], t, l);
      } else {
        assert ks[1..] == Leaves(d[k..], cut) && ks[1..][i - 1] == ks[i];
        NodesHave(ks[1..], i - 1);
        LeavesWithin(d[k..], cut, t, l, h);
      }
    }
  }

  lemma {:induction false} InternalWithin(level: nat, ks: seq<Child>, t: set<Hash>)
    requires 0 < level <= 255 && Keyed(ks) && |ks| <= MAX_NODE_ENTRIES
    requires forall i :: 0 <= i < |ks| ==> ks[i].hash in t
    ensures var h := Of(NodeCells(level, ChildImages(ks))); ChildNodes(h) <= t && ListsOf(h) == {}
  {
    hide ChildrenCells, ChildImages, DecodeNode;
    FlatChildren(ks);
    assert NodeCells(level, ChildImages(ks)) == InternalCells(level, ks);
    InternalRoundTrip(level, ks);
  }

  lemma {:induction false} ParentsWithin(level: nat, ks: seq<Child>, cut: seq<Cell> -> bool, t: set<Hash>, h: Hash)
    requires 0 < level <= 255 && Keyed(ks) && h in HashesOfNodes(Parents(level, ks, cut))
    requires forall i :: 0 <= i < |ks| ==> ks[i].hash in t
    ensures ChildNodes(h) <= t && ListsOf(h) == {}
    decreases |ks|
  {
    hide Parents, NodeCells, ChildImages, ChildNodes, ListsOf;
    var up := Parents(level, ks, cut);
    var i :| 0 <= i < |up| && up[i].hash == h;
    if ks == [] {
      NoParents(level, cut);
    } else {
      var k := CutLen(Flags(ChildImages(ks), cut), 0);
      ParentsStep(level, ks, cut);
      if i == 0 {
        InternalWithin(level, ks[..k], t);
      } else {
        assert up[1..] == Parents(level, ks[k..], cut) && up[1..][i - 1] == up[i];
        NodesHave(up[1..], i - 1);
        ParentsWithin(level, ks[k..], cut, t, h);
      }
    }
  }

  lemma {:induction false} UpWithin(level: nat, nodes: seq<Child>, cut: seq<Cell> -> bool, t: set<Hash>, h: Hash)
    requires level <= 255 && nodes != [] && Keyed(nodes) && Up(level, nodes, cut).Some?
    requires HashesOfNodes(nodes) <= t && Up(level, nodes, cut).value.0 <= t
    ensures Up(level, nodes, cut).value.1 in t
    ensures h in Up(level, nodes, cut).value.0 ==> ChildNodes(h) <= t && ListsOf(h) == {}
    decreases 255 - level
  {
    hide Parents, ChildNodes, ListsOf, HashesOfNodes;
    forall i | 0 <= i < |nodes| ensures nodes[i].hash in t {
      NodesHave(nodes, i);
    }
    if |nodes| > 1 {
      ParentsKeyed(level + 1, nodes, cut);
      var above := Parents(level + 1, nodes, cut);
      UpWithin(level + 1, above, cut, t, h);
      if h in HashesOfNodes(above) {
        ParentsWithin(level + 1, nodes, cut, t, h);
      }
    }
  }

  lemma {:induction false} EmptyWithin()
    ensures ChildNodes(EmptyRoot()) == {} && ListsOf(EmptyRoot()) == {}
  {
    LeafRoundTrip([]);
  }

  lemma {:induction false} SavedWithin(d: seq<Entry>, cut: seq<Cell> -> bool, t: set<Hash>, l: set<Hash>)
    requires Directory(d) && Saved(d, cut).Some? && RefsWithin(d, t, l)
    ensures var (o, r) := Saved(d, cut).value;
            r in o + t && forall h :: h in o ==> ChildNodes(h) <= t + o && ListsOf(h) <= l
  {
    hide Leaves, ChildNodes, ListsOf, Up, HashesOfNodes, ValidEntry, Sorted, RefsWithin, EmptyRoot;
    var (o, r) := Saved(d, cut).value;
    if d == [] {
      EmptyWithin();
    } else {
      LeavesKeyed(d, cut);
      var leaves := Leaves(d, cut);
      UpWithin(0, leaves, cut, o, r);
      forall h | h in o ensures ChildNodes(h) <= t + o && ListsOf(h) <= l {
        if h in HashesOfNodes(leaves) {
          LeavesWithin(d, cut, t, l, h);
        } else {
          UpWithin(0, leaves, cut, o, h);
        }
      }
    }
  }

  /** Saving into a sound store keeps it sound. */
  lemma {:induction false} SavedSound(store: set<Hash>, t: set<Hash>, l: set<Hash>, d: seq<Entry>,
                                      cut: seq<Cell> -> bool)
    requires Directory(d) && Saved(d, cut).Some? && RefsWithin(d, t, l) && Sound(store, t, l)
    ensures var (o, r) := Saved(d, cut).value; Sound(store + o, t + o, l) && r in t + o
  {
    hide Saved, Directory, ChildNodes, ListsOf, ChunksOf, RefsWithin;
    SavedWithin(d, cut, t, l);
  }

  // ── Put ──

  /** Re-save a directory with one entry inserted or replaced. */
  function Relink(dir: seq<Entry>, x: Entry, cut: seq<Cell> -> bool): Option<(set<Hash>, Hash)>
    requires Directory(dir)
  {
    if ValidEntry(x) then
      UpsertDirectory(dir, x);
      Saved(Upsert(dir, x), cut)
    else None
  }

  /** The entry that points at a rebuilt child directory. */
  function Pointing(was: Option<Entry>, name: Bytes, mtime: nat, root: Hash): Entry {
    if was.Some? then was.value.(content := DirRoot(root)) else Entry(name, Dir, 0, 0, mtime, DirRoot(root))
  }

  /** Insert or replace `e` in the directory at `dirPath`, making the directories that are missing. */
  function Put(store: set<Hash>, root: Hash, dirPath: Path, e: Entry, mtime: nat, cut: seq<Cell> -> bool)
    : Option<(set<Hash>, Hash)>
    decreases |dirPath|
  {
    var dir :- Load(store, root);
    LoadDirectory(store, root);
    if dirPath == [] then Relink(dir, e, cut)
    else
      var x := Get(dir, dirPath[0]);
      if x.Some? && !x.value.content.DirRoot? then None
      else
        var made := if x.Some? then {} else {EmptyRoot()};
        var child := if x.Some? then x.value.content.root else EmptyRoot();
        var sub :- Put(store + made, child, dirPath[1..], e, mtime, cut);
        var up :- Relink(dir, Pointing(x, dirPath[0], mtime, sub.1), cut);
        Some((made + sub.0 + up.0, up.1))
  }

  lemma {:induction false} MadeSound(store: set<Hash>, t: set<Hash>, l: set<Hash>)
    requires Sound(store, t, l)
    ensures Sound(store + {EmptyRoot()}, t + {EmptyRoot()}, l)
  {
    hide ChildNodes, ListsOf, ChunksOf, EmptyRoot;
    EmptyWithin();
  }

  lemma {:induction false} UpsertWithin(dir: seq<Entry>, x: Entry, t: set<Hash>, l: set<Hash>)
    requires RefsWithin(dir, t, l) && RefsWithin([x], t, l)
    ensures RefsWithin(Upsert(dir, x), t, l)
    decreases |dir|
  {
    hide Less;
    assert [x][0] == x;
    if dir != [] && !Less(x.name, dir[0].name) && dir[0].name != x.name {
      UpsertWithin(dir[1..], x, t, l);
    }
  }

  lemma {:induction false} RelinkSound(store: set<Hash>, t: set<Hash>, l: set<Hash>, dir: seq<Entry>, x: Entry,
                                       cut: seq<Cell> -> bool)
    requires Sound(store, t, l) && Directory(dir) && RefsWithin(dir, t, l) && RefsWithin([x], t, l)
    requires Relink(dir, x, cut).Some?
    ensures var (o, r) := Relink(dir, x, cut).value; Sound(store + o, t + o, l) && r in t + o
  {
    hide Saved, Directory, Sound, RefsWithin, ValidEntry;
    UpsertDirectory(dir, x);
    UpsertWithin(dir, x, t, l);
    SavedSound(store, t, l, Upsert(dir, x), cut);
  }

  lemma {:induction false} LoadWithin(store: set<Hash>, t: set<Hash>, l: set<Hash>, root: Hash)
    requires Sound(store, t, l) && root in t && Load(store, root).Some?
    ensures RefsWithin(Load(store, root).value, t, l)
  {
    hide Load, Nodes, Lists, Sound, AllValid;
    LoadRefsBelow(store, root);
    SoundReach(store, t, l, root);
  }

  /** What an edit stores keeps the store sound, with the new root in it. */
  lemma {:induction false} PutSound(store: set<Hash>, t: set<Hash>, l: set<Hash>, root: Hash, dirPath: Path, e: Entry,
                                    mtime: nat, cut: seq<Cell> -> bool)
    requires Sound(store, t, l) && root in t && RefsWithin([e], t, l)
    requires Put(store, root, dirPath, e, mtime, cut).Some?
    ensures var (o, r) := Put(store, root, dirPath, e, mtime, cut).value;
            Sound(store + o, t + o, l) && r in t + o
    decreases |dirPath|
  {
    hide Load, Get, Relink, Sound, EmptyRoot, Directory;
    var dir := Load(store, root).value;
    LoadDirectory(store, root);
    LoadWithin(store, t, l, root);
    if dirPath == [] {
      RelinkSound(store, t, l, dir, e, cut);
    } else {
      var x := Get(dir, dirPath[0]);
      var made := if x.Some? then {} else {EmptyRoot()};
      var child := if x.Some? then x.value.content.root else EmptyRoot();
      if x.Some? {
        GetBelow(store, root, dirPath[0]);
        SoundReach(store, t, l, root);
        assert store + made == store && t + made == t;
      } else {
        MadeSound(store, t, l);
      }
      PutSound(store + made, t + made, l, child, dirPath[1..], e, mtime, cut);
      var (so, sr) := Put(store + made, child, dirPath[1..], e, mtime, cut).value;
      var y := Pointing(x, dirPath[0], mtime, sr);
      var (uo, ur) := Relink(dir, y, cut).value;
      assert [y][0] == y;
      RelinkSound(store + made + so, t + made + so, l, dir, y, cut);
      assert store + (made + so + uo) == store + made + so + uo;
      assert t + (made + so + uo) == t + made + so + uo;
    }
  }

  /** What a put does to every path. */
  ghost predicate PutAt(store: set<Hash>, root: Hash, store': set<Hash>, root': Hash, target: Path, e: Entry, q: Path) {
    var was, now := LookupIn(store, root, q), LookupIn(store', root', q);
    if q == target then now == Some(Some(e))
    else if target < q then !e.content.DirRoot? ==> now == None
    else if q != [] && q < target then
      && now.Some? && now.value.Some? && now.value.value.content.DirRoot?
      && (was == Some(None) || (was.Some? && was.value.Some? && was.value.value.content.DirRoot? &&
        was.value.value.(content := now.value.value.content) == now.value.value))
    else now == was
  }

  lemma {:induction false} EmptyLookup(store: set<Hash>, q: Path)
    requires EmptyRoot() in store
    ensures LookupIn(store, EmptyRoot(), q) == Some(None)
  {
    hide EmptyRoot, Load;
    EmptyLoads(store);
  }

  /** After a relink the directory reads with the entry in place. */
  lemma {:induction false} RelinkLoads(store: set<Hash>, dir: seq<Entry>, x: Entry, cut: seq<Cell> -> bool, n: Bytes)
    requires Directory(dir) && Relink(dir, x, cut).Some? && Relink(dir, x, cut).value.0 <= store
    ensures Load(store, Relink(dir, x, cut).value.1).Some?
    ensures Get(Load(store, Relink(dir, x, cut).value.1).value, n) == if n == x.name then Some(x) else Get(dir, n)
  {
    hide Saved, Load, Get, ValidEntry, AllValid;
    UpsertDirectory(dir, x);
    LoadSaved(store, Upsert(dir, x), cut);
    UpsertGet(dir, x, n);
  }

  /** A path whose first name is not the edited one reads as before. */
  lemma {:induction false} Elsewhere(store: set<Hash>, root: Hash, store': set<Hash>, root': Hash, q: Path)
    requires q != [] && Nodes(root) <= store <= store'
    requires Load(store, root).Some? && Load(store', root').Some?
    requires Get(Load(store', root').value, q[0]) == Get(Load(store, root).value, q[0])
    ensures LookupIn(store', root', q) == LookupIn(store, root, q)
  {
    hide Load, Get, Nodes;
    var x := Get(Load(store, root).value, q[0]);
    if x.Some? && x.value.content.DirRoot? && |q| > 1 {
      GetBelow(store, root, q[0]);
      ReachTrans(root, x.value.content.root);
      LookupSame(store, store', x.value.content.root, q[1..]);
    }
  }

  lemma {:induction false} PrefixTail(a: Path, b: Path)
    requires a != [] && b != [] && a[0] == b[0]
    ensures a == b <==> a[1..] == b[1..]
    ensures a < b <==> a[1..] < b[1..]
  {
    if a[1..] == b[1..] {
      assert a == [a[0]] + a[1..] && b == [b[0]] + b[1..];
    }
    if a[1..] <= b[1..] {
      assert a <= b by {
        assert forall i :: 0 < i < |a| ==> a[i] == a[1..][i - 1] && b[i] == b[1..][i - 1];
      }
    }
    if a <= b {
      assert a[1..] <= b[1..];
    }
  }

  lemma {:induction false} PutHere(store: set<Hash>, t: set<Hash>, l: set<Hash>, root: Hash, e: Entry, mtime: nat,
                                   cut: seq<Cell> -> bool, q: Path)
    requires Sound(store, t, l) && root in t && Put(store, root, [], e, mtime, cut).Some?
    ensures var (o, r) := Put(store, root, [], e, mtime, cut).value; PutAt(store, root, store + o, r, [e.name], e, q)
  {
    hide Load, Get, Relink, Nodes, Sound, Directory;
    var dir := Load(store, root).value;
    LoadDirectory(store, root);
    var (o, r) := Relink(dir, e, cut).value;
    SoundReach(store, t, l, root);
    assert Nodes(root) <= store by {
      SoundHas(store, t, l);
    }
    if q != [] {
      RelinkLoads(store + o, dir, e, cut, q[0]);
      if q[0] != e.name {
        Elsewhere(store, root, store + o, r, q);
      } else {
        assert |q| == 1 ==> q == [e.name];
        assert [e.name] <= q;
      }
    }
  }

  lemma {:induction false} SoundHas(store: set<Hash>, t: set<Hash>, l: set<Hash>)
    requires Sound(store, t, l)
    ensures t <= store
  {
  }

  lemma {:induction false} PutAside(store: set<Hash>, t: set<Hash>, l: set<Hash>, root: Hash, dirPath: Path, e: Entry,
                                    mtime: nat, cut: seq<Cell> -> bool, q: Path)
    requires Sound(store, t, l) && root in t && Put(store, root, dirPath, e, mtime, cut).Some?
    requires dirPath != [] && (q == [] || q[0] != dirPath[0])
    ensures var (o, r) := Put(store, root, dirPath, e, mtime, cut).value;
            LookupIn(store + o, r, q) == LookupIn(store, root, q)
  {
    hide Load, Get, Relink, Nodes, Sound, Directory, EmptyRoot;
    if q != [] {
      var dir := Load(store, root).value;
      LoadDirectory(store, root);
      var (o, r) := Put(store, root, dirPath, e, mtime, cut).value;
      var x := Get(dir, dirPath[0]);
      if x.Some? {
        GetBelow(store, root, dirPath[0]);
      }
      var made := if x.Some? then {} else {EmptyRoot()};
      var child := if x.Some? then x.value.content.root else EmptyRoot();
      var sub := Put(store + made, child, dirPath[1..], e, mtime, cut).value;
      RelinkLoads(store + o, dir, Pointing(x, dirPath[0], mtime, sub.1), cut, q[0]);
      SoundReach(store, t, l, root);
      SoundHas(store, t, l);
      Elsewhere(store, root, store + o, r, q);
    }
  }

  /** One step down: the edited child is where the lookup goes on. */
  lemma {:induction false} PutStep(store: set<Hash>, t: set<Hash>, l: set<Hash>, root: Hash, dirPath: Path, e: Entry,
                                   mtime: nat, cut: seq<Cell> -> bool, q: Path)
    requires Sound(store, t, l) && root in t && RefsWithin([e], t, l)
    requires dirPath != [] && q != [] && q[0] == dirPath[0] && Put(store, root, dirPath, e, mtime, cut).Some?
    ensures var x := Get(Load(store, root).value, q[0]);
            var made := if x.Some? then {} else {EmptyRoot()};
            var child := if x.Some? then x.value.content.root else EmptyRoot();
            var (o, r) := Put(store, root, dirPath, e, mtime, cut).value;
            && (x.Some? ==> x.value.content.DirRoot?)
            && Sound(store + made, t + made, l) && child in t + made
            && Put(store + made, child, dirPath[1..], e, mtime, cut).Some?
            && var (so, sr) := Put(store + made, child, dirPath[1..], e, mtime, cut).value;
               LookupIn(store + o, r, q) ==
               if |q| == 1 then Some(Some(Pointing(x, q[0], mtime, sr))) else LookupIn(store + made + so, sr, q[1..])
  {
    hide Load, Get, Relink, Nodes, Sound, Directory, EmptyRoot, RefsWithin;
    var dir := Load(store, root).value;
    LoadDirectory(store, root);
    var (o, r) := Put(store, root, dirPath, e, mtime, cut).value;
    var x := Get(dir, dirPath[0]);
    var made := if x.Some? then {} else {EmptyRoot()};
    var child := if x.Some? then x.value.content.root else EmptyRoot();
    if x.Some? {
      GetBelow(store, root, dirPath[0]);
      SoundReach(store, t, l, root);
      assert store + made == store && t + made == t;
    } else {
      MadeSound(store, t, l);
    }
    RefsMore([e], t, made, l);
    var (so, sr) := Put(store + made, child, dirPath[1..], e, mtime, cut).value;
    PutSound(store + made, t + made, l, child, dirPath[1..], e, mtime, cut);
    SoundReach(store + made + so, t + made + so, l, sr);
    SoundHas(store + made + so, t + made + so, l);
    RelinkLoads(store + o, dir, Pointing(x, dirPath[0], mtime, sr), cut, q[0]);
    if |q| > 1 {
      LookupSame(store + o, store + made + so, sr, q[1..]);
    }
  }

  lemma {:induction false} RefsMore(d: seq<Entry>, t: set<Hash>, more: set<Hash>, l: set<Hash>)
    requires RefsWithin(d, t, l)
    ensures RefsWithin(d, t + more, l)
  {
  }

  /** Path-copying put is exact: the named path reads the new entry, its parents are directories with
      their other fields kept, and every diverging path reads as before. */
  lemma {:induction false} PutExact(store: set<Hash>, t: set<Hash>, l: set<Hash>, root: Hash, dirPath: Path, e: Entry,
                                    mtime: nat, cut: seq<Cell> -> bool, q: Path)
    requires Sound(store, t, l) && root in t && RefsWithin([e], t, l)
    requires Put(store, root, dirPath, e, mtime, cut).Some?
    ensures var (o, r) := Put(store, root, dirPath, e, mtime, cut).value;
            PutAt(store, root, store + o, r, dirPath + [e.name], e, q)
    decreases |dirPath|
  {
    hide Load, Get, Put, Sound, EmptyRoot, RefsWithin;
    var target := dirPath + [e.name];
    var (o, r) := Put(store, root, dirPath, e, mtime, cut).value;
    if dirPath == [] {
      PutHere(store, t, l, root, e, mtime, cut, q);
      assert target == [e.name];
    } else if q == [] || q[0] != dirPath[0] {
      PutAside(store, t, l, root, dirPath, e, mtime, cut, q);
    } else {
      PutStep(store, t, l, root, dirPath, e, mtime, cut, q);
      PutLoaded(store, root, dirPath, e, mtime, cut);
      PrefixTail(target, q);
      PrefixTail(q, target);
      if |q| > 1 {
        var x := Get(Load(store, root).value, q[0]);
        var made := if x.Some? then {} else {EmptyRoot()};
        var child := if x.Some? then x.value.content.root else EmptyRoot();
        RefsMore([e], t, made, l);
        PutExact(store + made, t + made, l, child, dirPath[1..], e, mtime, cut, q[1..]);
        assert target[1..] == dirPath[1..] + [e.name];
        if x.None? {
          EmptyLookup(store + made, q[1..]);
        } else {
          assert store + made == store;
        }
      }
    }
  }

  lemma {:induction false} PutLoaded(store: set<Hash>, root: Hash, dirPath: Path, e: Entry, mtime: nat,
                                     cut: seq<Cell> -> bool)
    requires Put(store, root, dirPath, e, mtime, cut).Some?
    ensures Load(store, root).Some?
  {
  }

  /** The old root still resolves every path as before: an edit only adds objects. */
  lemma {:induction false} OldRootStays(store: set<Hash>, t: set<Hash>, l: set<Hash>, root: Hash, o: set<Hash>, q: Path)
    requires Sound(store, t, l) && root in t
    ensures LookupIn(store + o, root, q) == LookupIn(store, root, q)
  {
    hide LookupIn, Nodes, Sound;
    SoundReach(store, t, l, root);
    SoundHas(store, t, l);
    LookupSame(store + o, store, root, q);
  }

  // ── Remove ──

  /** Remove the entry at `path`; a missing path is a no-op that gives the old root. The third part is
      the removed entry. */
  function Unlink(store: set<Hash>, root: Hash, path: Path, cut: seq<Cell> -> bool)
    : Option<(set<Hash>, Hash, Option<Entry>)>
    decreases |path|
  {
    if path == [] then Some(({}, root, None))
    else
      var dir :- Load(store, root);
      LoadDirectory(store, root);
      var x := Get(dir, path[0]);
      if x.None? then Some(({}, root, None))
      else if |path| == 1 then
        RemoveDirectory(dir, path[0]);
        var saved :- Saved(Remove(dir, path[0]), cut);
        Some((saved.0, saved.1, x))
      else if !x.value.content.DirRoot? then None
      else
        var sub :- Unlink(store, x.value.content.root, path[1..], cut);
        if sub.2.None? then Some(({}, root, None))
        else
          var up :- Relink(dir, x.value.(content := DirRoot(sub.1)), cut);
          Some((sub.0 + up.0, up.1, sub.2))
  }

  lemma {:induction false} RemoveWithin(dir: seq<Entry>, n: Bytes, t: set<Hash>, l: set<Hash>)
    requires RefsWithin(dir, t, l)
    ensures RefsWithin(Remove(dir, n), t, l)
    decreases |dir|
  {
    if dir != [] && dir[0].name != n {
      RemoveWithin(dir[1..], n, t, l);
    }
  }

  lemma {:induction false} UnlinkSound(store: set<Hash>, t: set<Hash>, l: set<Hash>, root: Hash, path: Path,
                                       cut: seq<Cell> -> bool)
    requires Sound(store, t, l) && root in t && Unlink(store, root, path, cut).Some?
    ensures var (o, r, _) := Unlink(store, root, path, cut).value; Sound(store + o, t + o, l) && r in t + o
    decreases |path|
  {
    hide Load, Get, Relink, Sound, Directory, RefsWithin, Saved;
    var (o, r, gone) := Unlink(store, root, path, cut).value;
    if gone.None? {
      assert store + o == store && t + o == t;
    } else {
      var dir := Load(store, root).value;
      LoadDirectory(store, root);
      LoadWithin(store, t, l, root);
      if |path| == 1 {
        RemoveDirectory(dir, path[0]);
        RemoveWithin(dir, path[0], t, l);
        SavedSound(store, t, l, Remove(dir, path[0]), cut);
      } else {
        var x := Get(dir, path[0]).value;
        GetBelow(store, root, path[0]);
        SoundReach(store, t, l, root);
        UnlinkSound(store, t, l, x.content.root, path[1..], cut);
        var (so, sr, _) := Unlink(store, x.content.root, path[1..], cut).value;
        var y := x.(content := DirRoot(sr));
        OneDir(y, t + so, l);
        RefsMore(dir, t, so, l);
        RelinkSound(store + so, t + so, l, dir, y, cut);
        var uo := Relink(dir, y, cut).value.0;
        assert store + (so + uo) == store + so + uo && t + (so + uo) == t + so + uo;
      }
    }
  }

  lemma {:induction false} OneDir(x: Entry, t: set<Hash>, l: set<Hash>)
    requires x.content.DirRoot? && x.content.root in t
    ensures RefsWithin([x], t, l)
  {
  }

  /** What a removal does to every path. */
  ghost predicate UnlinkAt(store: set<Hash>, root: Hash, store': set<Hash>, root': Hash, target: Path, q: Path) {
    var was, now := LookupIn(store, root, q), LookupIn(store', root', q);
    if target <= q then now == Some(None)
    else if q < target then
      now == was || (was.Some? && was.value.Some? && was.value.value.content.DirRoot? &&
                     now.Some? && now.value.Some? && now.value.value.content.DirRoot? &&
                     was.value.value.(content := now.value.value.content) == now.value.value)
    else now == was
  }

  lemma {:induction false} UnlinkStep(store: set<Hash>, t: set<Hash>, l: set<Hash>, root: Hash, path: Path,
                                      cut: seq<Cell> -> bool, q: Path)
    requires Sound(store, t, l) && root in t && Unlink(store, root, path, cut).Some?
    requires |path| > 1 && Unlink(store, root, path, cut).value.2.Some? && q != [] && q[0] == path[0]
    ensures Load(store, root).Some?
    ensures var x := Get(Load(store, root).value, q[0]); var (o, r, _) := Unlink(store, root, path, cut).value;
            && x.Some? && x.value.content.DirRoot? && x.value.content.root in t
            && Unlink(store, x.value.content.root, path[1..], cut).Some?
            && var (so, sr, _) := Unlink(store, x.value.content.root, path[1..], cut).value;
               LookupIn(store + o, r, q) ==
               if |q| == 1 then Some(Some(x.value.(content := DirRoot(sr)))) else LookupIn(store + so, sr, q[1..])
  {
    hide Load, Get, Relink, Nodes, Sound, Directory, Saved;
    var dir := Load(store, root).value;
    LoadDirectory(store, root);
    var (o, r, _) := Unlink(store, root, path, cut).value;
    var x := Get(dir, path[0]).value;
    GetBelow(store, root, path[0]);
    SoundReach(store, t, l, root);
    UnlinkSound(store, t, l, x.content.root, path[1..], cut);
    var (so, sr, _) := Unlink(store, x.content.root, path[1..], cut).value;
    SoundReach(store + so, t + so, l, sr);
    SoundHas(store + so, t + so, l);
    RelinkLoads(store + o, dir, x.(content := DirRoot(sr)), cut, q[0]);
    if |q| > 1 {
      LookupSame(store + o, store + so, sr, q[1..]);
    }
  }

  lemma {:induction false} UnlinkAside(store: set<Hash>, t: set<Hash>, l: set<Hash>, root: Hash, path: Path,
                                       cut: seq<Cell> -> bool, q: Path)
    requires Sound(store, t, l) && root in t && Unlink(store, root, path, cut).Some?
    requires path != [] && q != [] && Unlink(store, root, path, cut).value.2.Some?
    ensures var (o, r, _) := Unlink(store, root, path, cut).value;
            && (q[0] != path[0] ==> LookupIn(store + o, r, q) == LookupIn(store, root, q))
            && (q[0] == path[0] && |path| == 1 ==> LookupIn(store + o, r, q) == Some(None))
  {
    hide Load, Get, Relink, Nodes, Sound, Saved, ValidEntry;
    var dir := Load(store, root).value;
    LoadDirectory(store, root);
    var (o, r, _) := Unlink(store, root, path, cut).value;
    SoundReach(store, t, l, root);
    SoundHas(store, t, l);
    if |path| == 1 {
      RemoveDirectory(dir, path[0]);
      LoadSaved(store + o, Remove(dir, path[0]), cut);
      RemoveGet(dir, path[0], q[0]);
    } else {
      var x := Get(dir, path[0]).value;
      GetBelow(store, root, path[0]);
      var sr := Unlink(store, x.content.root, path[1..], cut).value.1;
      RelinkLoads(store + o, dir, x.(content := DirRoot(sr)), cut, q[0]);
    }
    if q[0] != path[0] {
      Elsewhere(store, root, store + o, r, q);
    }
  }

  /** Nothing was there to remove: every path from it on reads nothing. */
  lemma {:induction false} UnlinkNothing(store: set<Hash>, root: Hash, path: Path, cut: seq<Cell> -> bool, q: Path)
    requires path != [] && path <= q && Unlink(store, root, path, cut).Some?
    requires Unlink(store, root, path, cut).value.2.None?
    ensures LookupIn(store, root, q) == Some(None)
    decreases |path|
  {
    hide Load, Get, Relink, Saved;
    LoadDirectoryOnce(store, root);
    var x := Get(Load(store, root).value, path[0]);
    assert q[0] == path[0];
    if x.Some? && |path| > 1 {
      assert path[1..] <= q[1..];
      UnlinkNothing(store, x.value.content.root, path[1..], cut, q[1..]);
    }
  }

  lemma {:induction false} LoadDirectoryOnce(store: set<Hash>, root: Hash)
    ensures Load(store, root).Some? ==> Directory(Load(store, root).value)
  {
    hide Load, Directory;
    if Load(store, root).Some? {
      LoadDirectory(store, root);
    }
  }

  /** Path-copying removal is exact. */
  lemma {:induction false} UnlinkExact(store: set<Hash>, t: set<Hash>, l: set<Hash>, root: Hash, path: Path,
                                       cut: seq<Cell> -> bool, q: Path)
    requires Sound(store, t, l) && root in t && path != [] && Unlink(store, root, path, cut).Some?
    ensures var (o, r, _) := Unlink(store, root, path, cut).value; UnlinkAt(store, root, store + o, r, path, q)
    decreases |path|
  {
    hide Load, Get, Unlink, Sound;
    var (o, r, gone) := Unlink(store, root, path, cut).value;
    if gone.None? {
      UnlinkNone(store, root, path, cut);
      assert store + o == store;
      if path <= q {
        UnlinkNothing(store, root, path, cut, q);
      }
    } else if q != [] {
      UnlinkAside(store, t, l, root, path, cut, q);
      if q[0] == path[0] && |path| > 1 {
        UnlinkStep(store, t, l, root, path, cut, q);
        PrefixTail(path, q);
        PrefixTail(q, path);
        if |q| > 1 {
          var k := Get(Load(store, root).value, q[0]).value.content.root;
          UnlinkExact(store, t, l, k, path[1..], cut, q[1..]);
        }
      }
    }
  }

  lemma {:induction false} UnlinkNone(store: set<Hash>, root: Hash, path: Path, cut: seq<Cell> -> bool)
    requires Unlink(store, root, path, cut).Some? && Unlink(store, root, path, cut).value.2.None?
    ensures Unlink(store, root, path, cut).value == ({}, root, None)
  {
  }

  // ── Everything an edit stores parses ──

  lemma {:induction false} LeavesDecode(d: seq<Entry>, cut: seq<Cell> -> bool, h: Hash)
    requires AllValid(d) && h in HashesOfNodes(Leaves(d, cut))
    ensures DecodeNode(h.content).Some?
    decreases |d|
  {
    hide Leaves, NodeCells, EntryImages, ValidEntry, DecodeNode;
    var ks := Leaves(d, cut);
    var i :| 0 <= i < |ks| && ks[i].hash == h;
    if d == [] {
      NoLeaves(cut);
    } else {
      var k := CutLen(Flags(EntryImages(d), cut), 0);
      LeavesStep(d, cut);
      if i == 0 {
        LeafDecodes(d[..k]);
      } else {
        assert ks[1..] == Leaves(d[k..], cut) && ks[1..][i - 1] == ks[i];
        NodesHave(ks[1..], i - 1);
        LeavesDecode(d[k..], cut, h);
      }
    }
  }

  lemma {:induction false} LeafDecodes(es: seq<Entry>)
    requires AllValid(es) && |es| <= MAX_NODE_ENTRIES
    ensures DecodeNode(NodeCells(0, EntryImages(es))).Some?
  {
    hide EntriesCells, EntryImages, DecodeNode, ValidEntry;
    FlatEntries(es);
    assert NodeCells(0, EntryImages(es)) == LeafCells(es);
    LeafRoundTrip(es);
  }

  lemma {:induction false} InternalDecodes(level: nat, ks: seq<Child>)
    requires 0 < level <= 255 && Keyed(ks) && |ks| <= MAX_NODE_ENTRIES
    ensures DecodeNode(NodeCells(level, ChildImages(ks))).Some?
  {
    hide ChildrenCells, ChildImages, DecodeNode;
    FlatChildren(ks);
    assert NodeCells(level, ChildImages(ks)) == InternalCells(level, ks);
    InternalRoundTrip(level, ks);
  }

  lemma {:induction false} ParentsDecode(level: nat, ks: seq<Child>, cut: seq<Cell> -> bool, h: Hash)
    requires 0 < level <= 255 && Keyed(ks) && h in HashesOfNodes(Parents(level, ks, cut))
    ensures DecodeNode(h.content).Some?
    decreases |ks|
  {
    hide Parents, NodeCells, ChildImages, DecodeNode;
    var up := Parents(level, ks, cut);
    var i :| 0 <= i < |up| && up[i].hash == h;
    if ks == [] {
      NoParents(level, cut);
    } else {
      var k := CutLen(Flags(ChildImages(ks), cut), 0);
      ParentsStep(level, ks, cut);
      if i == 0 {
        InternalDecodes(level, ks[..k]);
      } else {
        assert up[1..] == Parents(level, ks[k..], cut) && up[1..][i - 1] == up[i];
        NodesHave(up[1..], i - 1);
        ParentsDecode(level, ks[k..], cut, h);
      }
    }
  }

  lemma {:induction false} UpDecodes(level: nat, nodes: seq<Child>, cut: seq<Cell> -> bool, h: Hash)
    requires level <= 255 && nodes != [] && Keyed(nodes) && Up(level, nodes, cut).Some?
    requires h in Up(level, nodes, cut).value.0
    ensures DecodeNode(h.content).Some?
    decreases 255 - level
  {
    hide Parents, DecodeNode, HashesOfNodes;
    ParentsKeyed(level + 1, nodes, cut);
    var above := Parents(level + 1, nodes, cut);
    if h in HashesOfNodes(above) {
      ParentsDecode(level + 1, nodes, cut, h);
    } else {
      UpDecodes(level + 1, above, cut, h);
    }
  }

  lemma {:induction false} SavedDecodes(d: seq<Entry>, cut: seq<Cell> -> bool, h: Hash)
    requires AllValid(d) && Saved(d, cut).Some? && h in Saved(d, cut).value.0
    ensures DecodeNode(h.content).Some?
  {
    hide Leaves, Up, HashesOfNodes, ValidEntry, DecodeNode, LeafCells;
    if d == [] {
      LeafRoundTrip([]);
    } else {
      LeavesKeyed(d, cut);
      if h in HashesOfNodes(Leaves(d, cut)) {
        LeavesDecode(d, cut, h);
      } else {
        UpDecodes(0, Leaves(d, cut), cut, h);
      }
    }
  }

  lemma {:induction false} RelinkDecodes(dir: seq<Entry>, x: Entry, cut: seq<Cell> -> bool, h: Hash)
    requires Directory(dir) && Relink(dir, x, cut).Some? && h in Relink(dir, x, cut).value.0
    ensures DecodeNode(h.content).Some?
  {
    hide Saved, DecodeNode, ValidEntry;
    UpsertDirectory(dir, x);
    SavedDecodes(Upsert(dir, x), cut, h);
  }

  lemma {:induction false} PutDecodes(store: set<Hash>, root: Hash, dirPath: Path, e: Entry, mtime: nat,
                                      cut: seq<Cell> -> bool, h: Hash)
    requires Put(store, root, dirPath, e, mtime, cut).Some? && h in Put(store, root, dirPath, e, mtime, cut).value.0
    ensures DecodeNode(h.content).Some?
    decreases |dirPath|
  {
    hide Load, Get, Relink, DecodeNode, Directory, LeafCells;
    var dir := Load(store, root).value;
    LoadDirectory(store, root);
    if dirPath == [] {
      RelinkDecodes(dir, e, cut, h);
    } else {
      var x := Get(dir, dirPath[0]);
      var made := if x.Some? then {} else {EmptyRoot()};
      var child := if x.Some? then x.value.content.root else EmptyRoot();
      var (so, sr) := Put(store + made, child, dirPath[1..], e, mtime, cut).value;
      if h in so {
        PutDecodes(store + made, child, dirPath[1..], e, mtime, cut, h);
      } else if h in made {
        LeafRoundTrip([]);
      } else {
        RelinkDecodes(dir, Pointing(x, dirPath[0], mtime, sr), cut, h);
      }
    }
  }

  lemma {:induction false} UnlinkDecodes(store: set<Hash>, root: Hash, path: Path, cut: seq<Cell> -> bool, h: Hash)
    requires Unlink(store, root, path, cut).Some? && h in Unlink(store, root, path, cut).value.0
    ensures DecodeNode(h.content).Some?
    decreases |path|
  {
    hide Load, Get, Relink, DecodeNode, Saved, ValidEntry;
    var dir := Load(store, root).value;
    LoadDirectory(store, root);
    if |path| == 1 {
      RemoveDirectory(dir, path[0]);
      SavedDecodes(Remove(dir, path[0]), cut, h);
    } else {
      var x := Get(dir, path[0]).value;
      var (so, sr, _) := Unlink(store, x.content.root, path[1..], cut).value;
      if h in so {
        UnlinkDecodes(store, x.content.root, path[1..], cut, h);
      } else {
        RelinkDecodes(dir, x.(content := DirRoot(sr)), cut, h);
      }
    }
  }

  ghost predicate SaneList(l: Hash) {
    DecodeList(l.content).Some? && forall c :: c in ChunksOf(l) ==> AllRaw(c.content)
  }

  lemma {:induction false} SaneEdit(root: Hash, r: Hash, o: set<Hash>, more: set<Hash>)
    requires Sane(root) && Nodes(r) <= Nodes(root) + o && Lists(r) <= Lists(root) + more
    requires forall h :: h in o ==> DecodeNode(h.content).Some?
    requires forall l :: l in more ==> SaneList(l)
    ensures Sane(r)
  {
    hide Nodes, Lists, DecodeNode, DecodeList, ChunksOf, AllRaw;
    forall c | c in Chunks(r)
      ensures AllRaw(c.content)
    {
      var l :| l in Lists(r) && c in ChunksOf(l);
      if l in more {
        assert SaneList(l);
      } else {
        assert c in Chunks(root);
      }
    }
  }

  // ── Edits seen as files ──

  lemma {:induction false} FileSame(store: set<Hash>, t: set<Hash>, l: set<Hash>, root: Hash, store': set<Hash>,
                                    root': Hash, q: Path)
    requires Sound(store, t, l) && root in t && store <= store'
    requires LookupIn(store', root', q) == LookupIn(store, root, q)
    ensures FileIn(store', root', q) == FileIn(store, root, q)
  {
    hide LookupIn, ReadFile, Nodes, Lists, ChunksOf;
    var e := LookupIn(store, root, q);
    if e.Some? && e.value.Some? {
      LookupBelow(store, root, q);
      SoundReach(store, t, l, root);
      ReadSame(store, store', e.value.value.content, e.value.value.size);
    }
  }

  lemma {:induction false} DirNoFile(store: set<Hash>, root: Hash, q: Path)
    requires var r := LookupIn(store, root, q); r.Some? && r.value.Some? && r.value.value.content.DirRoot?
    ensures LookupIn(store, root, q).value.value.kind == Dir && FileIn(store, root, q) == None
  {
    hide LookupIn;
    LookupBelow(store, root, q);
  }

  /** A file put at `target`: that file reads back, nothing is left below it, and every other path reads
      as before. */
  lemma {:induction false} PutFile(store: set<Hash>, root: Hash, dirPath: Path, e: Entry, mtime: nat,
                                   cut: seq<Cell> -> bool, q: Path)
    requires Reach(root) <= store && Put(store, root, dirPath, e, mtime, cut).Some? && e.kind == File
    requires !e.content.DirRoot?
    requires e.content.ChunkList? ==> e.content.list in store && ChunksOf(e.content.list) <= store
    ensures var (o, r) := Put(store, root, dirPath, e, mtime, cut).value; var target := dirPath + [e.name];
            && Reach(r) <= store + o
            && (Sane(root) && (e.content.ChunkList? ==> SaneList(e.content.list)) ==> Sane(r))
            && Files(r, q) == if q == target then ReadFile(store, e.content, e.size)
                              else if target < q then None else Files(root, q)
  {
    hide LookupIn, ReadFile, Nodes, Lists, ChunksOf, Put, Reach, Sane, SaneList, DecodeNode;
    var (o, r) := Put(store, root, dirPath, e, mtime, cut).value;
    var t, l := Nodes(root), Lists(root) + (if e.content.ChunkList? then {e.content.list} else {});
    ReachSound(store, root);
    assert Sound(store, t, l);
    assert RefsWithin([e], t, l);
    PutSound(store, t, l, root, dirPath, e, mtime, cut);
    SoundReach(store + o, t + o, l, r);
    if Sane(root) && (e.content.ChunkList? ==> SaneList(e.content.list)) {
      forall h | h in o ensures DecodeNode(h.content).Some? {
        PutDecodes(store, root, dirPath, e, mtime, cut, h);
      }
      SaneEdit(root, r, o, if e.content.ChunkList? then {e.content.list} else {});
    }
    ReachSuffices(store + o, r, q);
    ReachSuffices(store, root, q);
    PutExact(store, t, l, root, dirPath, e, mtime, cut, q);
    var target := dirPath + [e.name];
    if q == target {
      ReadSame(store, store + o, e.content, e.size);
    } else if target < q {
    } else if q != [] && q < target {
      DirNoFile(store + o, r, q);
    } else {
      FileSame(store, t, l, root, store + o, r, q);
    }
  }

  /** A path removed: nothing is left at or below it, and every other path reads as before. */
  lemma {:induction false} UnlinkFile(store: set<Hash>, root: Hash, path: Path, cut: seq<Cell> -> bool, q: Path)
    requires Reach(root) <= store && path != [] && Unlink(store, root, path, cut).Some?
    ensures var (o, r, _) := Unlink(store, root, path, cut).value;
            && Reach(r) <= store + o
            && (Sane(root) ==> Sane(r))
            && Files(r, q) == if path <= q then None else Files(root, q)
  {
    hide LookupIn, ReadFile, Nodes, Lists, ChunksOf, Unlink, Reach, Sound, Sane, DecodeNode;
    var (o, r, _) := Unlink(store, root, path, cut).value;
    var t, l := Nodes(root), Lists(root);
    ReachSound(store, root);
    UnlinkSound(store, t, l, root, path, cut);
    SoundReach(store + o, t + o, l, r);
    if Sane(root) {
      forall h | h in o ensures DecodeNode(h.content).Some? {
        UnlinkDecodes(store, root, path, cut, h);
      }
      SaneEdit(root, r, o, {});
    }
    ReachSuffices(store + o, r, q);
    ReachSuffices(store, root, q);
    UnlinkExact(store, t, l, root, path, cut, q);
    if !(path <= q) {
      if LookupIn(store + o, r, q) == LookupIn(store, root, q) {
        FileSame(store, t, l, root, store + o, r, q);
      } else {
        DirNoFile(store + o, r, q);
      }
    }
  }

  lemma {:induction false} EmptyDecodes()
    ensures DecodeNode(EmptyRoot().content).Some?
  {
    hide DecodeNode;
    LeafRoundTrip([]);
  }

  /** A new ref's empty directory. */
  lemma {:induction false} EmptyTree(q: Path)
    ensures Files(EmptyRoot(), q) == None && Reach(EmptyRoot()) == {EmptyRoot()} && Sane(EmptyRoot())
  {
    hide LookupIn, EmptyRoot, Nodes, ChildNodes, ListsOf, DecodeNode;
    EmptyWithin();
    EmptyDecodes();
    var t: set<Hash> := {EmptyRoot()};
    assert Sound(t, t, {});
    SoundReach(t, t, {}, EmptyRoot());
    NodeItself(EmptyRoot());
    ReachSuffices(t, EmptyRoot(), q);
    EmptyLookup(t, q);
  }
}
