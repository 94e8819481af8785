/** Nested directories over an object store: lookup, and edits that copy the path they change. */
module Tree {
  import opened Cells
  import opened FileChunks
  import opened Entries
  import opened Prolly
  import opened Gc

  // ── What loading a directory depends on and gives ──

  lemma {:induction false} BelowInternal(h: Hash, i: nat)
    requires DecodeNode(h.content).Some? && DecodeNode(h.content).value.body.Internal?
    requires i < |DecodeNode(h.content).value.body.children|
    ensures Nodes(DecodeNode(h.content).value.body.children[i].hash) <= Nodes(h)
    ensures Lists(DecodeNode(h.content).value.body.children[i].hash) <= Lists(h)
  {
    hide DecodeNode, Nodes, Lists, ChildNodes;
    var k := DecodeNode(h.content).value.body.children[i].hash;
    NodeItself(h);
    InternalRefs(h, h);
    ReachSound(Reach(h), h);
    SoundReach(Reach(h), Nodes(h), Lists(h), k);
  }

  /** The loaded entries are valid, and everything they refer to is below the node. */
  ghost predicate RefsBelow(es: seq<Entry>, h: Hash) {
    && AllValid(es)
    && (forall i :: 0 <= i < |es| && es[i].content.DirRoot? ==> es[i].content.root in Nodes(h))
    && (forall i :: 0 <= i < |es| && es[i].content.ChunkList? ==> es[i].content.list in Lists(h))
  }

  lemma {:induction false} LeafBelow(h: Hash)
    requires DecodeNode(h.content).Some? && DecodeNode(h.content).value.body.Leaf?
    ensures RefsBelow(DecodeNode(h.content).value.body.entries, h)
  {
    hide DecodeNode, Nodes, Lists, AllValid;
    NodeItself(h);
    NodeHeld(h.content);
    LeafRefs(h, h);
  }

  lemma {:induction false} NodeRefsBelow(store: set<Hash>, h: Hash, level: nat)
    requires LoadNode(store, h, level).Some?
    ensures RefsBelow(LoadNode(store, h, level).value, h)
    decreases level, 0
  {
    hide DecodeNode, RefsBelow;
    var node := DecodeNode(h.content).value;
    match node.body
    case Leaf(_) =>
      LeafBelow(h);
    case Internal(ks) =>
      forall i | 0 <= i < |ks| ensures Nodes(ks[i].hash) <= Nodes(h) && Lists(ks[i].hash) <= Lists(h) {
        BelowInternal(h, i);
      }
      KidsRefsBelow(store, ks, level - 1, h);
  }

  lemma {:induction false} KidsRefsBelow(store: set<Hash>, ks: seq<Child>, level: nat, h: Hash)
    requires LoadKids(store, ks, level).Some?
    requires forall i :: 0 <= i < |ks| ==> Nodes(ks[i].hash) <= Nodes(h) && Lists(ks[i].hash) <= Lists(h)
    ensures RefsBelow(LoadKids(store, ks, level).value, h)
    decreases level, 1 + |ks|
  {
    hide LoadNode, Nodes, Lists, ValidEntry;
    if ks != [] {
      NodeRefsBelow(store, ks[0].hash, level);
      KidsRefsBelow(store, ks[1..], level, h);
    }
  }

  lemma {:induction false} LoadRefsBelow(store: set<Hash>, root: Hash)
    requires Load(store, root).Some?
    ensures RefsBelow(Load(store, root).value, root) && Directory(Load(store, root).value)
  {
    hide DecodeNode, Sorted, LoadKids, AllValid;
    var node := DecodeNode(root.content).value;
    match node.body
    case Leaf(_) =>
      LeafBelow(root);
    case Internal(ks) =>
      forall i | 0 <= i < |ks| ensures Nodes(ks[i].hash) <= Nodes(root) && Lists(ks[i].hash) <= Lists(root) {
        BelowInternal(root, i);
      }
      KidsRefsBelow(store, ks, node.level - 1, root);
  }

  lemma {:induction false} LoadDirectory(store: set<Hash>, root: Hash)
    requires Load(store, root).Some?
    ensures Directory(Load(store, root).value)
  {
    hide Load, Directory;
    LoadRefsBelow(store, root);
  }

  lemma {:induction false} NodeSame(a: set<Hash>, b: set<Hash>, h: Hash, level: nat)
    requires Nodes(h) <= a && Nodes(h) <= b
    ensures LoadNode(a, h, level) == LoadNode(b, h, level)
    decreases level, 0
  {
    hide DecodeNode, Nodes;
    NodeItself(h);
    if DecodeNode(h.content).Some? && DecodeNode(h.content).value.body.Internal? && level > 0 {
      var ks := DecodeNode(h.content).value.body.children;
      forall i | 0 <= i < |ks| ensures Nodes(ks[i].hash) <= Nodes(h) {
        BelowInternal(h, i);
      }
      KidsSame(a, b, ks, level - 1);
    }
  }

  lemma {:induction false} KidsSame(a: set<Hash>, b: set<Hash>, ks: seq<Child>, level: nat)
    requires forall i :: 0 <= i < |ks| ==> Nodes(ks[i].hash) <= a && Nodes(ks[i].hash) <= b
    ensures LoadKids(a, ks, level) == LoadKids(b, ks, level)
    decreases level, 1 + |ks|
  {
    hide LoadNode, Nodes;
    if ks != [] {
      NodeSame(a, b, ks[0].hash, level);
      KidsSame(a, b, ks[1..], level);
    }
  }

  /** Loading needs only the nodes of the directory. */
  lemma {:induction false} LoadSame(a: set<Hash>, b: set<Hash>, root: Hash)
    requires Nodes(root) <= a && Nodes(root) <= b
    ensures Load(a, root) == Load(b, root)
  {
    hide DecodeNode, Nodes, LoadKids;
    NodeItself(root);
    if DecodeNode(root.content).Some? && DecodeNode(root.content).value.body.Internal? {
      var node := DecodeNode(root.content).value;
      var ks := node.body.children;
      forall i | 0 <= i < |ks| ensures Nodes(ks[i].hash) <= Nodes(root) {
        BelowInternal(root, i);
      }
      if node.level > 0 {
        KidsSame(a, b, ks, node.level - 1);
      }
    }
  }

  // ── Lookup ──

  /** `None` is an error: an unreadable directory, or a path through a file. */
  function LookupIn(store: set<Hash>, root: Hash, path: Path): Option<Option<Entry>>
    decreases |path|
  {
    if path == [] then Some(None)
    else
      var dir :- Load(store, root);
      var e := Get(dir, path[0]);
      if |path| == 1 || e.None? then Some(e)
      else if e.value.content.DirRoot? then LookupIn(store, e.value.content.root, path[1..])
      else None
  }

  method Lookup(store: set<Hash>, root: Hash, path: Path) returns (r: Option<Option<Entry>>)
    ensures r == LookupIn(store, root, path)
  {
    hide Load, Get;
    if path == [] {
      return Some(None);
    }
    var cur := root;
    var i := 0;
    assert path[0..] == path;
    while i < |path| - 1
      invariant 0 <= i <= |path| - 1
      invariant LookupIn(store, root, path) == LookupIn(store, cur, path[i..])
    {
      assert path[i..][1..] == path[i + 1..];
      var dir := Load(store, cur);
      if dir.None? {
        return None;
      }
      var e := Get(dir.value, path[i]);
      if e.None? {
        return Some(None);
      }
      if !e.value.content.DirRoot? {
        return None;
      }
      cur := e.value.content.root;
      i := i + 1;
    }
    var dir := Load(store, cur);
    if dir.None? {
      return None;
    }
    return Some(Get(dir.value, path[|path| - 1]));
  }

  lemma {:induction false} GetBelow(store: set<Hash>, root: Hash, n: Bytes)
    requires Load(store, root).Some? && Get(Load(store, root).value, n).Some?
    ensures var e := Get(Load(store, root).value, n).value;
            && ValidEntry(e) && e.name == n
            && (e.content.DirRoot? ==> e.content.root in Nodes(root))
            && (e.content.ChunkList? ==> e.content.list in Lists(root))
  {
    hide Load, Nodes, Lists, ValidEntry;
    LoadRefsBelow(store, root);
    GetValid(Load(store, root).value, n);
  }

  /** Lookups need only the nodes of the tree. */
  lemma {:induction false} LookupSame(a: set<Hash>, b: set<Hash>, root: Hash, path: Path)
    requires Nodes(root) <= a && Nodes(root) <= b
    ensures LookupIn(a, root, path) == LookupIn(b, root, path)
    decreases |path|
  {
    hide Load, Get, Nodes;
    LoadSame(a, b, root);
    if |path| > 1 && Load(a, root).Some? {
      var e := Get(Load(a, root).value, path[0]);
      if e.Some? && e.value.content.DirRoot? {
        GetBelow(a, root, path[0]);
        ReachTrans(root, e.value.content.root);
        LookupSame(a, b, e.value.content.root, path[1..]);
      }
    }
  }

  lemma {:induction false} LookupBelow(store: set<Hash>, root: Hash, path: Path)
    requires LookupIn(store, root, path).Some? && LookupIn(store, root, path).value.Some?
    ensures var e := LookupIn(store, root, path).value.value;
            ValidEntry(e) && (e.content.ChunkList? ==> e.content.list in Lists(root))
    decreases |path|
  {
    hide Load, Get, Nodes, Lists, ValidEntry;
    var e := Get(Load(store, root).value, path[0]).value;
    GetBelow(store, root, path[0]);
    if |path| > 1 {
      var k := e.content.root;
      ReachSound(Reach(root), root);
      SoundReach(Reach(root), Nodes(root), Lists(root), k);
      LookupBelow(store, k, path[1..]);
    }
  }

  // ── Files ──

  /** A path's file content, if it is a readable file. */
  function FileIn(store: set<Hash>, root: Hash, path: Path): Option<Bytes> {
    match LookupIn(store, root, path)
    case Some(Some(e)) => if e.kind == File then ReadFile(store, e.content, e.size) else None
    case _ => None
  }

  function Files(root: Hash, path: Path): Option<Bytes> {
    FileIn(Reach(root), root, path)
  }

  /** The tree under a root as reads see it. */
  function TreeAt(root: Hash): Path -> Option<Bytes> {
    (p: Path) => Files(root, p)
  }

  lemma {:induction false} ChunksSame(a: set<Hash>, b: set<Hash>, rs: seq<ChunkRef>)
    requires HashesOf(rs) <= a && HashesOf(rs) <= b
    ensures ReadChunks(a, rs) == ReadChunks(b, rs)
  {
    if rs != [] {
      HashesHave(rs, 0);
      forall h | h in HashesOf(rs[1..]) ensures h in HashesOf(rs) {
        var i :| 0 <= i < |rs[1..]| && rs[1..][i].hash == h;
        HashesHave(rs, i + 1);
      }
      ChunksSame(a, b, rs[1..]);
    }
  }

  lemma {:induction false} ReadSame(a: set<Hash>, b: set<Hash>, content: Content, size: nat)
    requires content.ChunkList? ==> content.list in a && content.list in b
    requires content.ChunkList? ==> ChunksOf(content.list) <= a && ChunksOf(content.list) <= b
    ensures ReadFile(a, content, size) == ReadFile(b, content, size)
  {
    hide DecodeList, ReadChunks;
    if content.ChunkList? && DecodeList(content.list.content).Some? {
      ChunksSame(a, b, DecodeList(content.list.content).value);
    }
  }

  /** The reachable objects suffice for every read: a store that keeps them keeps every file. */
  lemma {:induction false} ReachSuffices(store: set<Hash>, root: Hash, path: Path)
    requires Reach(root) <= store
    ensures FileIn(store, root, path) == Files(root, path)
  {
    hide LookupIn, Nodes, ReadFile, ChunksOf, Lists;
    LookupSame(store, Reach(root), root, path);
    var r := LookupIn(store, root, path);
    if r.Some? && r.value.Some? {
      LookupBelow(store, root, path);
      var e := r.value.value;
      ReachSound(Reach(root), root);
      ReadSame(store, Reach(root), e.content, e.size);
    }
  }

  // ── The shape of a tree ──

  /** What the tree holds at a path: `None` when the path leads through a file or an unreadable directory. */
  function EntryAt(root: Hash, q: Path): Option<Option<Entry>> {
    LookupIn(Reach(root), root, q)
  }

  ghost predicate DirAt(root: Hash, q: Path) {
    var r := EntryAt(root, q); r.Some? && r.value.Some? && r.value.value.content.DirRoot?
  }

  ghost predicate FileAt(root: Hash, q: Path) {
    var r := EntryAt(root, q); r.Some? && r.value.Some? && !r.value.value.content.DirRoot?
  }

  /** Some directory on the way to `q` is a file. */
  ghost predicate Through(root: Hash, q: Path) {
    exists k :: 0 < k < |q| && FileAt(root, q[..k])
  }

  ghost predicate ProperAt(root: Hash, q: Path) {
    && (EntryAt(root, q).None? ==> Through(root, q))
    && (FileAt(root, q) ==> Files(root, q).Some?)
  }

  /** Every directory loads and every file reads. */
  ghost predicate Proper(root: Hash) {
    forall q :: ProperAt(root, q)
  }

  /** Any store that holds the tree's objects shows the same. */
  lemma {:induction false} EntrySame(store: set<Hash>, root: Hash, q: Path)
    requires Reach(root) <= store
    ensures LookupIn(store, root, q) == EntryAt(root, q)
  {
    hide LookupIn, Nodes, Lists, Chunks;
    LookupSame(store, Reach(root), root, q);
  }

  /** Below a directory the tree is that directory's tree. */
  lemma {:induction false} EntryBelow(root: Hash, n: Bytes, q: Path)
    requires q != [] && DirAt(root, [n])
    ensures var c := EntryAt(root, [n]).value.value.content.root;
            c in Nodes(root) && EntryAt(root, [n] + q) == EntryAt(c, q)
  {
    hide Load, Get, Nodes, Reach;
    var dir := Load(Reach(root), root).value;
    assert EntryAt(root, [n]) == Some(Get(dir, n));
    var c := Get(dir, n).value.content.root;
    GetBelow(Reach(root), root, n);
    ReachTrans(root, c);
    assert ([n] + q)[1..] == q;
    EntrySame(Reach(root), c, q);
  }

  lemma {:induction false} ProperLoads(root: Hash)
    requires Proper(root)
    ensures Load(Reach(root), root).Some?
  {
    hide Load, Get, Reach;
    assert ProperAt(root, [[]]);
  }

  lemma {:induction false} ProperChild(root: Hash, n: Bytes)
    requires Proper(root) && DirAt(root, [n])
    ensures Proper(EntryAt(root, [n]).value.value.content.root)
  {
    hide EntryAt, Reach, Nodes, ReadFile;
    var c := EntryAt(root, [n]).value.value.content.root;
    forall q
      ensures ProperAt(c, q)
    {
      if q == [] {
        EmptyPath(c);
      } else {
        ChildAt(root, n, c, q);
      }
    }
  }

  lemma {:induction false} EmptyPath(root: Hash)
    ensures EntryAt(root, []) == Some(None)
  {
  }

  lemma {:induction false} ChildAt(root: Hash, n: Bytes, c: Hash, q: Path)
    requires Proper(root) && DirAt(root, [n]) && EntryAt(root, [n]).value.value.content.root == c && q != []
    ensures ProperAt(c, q)
  {
    hide EntryAt, Files;
    EntryBelow(root, n, q);
    FilesBelow(root, n, c, q);
    assert ProperAt(root, [n] + q);
    if EntryAt(c, q).None? {
      var k :| 0 < k < |[n] + q| && FileAt(root, ([n] + q)[..k]);
      assert ([n] + q)[..k] == [n] + q[..k - 1];
      if k > 1 {
        EntryBelow(root, n, q[..k - 1]);
        assert FileAt(c, q[..k - 1]);
      }
    }
  }

  /** A file of a subdirectory reads the same through the subdirectory. */
  lemma {:induction false} FilesBelow(root: Hash, n: Bytes, c: Hash, q: Path)
    requires DirAt(root, [n]) && EntryAt(root, [n]).value.value.content.root == c && q != []
    ensures Files(root, [n] + q) == Files(c, q)
  {
    hide LookupIn, Nodes, ReadFile, ChunksOf, Lists;
    EntryBelow(root, n, q);
    var r := EntryAt(c, q);
    if r.Some? && r.value.Some? {
      LookupBelow(Reach(c), c, q);
      ReachTrans(root, c);
      ReachSound(Reach(c), c);
      ReadSame(Reach(root), Reach(c), r.value.value.content, r.value.value.size);
    }
  }
}
