/** The overlay as a map from paths: what its operations mean for reads, and the flush that turns
    it into tree. The id-keyed overlay is proved against this one. */
module PathOverlay {
  import opened Cells
  import opened Intervals

  /** Pending writes of one file. `origin` is where its committed base lives; a fresh file has none. */
  datatype FileOverlay = FileOverlay(writes: seq<Interval>, isFresh: bool, mtime: nat, origin: Option<Path>)

  datatype FileState = Clean | Dirty(fo: FileOverlay) | Unlinked

  datatype Overlay = Overlay(files: map<Path, FileOverlay>, unlinks: set<Path>)

  /** The committed tree as reads see it. */
  type Tree = Path -> Option<Bytes>

  const EMPTY := Overlay(map[], {})

  predicate IsEmpty(o: Overlay) {
    o.files == map[] && o.unlinks == {}
  }

  function State(o: Overlay, p: Path): FileState {
    if p in o.unlinks then Unlinked else if p in o.files then Dirty(o.files[p]) else Clean
  }

  function Get(o: Overlay, p: Path): Option<FileOverlay> {
    if p in o.files then Some(o.files[p]) else None
  }

  function NewFile(p: Path, isFresh: bool): FileOverlay {
    FileOverlay([], isFresh, 0, if isFresh then None else Some(p))
  }

  function WriteFile(fo: FileOverlay, off: nat, data: Bytes, mtime: nat): FileOverlay {
    fo.(writes := Inserted(fo.writes, off, data), mtime := mtime)
  }

  /** A write resurrects an unlinked path as a fresh file. */
  function Write(o: Overlay, p: Path, off: nat, data: Bytes, mtime: nat): Overlay {
    var fo := if p in o.files then o.files[p] else NewFile(p, p in o.unlinks);
    Overlay(o.files[p := WriteFile(fo, off, data, mtime)], o.unlinks - {p})
  }

  function Unlink(o: Overlay, p: Path): Overlay {
    Overlay(o.files - {p}, o.unlinks + {p})
  }

  /** Bring a clean committed file in, so that a rename can move it. */
  function OpenForRename(o: Overlay, p: Path): Overlay {
    o.(files := o.files[p := NewFile(p, false)])
  }

  /** Move a live file; an existing destination is overwritten, the source name is tombstoned. */
  function Rename(o: Overlay, from: Path, to: Path, mtime: nat): Overlay
    requires from in o.files
  {
    Overlay((o.files - {from, to})[to := o.files[from].(mtime := mtime)], (o.unlinks - {to}) + {from})
  }

  // ── Reads ──

  function Base(tree: Tree, fo: FileOverlay, p: Path): Bytes {
    if fo.isFresh then [] else
      var c := tree(if fo.origin.Some? then fo.origin.value else p);
      if c.Some? then c.value else []
  }

  function Contents(tree: Tree, fo: FileOverlay, p: Path): Bytes {
    Apply(Base(tree, fo, p), fo.writes)
  }

  /** What a read of `p` returns: overlay first, tree below. */
  function View(tree: Tree, o: Overlay, p: Path): Option<Bytes> {
    match State(o, p)
    case Unlinked => None
    case Clean => tree(p)
    case Dirty(fo) => Some(Contents(tree, fo, p))
  }

  function OrEmpty(c: Option<Bytes>): Bytes {
    if c.Some? then c.value else []
  }

  // ── What every operation keeps ──

  predicate FileOk(fo: FileOverlay) {
    Sorted(fo.writes) && (fo.isFresh <==> fo.origin.None?)
  }

  /** A path whose committed content a live file was built from is itself live or tombstoned. */
  ghost predicate Accounted(o: Overlay, fo: FileOverlay) {
    fo.origin.Some? ==> fo.origin.value in o.files || fo.origin.value in o.unlinks
  }

  ghost predicate Valid(o: Overlay) {
    && o.files.Keys !! o.unlinks
    && forall p :: p in o.files ==> FileOk(o.files[p]) && Accounted(o, o.files[p])
  }

  /** The new data is applied faithfully: see `Intervals.InsertExact`. */
  predicate Writable(o: Overlay, p: Path, off: nat, data: Bytes) {
    data != [] || p !in o.files || ByteIn(o.files[p].writes, off).None?
  }

  lemma {:induction false} WriteKeepsValid(o: Overlay, p: Path, off: nat, data: Bytes, mtime: nat)
    requires Valid(o)
    ensures Valid(Write(o, p, off, data, mtime))
  {
    var fo := if p in o.files then o.files[p] else NewFile(p, p in o.unlinks);
    InsertKeepsSorted(fo.writes, off, data);
    hide Inserted, Sorted;
    var o' := Write(o, p, off, data, mtime);
    forall q | q in o'.files
      ensures FileOk(o'.files[q]) && Accounted(o', o'.files[q])
    {
      if q != p {
        assert Accounted(o, o.files[q]);
      } else if p in o.files {
        assert Accounted(o, o.files[p]);
      }
    }
  }

  lemma {:induction false} UnlinkKeepsValid(o: Overlay, p: Path)
    requires Valid(o)
    ensures Valid(Unlink(o, p))
  {
    hide Sorted;
    forall q | q in Unlink(o, p).files
      ensures Accounted(Unlink(o, p), o.files[q])
    {
      assert Accounted(o, o.files[q]);
    }
  }

  lemma {:induction false} OpenKeepsValid(o: Overlay, p: Path)
    requires Valid(o) && State(o, p).Clean?
    ensures Valid(OpenForRename(o, p))
  {
    var o' := OpenForRename(o, p);
    forall q | q in o'.files
      ensures FileOk(o'.files[q]) && Accounted(o', o'.files[q])
    {
      if q != p {
        assert Accounted(o, o.files[q]);
      }
    }
  }

  lemma {:induction false} RenameKeepsValid(o: Overlay, from: Path, to: Path, mtime: nat)
    requires Valid(o) && from in o.files && from != to
    ensures Valid(Rename(o, from, to, mtime))
  {
    hide Sorted;
    var o' := Rename(o, from, to, mtime);
    forall q | q in o'.files
      ensures FileOk(o'.files[q]) && Accounted(o', o'.files[q])
    {
      var s := if q == to then from else q;
      assert FileOk(o.files[s]) && Accounted(o, o.files[s]);
    }
  }

  /** A write reads back spliced into what was there, and nothing else changes. */
  lemma {:induction false} WriteView(tree: Tree, o: Overlay, p: Path, off: nat, data: Bytes, mtime: nat, q: Path)
    requires Valid(o) && Writable(o, p, off, data)
    ensures View(tree, Write(o, p, off, data, mtime), q) ==
              if q == p then Some(Splice(OrEmpty(View(tree, o, p)), off, data)) else View(tree, o, q)
  {
    var fo := if p in o.files then o.files[p] else NewFile(p, p in o.unlinks);
    if q == p {
      InsertIsSplice(Base(tree, fo, p), fo.writes, off, data);
      hide Inserted, Splice;
      assert p !in o.files ==> Apply(Base(tree, fo, p), []) == Base(tree, fo, p);
    }
  }

  lemma {:induction false} UnlinkView(tree: Tree, o: Overlay, p: Path, q: Path)
    ensures View(tree, Unlink(o, p), q) == if q == p then None else View(tree, o, q)
  {
  }

  /** Bringing in a clean file that exists changes no read; bringing in one that does not exist
      creates it. */
  lemma {:induction false} OpenView(tree: Tree, o: Overlay, p: Path, q: Path)
    requires State(o, p).Clean?
    ensures View(tree, OpenForRename(o, p), q) == if q == p then Some(OrEmpty(tree(p))) else View(tree, o, q)
  {
  }

  /** A rename moves the read content and leaves the source absent. */
  lemma {:induction false} RenameView(tree: Tree, o: Overlay, from: Path, to: Path, mtime: nat, q: Path)
    requires Valid(o) && from in o.files && from != to
    ensures View(tree, Rename(o, from, to, mtime), q) ==
              if q == to then View(tree, o, from) else if q == from then None else View(tree, o, q)
  {
    hide Sorted;
    assert FileOk(o.files[from]);
  }

  /** A flush that fails has already dropped the overlay. Reads go on as before, whatever the tree, if and only if
      there was nothing in it. */
  lemma {:induction false} DropExact(o: Overlay)
    ensures (forall tree: Tree, p :: View(tree, o, p) == View(tree, EMPTY, p)) <==> IsEmpty(o)
  {
    if p :| p in o.unlinks {
      var tree: Tree := (q: Path) => Some([]);
      assert View(tree, o, p) == None != View(tree, EMPTY, p);
    } else if p :| p in o.files {
      var tree: Tree := (q: Path) => None;
      assert View(tree, o, p).Some? && View(tree, EMPTY, p) == None;
    } else {
      assert o == EMPTY;
    }
  }

  // ── Flush ──

  function Lookup(t: map<Path, Bytes>, p: Path): Option<Bytes> {
    if p in t then Some(t[p]) else None
  }

  function TreeOf(t: map<Path, Bytes>): Tree {
    (p: Path) => Lookup(t, p)
  }

  /** Names the flush removes: tombstones and moved-away origins, except those a live file is
      about to (re)create. */
  function Removals(o: Overlay): set<Path> {
    (o.unlinks +
     (set p | p in o.files && o.files[p].origin.Some? && o.files[p].origin.value != p :: o.files[p].origin.value))
    - o.files.Keys
  }

  /** The flush of one ref's overlay over its committed tree. Bases are read from the tree as it
      was before the flush. */
  method Flush(base: map<Path, Bytes>, o: Overlay) returns (t: map<Path, Bytes>)
    requires Valid(o)
    ensures forall p :: Lookup(t, p) == View(TreeOf(base), o, p)
  {
    hide Sorted, Contents;
    t := base;
    var rest := Removals(o);
    while rest != {}
      invariant rest <= Removals(o)
      invariant forall p :: Lookup(t, p) == if p in Removals(o) - rest then None else Lookup(base, p)
      decreases rest
    {
      var p :| p in rest;
      t := t - {p};
      rest := rest - {p};
    }
    var todo := o.files.Keys;
    while todo != {}
      invariant todo <= o.files.Keys
      invariant forall p :: p in o.files.Keys - todo ==> Lookup(t, p) == Some(Contents(TreeOf(base), o.files[p], p))
      invariant forall p :: p !in o.files.Keys - todo ==>
                Lookup(t, p) == if p in Removals(o) then None else Lookup(base, p)
      decreases todo
    {
      var p :| p in todo;
      t := t[p := Contents(TreeOf(base), o.files[p], p)];
      todo := todo - {p};
    }
    assert forall p :: p in o.files ==> Accounted(o, o.files[p]);
  }

  // ── Whole runs ──

  datatype FileOp = WriteOp(path: Path, off: nat, data: Bytes) | UnlinkOp(path: Path) | RenameOp(from: Path, to: Path)

  /** The store's rename: a live file is moved; otherwise a committed file is brought in first;
      otherwise there is nothing to move. */
  function StoreRename(tree: Tree, o: Overlay, from: Path, to: Path): Option<Overlay> {
    if from in o.files then Some(Rename(o, from, to, 0))
    else if tree(from).Some? then Some(Rename(OpenForRename(o, from), from, to, 0))
    else None
  }

  function StepOp(tree: Tree, o: Overlay, op: FileOp): Overlay {
    match op
    case WriteOp(p, off, data) => Write(o, p, off, data, 0)
    case UnlinkOp(p) => Unlink(o, p)
    case RenameOp(from, to) =>
      var r := StoreRename(tree, o, from, to);
      if r.Some? then r.value else o
  }

  /** The reference meaning: a plain function from paths to contents. */
  function StepTree(t: Tree, op: FileOp): Tree {
    match op
    case WriteOp(p, off, data) => (q: Path) => if q == p then Some(Splice(OrEmpty(t(p)), off, data)) else t(q)
    case UnlinkOp(p) => (q: Path) => if q == p then None else t(q)
    case RenameOp(from, to) => (q: Path) => if q == to then t(from) else if q == from then None else t(q)
  }

  /** Non-empty writes; renames of a path that reads as a file to another path. */
  predicate Allowed(t: Tree, op: FileOp) {
    match op
    case WriteOp(p, off, data) => data != []
    case UnlinkOp(p) => true
    case RenameOp(from, to) => from != to && t(from).Some?
  }

  function RunOverlay(tree: Tree, ops: seq<FileOp>): Overlay
    decreases |ops|
  {
    if ops == [] then EMPTY else StepOp(tree, RunOverlay(tree, ops[..|ops| - 1]), ops[|ops| - 1])
  }

  function RunTree(tree: Tree, ops: seq<FileOp>): Tree
    decreases |ops|
  {
    if ops == [] then tree else StepTree(RunTree(tree, ops[..|ops| - 1]), ops[|ops| - 1])
  }

  predicate AllAllowed(tree: Tree, ops: seq<FileOp>)
    decreases |ops|
  {
    ops == [] || (AllAllowed(tree, ops[..|ops| - 1]) && Allowed(RunTree(tree, ops[..|ops| - 1]), ops[|ops| - 1]))
  }

  lemma {:induction false} RenameStep(tree: Tree, o: Overlay, from: Path, to: Path, q: Path)
    requires Valid(o) && from != to && View(tree, o, from).Some?
    ensures var r := StoreRename(tree, o, from, to);
            && r.Some? && Valid(r.value)
            && View(tree, r.value, q) ==
                 if q == to then View(tree, o, from) else if q == from then None else View(tree, o, q)
  {
    hide Rename, OpenForRename, Contents;
    if from in o.files {
      RenameKeepsValid(o, from, to, 0);
      RenameView(tree, o, from, to, 0, q);
    } else {
      var o1 := OpenForRename(o, from);
      OpenKeepsValid(o, from);
      OpenView(tree, o, from, from);
      OpenView(tree, o, from, q);
      assert from in o1.files by { OpenHas(o, from); }
      RenameKeepsValid(o1, from, to, 0);
      RenameView(tree, o1, from, to, 0, q);
    }
  }

  lemma {:induction false} OpenHas(o: Overlay, p: Path)
    ensures p in OpenForRename(o, p).files
  {
  }

  /** The store's rename moves the read content exactly when its source reads as a file. It also
      goes ahead on a tombstoned source whose committed file still exists, and brings it back. */
  lemma {:induction false} RenameExact(tree: Tree, o: Overlay, from: Path, to: Path)
    requires Valid(o) && from != to && StoreRename(tree, o, from, to).Some?
    ensures (forall q :: View(tree, StoreRename(tree, o, from, to).value, q) ==
                           (if q == to then View(tree, o, from) else if q == from then None else View(tree, o, q)))
            <==> View(tree, o, from).Some?
  {
    if View(tree, o, from).Some? {
      forall q
        ensures View(tree, StoreRename(tree, o, from, to).value, q) ==
                  (if q == to then View(tree, o, from) else if q == from then None else View(tree, o, q))
      {
        RenameStep(tree, o, from, to, q);
      }
    } else {
      assert from in o.unlinks;
      assert View(tree, StoreRename(tree, o, from, to).value, to).Some?;
    }
  }

  /** An unlinked file, still committed, is renamed: it is back under the new name. */
  lemma {:induction false} RenameExample(tree: Tree, a: Path, b: Path)
    requires a != b && tree(a).Some?
    ensures var o := Unlink(EMPTY, a); var moved := StoreRename(tree, o, a, b);
            Valid(o) && View(tree, o, a) == None && moved.Some? && View(tree, moved.value, b) == tree(a)
  {
    UnlinkKeepsValid(EMPTY, a);
    var fo := NewFile(a, false);
    assert Apply(tree(a).value, []) == tree(a).value;
  }

  /** After any run of non-empty writes, unlinks and renames of existing files, the overlay reads as
      the run applied to the tree. */
  lemma {:induction false} RunReads(tree: Tree, ops: seq<FileOp>, q: Path)
    requires AllAllowed(tree, ops)
    ensures Valid(RunOverlay(tree, ops))
    ensures View(tree, RunOverlay(tree, ops), q) == RunTree(tree, ops)(q)
    decreases |ops|
  {
    if ops != [] {
      var pre, op := ops[..|ops| - 1], ops[|ops| - 1];
      var o := RunOverlay(tree, pre);
      RunReads(tree, pre, q);
      hide Valid, View, Write, Unlink, StoreRename, Splice;
      match op
      case WriteOp(p, off, data) =>
        RunReads(tree, pre, p);
        WriteKeepsValid(o, p, off, data, 0);
        WriteView(tree, o, p, off, data, 0, q);
      case UnlinkOp(p) =>
        UnlinkKeepsValid(o, p);
        UnlinkView(tree, o, p, q);
      case RenameOp(from, to) =>
        RunReads(tree, pre, from);
        RenameStep(tree, o, from, to, q);
    }
  }

  /** Flushing after such a run leaves a tree that reads, on every path, as before the flush. */
  method FlushRun(base: map<Path, Bytes>, ops: seq<FileOp>) returns (t: map<Path, Bytes>)
    requires AllAllowed(TreeOf(base), ops)
    ensures forall p :: Lookup(t, p) == RunTree(TreeOf(base), ops)(p)
  {
    RunReads(TreeOf(base), ops, []);
    t := Flush(base, RunOverlay(TreeOf(base), ops));
    forall p
      ensures Lookup(t, p) == RunTree(TreeOf(base), ops)(p)
    {
      RunReads(TreeOf(base), ops, p);
    }
  }

  /** Replaying a rename over a tree that already holds it is not harmless, as replaying writes and unlinks
      is: the new source moves onto the old target. */
  lemma {:induction false} RenameNotIdempotent(tree: Tree, a: Path, b: Path, y: Bytes)
    requires a != b && tree(a).Some? && y != [] && |tree(a).value| > |y|
    ensures var ops := [RenameOp(a, b), WriteOp(a, 0, y)];
            var once := RunTree(tree, ops);
            once(b) == tree(a) && RunTree(once, ops)(b) == Some(y) != once(b)
  {
    TwoOps(tree, RenameOp(a, b), WriteOp(a, 0, y));
    var once := RunTree(tree, [RenameOp(a, b), WriteOp(a, 0, y)]);
    TwoOps(once, RenameOp(a, b), WriteOp(a, 0, y));
    var moved := StepTree(tree, RenameOp(a, b));
    assert moved(a) == None && moved(b) == tree(a);
    assert Splice(OrEmpty(None), 0, y) == y;
    assert once(a) == StepTree(moved, WriteOp(a, 0, y))(a) == Some(Splice(OrEmpty(moved(a)), 0, y));
    var again := StepTree(once, RenameOp(a, b));
    assert again(b) == once(a) == Some(y);
  }

  lemma {:induction false} TwoOps(tree: Tree, x: FileOp, y: FileOp)
    ensures RunTree(tree, [x, y]) == StepTree(StepTree(tree, x), y)
  {
    hide StepTree;
    assert [x, y][..1] == [x] && [x][..0] == [];
    assert RunTree(tree, [x]) == StepTree(RunTree(tree, []), x);
  }
}
