/** The flush of a ref's overlay into its tree: removals, then every dirty file re-chunked and put. */
module TreeFlush {
  import opened Cells
  import opened FileChunks
  import opened Entries
  import opened Gc
  import opened Tree
  import Prolly
  import TreeEdit
  import EditShape
  import opened PathOrder
  import Intervals
  import C = Chunker
  import PO = PathOverlay

  /** Below a path that is no directory there are no files. */
  lemma {:induction false} NothingBelow(store: set<Hash>, root: Hash, p: Path, q: Path)
    requires p != [] && p < q && LookupIn(store, root, p).Some?
    requires LookupIn(store, root, p).value.Some? ==> !LookupIn(store, root, p).value.value.content.DirRoot?
    ensures FileIn(store, root, q) == None
    decreases |p|
  {
    hide Prolly.Load, Prolly.Get;
    assert q[0] == p[0];
    if |p| > 1 {
      var x := Prolly.Get(Prolly.Load(store, root).value, p[0]);
      assert p[1..] < q[1..];
      if x.Some? {
        NothingBelow(store, x.value.content.root, p[1..], q[1..]);
      }
    }
  }

  // ── When a flush is refused, and what it stores ──

  /** The paths a flush removes and the files it puts, in the order of its two sorted sets. */
  function Removed(o: PO.Overlay): seq<Path> {
    InOrder(PO.Removals(o))
  }

  function Written(o: PO.Overlay): seq<Path> {
    InOrder(o.files.Keys)
  }

  function OriginOf(fo: PO.FileOverlay, p: Path): Path {
    if fo.origin.Some? then fo.origin.value else p
  }

  /** A directory is to be removed, or a file that stays is on the way. */
  ghost predicate CutClash(base: Hash, o: PO.Overlay, p: Path) {
    || DirAt(base, p)
    || (exists k :: 0 < k < |p| && FileAt(base, p[..k]) && p[..k] !in PO.Removals(o))
  }

  /** A directory stands where the file is to go; a file that stays or is itself put is on the way; or the base of
      the file cannot be read. */
  ghost predicate FileClash(base: Hash, o: PO.Overlay, p: Path)
    requires p in o.files
  {
    || p == [] || DirAt(base, p)
    || (exists k :: 0 < k < |p| && Stays(base, o, p[..k]))
    || DirAt(base, OriginOf(o.files[p], p)) || Through(base, OriginOf(o.files[p], p))
  }

  ghost predicate Stays(base: Hash, o: PO.Overlay, q: Path) {
    (FileAt(base, q) && q !in PO.Removals(o)) || q in o.files
  }

  ghost predicate Clash(base: Hash, o: PO.Overlay, p: Path) {
    (p in PO.Removals(o) && CutClash(base, o, p)) || (p in o.files && FileClash(base, o, p))
  }

  /** The bytes of a dirty file after the flush. */
  function Data(base: Hash, o: PO.Overlay, p: Path): Bytes
    requires p in o.files
  {
    PO.Contents(TreeAt(base), o.files[p], p)
  }

  /** A file too long for its length fields, or with a name or a time that has no stored form. */
  ghost predicate Unstorable(base: Hash, o: PO.Overlay, ps: C.Params, p: Path)
    requires C.Valid(ps)
  {
    p in o.files && NoForm(ps, p, Data(base, o, p), o.files[p].mtime)
  }

  ghost predicate NoForm(ps: C.Params, p: Path, data: Bytes, mtime: nat)
    requires C.Valid(ps)
  {
    !FileFits(ps, data) || |data| >= U64 || mtime >= U64 || BadName(p)
  }

  ghost predicate BadName(p: Path) {
    exists k :: 0 <= k < |p| && !ValidName(p[k])
  }

  function FileEntry(ps: C.Params, p: Path, flags: nat, data: Bytes, mtime: nat): Entry
    requires C.Valid(ps) && p != []
  {
    Entry(p[|p| - 1], File, flags, |data|, mtime, Canonical(ps, data))
  }

  function FlagsAt(base: Hash, q: Path): nat {
    var x := EditShape.Here(base, q);
    if x.Some? then x.value.flags else 0
  }

  /** The entry a flush puts for a dirty file; its flags are those of the committed entry. */
  function NewEntry(base: Hash, o: PO.Overlay, ps: C.Params, p: Path): Entry
    requires C.Valid(ps) && p in o.files && p != []
  {
    FileEntry(ps, p, FlagsAt(base, OriginOf(o.files[p], p)), Data(base, o, p), o.files[p].mtime)
  }

  /** The tree without `p`, if the removal is not refused. */
  ghost function CutRoot(t: Hash, p: Path, cut: seq<Cell> -> bool): Option<Hash> {
    if DirAt(t, p) || Through(t, p) then None
    else if EditShape.Here(t, p).None? then Some(t)
    else
      EditShape.HereValid(t, p);
      var s :- EditShape.CutSaved(t, p, cut, 0); Some(s.1)
  }

  ghost function PutRoot(t: Hash, p: Path, e: Entry, mtime: nat, cut: seq<Cell> -> bool): Option<Hash>
    requires p != []
  {
    if DirAt(t, p) || Through(t, p) then None
    else
      var s :- EditShape.PutSaved(t, p, e, mtime, cut, 0); Some(s.1)
  }

  /** The tree after the first `i` removals. */
  ghost function CutsDone(base: Hash, o: PO.Overlay, cut: seq<Cell> -> bool, i: nat): Option<Hash>
    requires i <= |Removed(o)|
  {
    if i == 0 then Some(base)
    else
      var t :- CutsDone(base, o, cut, i - 1);
      CutRoot(t, Removed(o)[i - 1], cut)
  }

  /** The tree after all removals and the first `i` files. */
  ghost function FilesDone(base: Hash, o: PO.Overlay, ps: C.Params, cut: seq<Cell> -> bool, i: nat): Option<Hash>
    requires C.Valid(ps) && i <= |Written(o)|
  {
    if i == 0 then CutsDone(base, o, cut, |Removed(o)|)
    else
      var t :- FilesDone(base, o, ps, cut, i - 1);
      var p := Written(o)[i - 1];
      if p == [] then None
      else PutRoot(t, p, NewEntry(base, o, ps, p), o.files[p].mtime, cut)
  }

  /** The removal of the next path, or the put of the next file, builds a directory of more than 255 levels. */
  ghost predicate CutTall(base: Hash, o: PO.Overlay, cut: seq<Cell> -> bool, i: nat)
    requires i < |Removed(o)|
  {
    var t := CutsDone(base, o, cut, i); t.Some? && EditShape.CutTooTall(t.value, Removed(o)[i], cut)
  }

  ghost predicate FileTall(base: Hash, o: PO.Overlay, ps: C.Params, cut: seq<Cell> -> bool, i: nat)
    requires C.Valid(ps) && i < |Written(o)|
  {
    var t, p := FilesDone(base, o, ps, cut, i), Written(o)[i];
    t.Some? && p != [] && EditShape.PutTooTall(t.value, p, NewEntry(base, o, ps, p), o.files[p].mtime, cut)
  }

  ghost predicate TooTall(base: Hash, o: PO.Overlay, ps: C.Params, cut: seq<Cell> -> bool)
    requires C.Valid(ps)
  {
    || (exists i :: 0 <= i < |Removed(o)| && CutTall(base, o, cut, i))
    || (exists i :: 0 <= i < |Written(o)| && FileTall(base, o, ps, cut, i))
  }

  ghost predicate Blocked(base: Hash, o: PO.Overlay, ps: C.Params, cut: seq<Cell> -> bool)
    requires C.Valid(ps)
  {
    (exists p :: Clash(base, o, p)) || (exists p :: Unstorable(base, o, ps, p)) || TooTall(base, o, ps, cut)
  }

  /** What the next removal stores, and what the next file stores. */
  ghost predicate CutNeeds(base: Hash, o: PO.Overlay, cut: seq<Cell> -> bool, i: nat, h: Hash)
    requires i < |Removed(o)|
  {
    var t := CutsDone(base, o, cut, i); t.Some? && EditShape.CutNode(t.value, Removed(o)[i], cut, h)
  }

  ghost predicate FileNeeds(base: Hash, o: PO.Overlay, ps: C.Params, cut: seq<Cell> -> bool, i: nat, h: Hash)
    requires C.Valid(ps) && i < |Written(o)|
  {
    var t, p := FilesDone(base, o, ps, cut, i), Written(o)[i];
    || h in Objects(ps, Data(base, o, p))
    || (t.Some? && p != [] && EditShape.PutNode(t.value, p, NewEntry(base, o, ps, p), o.files[p].mtime, cut, h))
  }

  ghost predicate Needed(base: Hash, o: PO.Overlay, ps: C.Params, cut: seq<Cell> -> bool, h: Hash)
    requires C.Valid(ps)
  {
    || (exists i :: 0 <= i < |Removed(o)| && CutNeeds(base, o, cut, i, h))
    || (exists i :: 0 <= i < |Written(o)| && FileNeeds(base, o, ps, cut, i, h))
  }

  /** A tree on the way from `base` to the flushed tree has exactly what the edits done so far leave and make. */
  ghost predicate Shape(base: Hash, cuts: seq<Path>, files: seq<Path>, t: Hash) {
    forall q :: && (DirAt(t, q) <==> DirAt(base, q) || Above(files, q))
                && (FileAt(t, q) <==> (FileAt(base, q) && q !in cuts) || q in files)
  }

  ghost predicate Above(files: seq<Path>, q: Path) {
    q != [] && exists i :: 0 <= i < |files| && q < files[i]
  }

  lemma {:induction false} ShapeSelf(base: Hash)
    ensures Shape(base, [], [], base)
  {
    hide DirAt, FileAt;
  }

  lemma {:induction false} ShapeCut(base: Hash, cuts: seq<Path>, p: Path, t: Hash, t': Hash)
    requires Shape(base, cuts, [], t) && EditShape.CutShape(t, t', p)
    ensures Shape(base, cuts + [p], [], t')
  {
    hide DirAt, FileAt;
  }

  lemma {:induction false} ShapePut(base: Hash, cuts: seq<Path>, files: seq<Path>, p: Path, t: Hash, t': Hash)
    requires Shape(base, cuts, files, t) && EditShape.PutShape(t, t', p)
    ensures Shape(base, cuts, files + [p], t')
  {
    hide DirAt, FileAt;
    forall q
      ensures Above(files + [p], q) <==> Above(files, q) || (q != [] && q < p)
    {
      if i :| 0 <= i < |files| && q < files[i] {
        assert (files + [p])[i] == files[i];
      }
      assert (files + [p])[|files|] == p;
    }
  }

  /** When its turn comes, a removal clashes with the tree exactly when it clashes with the tree before the flush. */
  lemma {:induction false} CutClashes(base: Hash, o: PO.Overlay, t: Hash, i: nat)
    requires i < |Removed(o)| && Shape(base, Removed(o)[..i], [], t)
    ensures DirAt(t, Removed(o)[i]) || Through(t, Removed(o)[i]) <==> CutClash(base, o, Removed(o)[i])
  {
    hide DirAt, FileAt, PO.Removals, InOrder;
    var p, s := Removed(o)[i], PO.Removals(o);
    if k :| 0 < k < |p| && FileAt(t, p[..k]) {
      if p[..k] in s {
        DoneAbove(s, i, p[..k]);
      }
      assert FileAt(base, p[..k]) && p[..k] !in s;
    }
    if k :| 0 < k < |p| && FileAt(base, p[..k]) && p[..k] !in s {
      assert FileAt(t, p[..k]);
    }
  }

  lemma {:induction false} FileClashes(base: Hash, o: PO.Overlay, t: Hash, i: nat)
    requires i < |Written(o)| && Shape(base, Removed(o), Written(o)[..i], t)
    ensures var p := Written(o)[i];
            DirAt(t, p) || Through(t, p) <==> DirAt(base, p) || exists k :: 0 < k < |p| && Stays(base, o, p[..k])
  {
    hide DirAt, FileAt, PO.Removals, InOrder;
    var p, s := Written(o)[i], o.files.Keys;
    if Above(Written(o)[..i], p) {
      var j :| 0 <= j < i && p < Written(o)[..i][j];
      DoneAbove(s, i, Written(o)[j]);
    }
    if k :| 0 < k < |p| && FileAt(t, p[..k]) {
      assert Stays(base, o, p[..k]);
    }
    if k :| 0 < k < |p| && Stays(base, o, p[..k]) {
      if p[..k] in s {
        DoneAbove(s, i, p[..k]);
      }
      assert FileAt(t, p[..k]);
    }
  }

  // ── The edits ──

  /** A directory is never removed, replaced by a file, or read as one. */
  predicate NotDir(at: Option<Option<Entry>>) {
    at.Some? && (at.value.Some? ==> !at.value.value.content.DirRoot?)
  }

  lemma {:induction false} DirOrThrough(store: set<Hash>, root: Hash, p: Path)
    requires Reach(root) <= store && Proper(root) && !NotDir(LookupIn(store, root, p))
    ensures DirAt(root, p) || Through(root, p)
  {
    hide EntryAt, Through;
    EntrySame(store, root, p);
    assert ProperAt(root, p);
  }

  /** Remove what is at `p`, which must not be a directory. */
  method RemovePath(store: set<Hash>, root: Hash, p: Path, cut: seq<Cell> -> bool)
    returns (ok: bool, store': set<Hash>, root': Hash)
    requires Reach(root) <= store && Proper(root)
    ensures ok <==> !DirAt(root, p) && !EditShape.CutBlocked(root, p, cut)
    ensures ok ==> Reach(root') <= store' && (Sane(root) ==> Sane(root')) && CutRoot(root, p, cut) == Some(root')
    ensures ok ==> forall q :: Files(root', q) == if q == p then None else Files(root, q)
    ensures ok ==> Proper(root') && EditShape.CutShape(root, root', p)
    ensures ok ==> forall h :: h in store' <==> h in store || EditShape.CutNode(root, p, cut, h)
  {
    hide LookupIn, Reach, Files, TreeEdit.Unlink, Sane, Proper, EditShape.CutShape, DirAt, EditShape.CutTooTall,
      EditShape.CutNode, CutRoot, Through;
    var at := Lookup(store, root, p);
    var edit := TreeEdit.Unlink(store, root, p, cut);
    RemoveRefused(store, root, p, cut);
    if !NotDir(at) || edit.None? {
      return false, store, root;
    }
    ok, store', root' := true, store + edit.value.0, edit.value.1;
    RemoveDone(store, root, p, cut);
    forall q
      ensures Files(root', q) == if q == p then None else Files(root, q)
    {
      if p == [] {
        UnlinkRoot(store, root, cut);
        RootNoFile(root);
      } else {
        TreeEdit.UnlinkFile(store, root, p, cut, q);
        if p < q {
          NothingBelow(store, root, p, q);
          ReachSuffices(store, root, q);
        }
      }
    }
  }

  lemma {:induction false} AtRoot(root: Hash)
    ensures !DirAt(root, []) && !FileAt(root, []) && !Through(root, []) && EditShape.Here(root, []).None?
  {
  }

  lemma {:induction false} RemoveRefused(store: set<Hash>, root: Hash, p: Path, cut: seq<Cell> -> bool)
    requires Reach(root) <= store && Proper(root)
    ensures NotDir(LookupIn(store, root, p)) && TreeEdit.Unlink(store, root, p, cut).Some? <==>
            !DirAt(root, p) && !EditShape.CutBlocked(root, p, cut)
  {
    hide LookupIn, Reach, TreeEdit.Unlink, Proper, Through;
    NotDirIs(store, root, p);
    if p == [] {
      UnlinkRoot(store, root, cut);
      AtRoot(root);
    } else {
      EditShape.CutFails(store, root, p, cut);
    }
  }

  lemma {:induction false} NotDirIs(store: set<Hash>, root: Hash, p: Path)
    requires Reach(root) <= store && Proper(root)
    ensures NotDir(LookupIn(store, root, p)) <==> !DirAt(root, p) && !Through(root, p)
  {
    hide LookupIn, Through, Proper, Reach;
    EntrySame(store, root, p);
    if NotDir(LookupIn(store, root, p)) {
      NotThrough(root, p);
    } else {
      DirOrThrough(store, root, p);
    }
  }

  lemma {:induction false} RemoveDone(store: set<Hash>, root: Hash, p: Path, cut: seq<Cell> -> bool)
    requires Reach(root) <= store && Proper(root) && !DirAt(root, p) && !Through(root, p)
    requires TreeEdit.Unlink(store, root, p, cut).Some?
    ensures var (o, r, _) := TreeEdit.Unlink(store, root, p, cut).value;
            && CutRoot(root, p, cut) == Some(r) && Reach(r) <= store + o && (Sane(root) ==> Sane(r))
            && Proper(r) && EditShape.CutShape(root, r, p)
            && (forall h :: h in o <==> EditShape.CutNode(root, p, cut, h))
  {
    hide LookupIn, Reach, Files, TreeEdit.Unlink, Sane, Proper, DirAt, EditShape.CutNode, EditShape.CutSaved, EntryAt;
    var (o, r, _) := TreeEdit.Unlink(store, root, p, cut).value;
    if p == [] {
      UnlinkRoot(store, root, cut);
      AtRoot(root);
      RootShape(root);
      forall h
        ensures !EditShape.CutNode(root, p, cut, h)
      {
        NoCutNode(root, cut, h);
      }
    } else {
      TreeEdit.UnlinkFile(store, root, p, cut, p);
      EditShape.CutKeeps(store, root, p, cut);
      EditShape.CutBuilds(store, root, p, cut, r);
      forall h
        ensures h in o <==> EditShape.CutNode(root, p, cut, h)
      {
        EditShape.CutNew(store, root, p, cut, h);
      }
    }
  }

  lemma {:induction false} NoCutNode(root: Hash, cut: seq<Cell> -> bool, h: Hash)
    ensures !EditShape.CutNode(root, [], cut, h)
  {
  }

  lemma {:induction false} RootShape(root: Hash)
    ensures EditShape.CutShape(root, root, [])
  {
    hide DirAt, FileAt;
    AtRoot(root);
  }

  lemma {:induction false} UnlinkRoot(store: set<Hash>, root: Hash, cut: seq<Cell> -> bool)
    ensures TreeEdit.Unlink(store, root, [], cut) == Some(({}, root, None))
  {
  }

  lemma {:induction false} RootNoFile(root: Hash)
    ensures Files(root, []) == None
  {
  }

  lemma {:induction false} CanonicalChunks(ps: C.Params, data: Bytes, store: set<Hash>)
    requires C.Valid(ps) && FileFits(ps, data) && Objects(ps, data) <= store
    ensures var c := Canonical(ps, data);
            && !c.DirRoot?
            && (c.ChunkList? ==> c.list in store && ChunksOf(c.list) <= store && TreeEdit.SaneList(c.list))
  {
    hide C.Chunks, EncodeList, DecodeList;
    if |data| > INLINE_MAX {
      ChunkListFits(ps, data);
      ListRoundTrip(Refs(C.Chunks(ps, data)));
    }
  }

  lemma {:induction false} FileFormed(ps: C.Params, p: Path, flags: nat, data: Bytes, mtime: nat)
    requires C.Valid(ps) && p != [] && flags < U32
    ensures ValidEntry(FileEntry(ps, p, flags, data, mtime)) <==> ValidName(p[|p| - 1]) && |data| < U64 && mtime < U64
  {
    hide C.Chunks, EncodeList, ValidName;
  }

  lemma {:induction false} NewFormed(name: Bytes, mtime: nat)
    ensures ValidEntry(EditShape.NewDir(name, mtime)) <==> ValidName(name) && mtime < U64
  {
    hide ValidName, Prolly.EmptyRoot;
  }

  /** Names already in a tree are good, so a bad one is met where a directory or the file is made. */
  lemma {:induction false} FormedAll(root: Hash, ps: C.Params, p: Path, flags: nat, data: Bytes, mtime: nat)
    requires C.Valid(ps) && p != [] && flags < U32
    ensures !ValidEntry(FileEntry(ps, p, flags, data, mtime)) || EditShape.BadDir(root, p, mtime) <==>
            |data| >= U64 || mtime >= U64 || BadName(p)
  {
    hide FileEntry, ValidEntry, EditShape.Here, EditShape.NewDir, ValidName;
    FileFormed(ps, p, flags, data, mtime);
    if k :| 0 < k < |p| && EditShape.Here(root, p[..k]).None? && !ValidEntry(EditShape.NewDir(p[k - 1], mtime)) {
      NewFormed(p[k - 1], mtime);
    }
    if k :| 0 <= k < |p| && !ValidName(p[k]) {
      if k + 1 < |p| {
        NameMade(root, p, mtime, k);
      }
    }
  }

  lemma {:induction false} NameMade(root: Hash, p: Path, mtime: nat, k: nat)
    requires k + 1 < |p| && !ValidName(p[k])
    ensures EditShape.BadDir(root, p, mtime)
  {
    hide EditShape.Here, EditShape.NewDir, ValidName;
    NewFormed(p[k], mtime);
    assert p[..k + 1][k] == p[k];
    if EditShape.Here(root, p[..k + 1]).Some? {
      EditShape.HereValid(root, p[..k + 1]);
    } else {
      assert EditShape.Here(root, p[..k + 1]).None? && !ValidEntry(EditShape.NewDir(p[k + 1 - 1], mtime));
    }
  }

  /** Why a file is refused. */
  ghost predicate PutStuck(root: Hash, p: Path, data: Bytes, flags: nat, mtime: nat, ps: C.Params,
                           cut: seq<Cell> -> bool)
    requires C.Valid(ps)
  {
    || p == [] || DirAt(root, p) || Through(root, p) || NoForm(ps, p, data, mtime)
    || EditShape.PutTooTall(root, p, FileEntry(ps, p, flags, data, mtime), mtime, cut)
  }

  lemma {:induction false} PutRefused(store: set<Hash>, root: Hash, p: Path, data: Bytes, flags: nat, mtime: nat,
                                      ps: C.Params, cut: seq<Cell> -> bool)
    requires Reach(root) <= store && Proper(root) && C.Valid(ps) && flags < U32 && p != [] && FileFits(ps, data)
    ensures NotDir(LookupIn(store, root, p)) &&
            TreeEdit.Put(store, root, p[..|p| - 1], FileEntry(ps, p, flags, data, mtime), mtime, cut).Some? <==>
            !PutStuck(root, p, data, flags, mtime, ps, cut)
  {
    hide LookupIn, Reach, TreeEdit.Put, Proper, DirAt, Through, EditShape.PutTooTall, EditShape.BadDir, BadName,
      FileFits, ValidEntry, Canonical;
    NotDirIs(store, root, p);
    var e := FileEntry(ps, p, flags, data, mtime);
    assert p[..|p| - 1] + [e.name] == p;
    EditShape.PutFails(store, root, p[..|p| - 1], e, mtime, cut);
    FormedAll(root, ps, p, flags, data, mtime);
  }

  /** The put entry is at `p`, and any entry neither above nor below `p` is as it was. */
  ghost predicate EntrySet(root: Hash, r: Hash, p: Path, e: Entry, q: Path) {
    if q == p then EntryAt(r, q) == Some(Some(e)) else q < p || p < q || EntryAt(r, q) == EntryAt(root, q)
  }

  ghost predicate OneEntry(root: Hash, r: Hash, p: Path, e: Entry) {
    forall q :: EntrySet(root, r, p, e, q)
  }

  lemma {:induction false} PutDone(store: set<Hash>, root: Hash, p: Path, data: Bytes, flags: nat, mtime: nat,
                                   ps: C.Params, cut: seq<Cell> -> bool)
    requires Reach(root) <= store && Proper(root) && C.Valid(ps) && p != [] && !DirAt(root, p) && !Through(root, p)
    requires FileFits(ps, data) && Objects(ps, data) <= store
    requires TreeEdit.Put(store, root, p[..|p| - 1], FileEntry(ps, p, flags, data, mtime), mtime, cut).Some?
    ensures var e := FileEntry(ps, p, flags, data, mtime);
            var (o, r) := TreeEdit.Put(store, root, p[..|p| - 1], e, mtime, cut).value;
            && PutRoot(root, p, e, mtime, cut) == Some(r) && Reach(r) <= store + o && (Sane(root) ==> Sane(r))
            && Proper(r) && EditShape.PutShape(root, r, p) && OneEntry(root, r, p, e)
            && (forall h :: h in o <==> EditShape.PutNode(root, p, e, mtime, cut, h))
  {
    hide LookupIn, Reach, Files, TreeEdit.Put, Sane, Proper, DirAt, Through, EditShape.PutNode, EditShape.PutSaved,
      ReadFile, Canonical, Objects, FileFits, ChunksOf, TreeEdit.SaneList, EditShape.PutShape;
    var dir, e := p[..|p| - 1], FileEntry(ps, p, flags, data, mtime);
    assert dir + [e.name] == p;
    var (o, r) := TreeEdit.Put(store, root, dir, e, mtime, cut).value;
    CanonicalChunks(ps, data, store);
    ReadBack(store, ps, data);
    TreeEdit.PutFile(store, root, dir, e, mtime, cut, p);
    EditShape.PutKeeps(store, root, dir, e, mtime, cut);
    EditShape.PutBuilds(store, root, dir, e, mtime, cut, r);
    forall q
      ensures EntrySet(root, r, p, e, q)
    {
      EditShape.PutEntry(store, root, dir, e, mtime, cut, q);
    }
    forall h
      ensures h in o <==> EditShape.PutNode(root, p, e, mtime, cut, h)
    {
      EditShape.PutNew(store, root, dir, e, mtime, cut, h);
    }
  }

  /** Store a file's bytes and put its entry at `p`. */
  method PutPath(store: set<Hash>, root: Hash, p: Path, data: Bytes, flags: nat, mtime: nat, ps: C.Params,
                 cut: seq<Cell> -> bool)
    returns (ok: bool, store': set<Hash>, root': Hash)
    requires Reach(root) <= store && Proper(root) && C.Valid(ps) && flags < U32
    ensures ok <==> !PutStuck(root, p, data, flags, mtime, ps, cut)
    ensures ok ==> Reach(root') <= store' && (Sane(root) ==> Sane(root'))
    ensures ok ==> PutRoot(root, p, FileEntry(ps, p, flags, data, mtime), mtime, cut) == Some(root')
    ensures ok ==> forall q :: Files(root', q) == if q == p then Some(data) else Files(root, q)
    ensures ok ==> Proper(root') && EditShape.PutShape(root, root', p)
    ensures ok ==> OneEntry(root, root', p, FileEntry(ps, p, flags, data, mtime))
    ensures ok ==> forall h :: h in store' <==>
                     || h in store || h in Objects(ps, data)
                     || EditShape.PutNode(root, p, FileEntry(ps, p, flags, data, mtime), mtime, cut, h)
  {
    hide LookupIn, Reach, Files, TreeEdit.Put, ReadFile, Canonical, Objects, FileFits, ChunksOf, Sane,
      TreeEdit.SaneList, Proper, DirAt, Through, BadName, EditShape.PutNode, EditShape.PutTooTall, EditShape.PutShape,
      PutRoot, OneEntry;
    var at := Lookup(store, root, p);
    if p == [] || !FileFits(ps, data) {
      return false, store, root;
    }
    var store1, content := StoreFile(store, ps, data);
    var dir, name := p[..|p| - 1], p[|p| - 1];
    var e := Entry(name, File, flags, |data|, mtime, content);
    var edit := TreeEdit.Put(store1, root, dir, e, mtime, cut);
    EntrySame(store, root, p);
    EntrySame(store1, root, p);
    PutRefused(store1, root, p, data, flags, mtime, ps, cut);
    if !NotDir(at) || edit.None? {
      return false, store, root;
    }
    ok, store', root' := true, store1 + edit.value.0, edit.value.1;
    PutDone(store1, root, p, data, flags, mtime, ps, cut);
    CanonicalChunks(ps, data, store1);
    ReadBack(store1, ps, data);
    assert dir + [name] == p;
    forall q
      ensures Files(root', q) == if q == p then Some(data) else Files(root, q)
    {
      TreeEdit.PutFile(store1, root, dir, e, mtime, cut, q);
      if p < q {
        NothingBelow(store, root, p, q);
        ReachSuffices(store, root, q);
      }
    }
  }

  /** The bytes a dirty file's writes go on top of, from the tree as it was before the flush. It fails exactly
      when a directory stands at the origin or a file on the way to it. */
  method ReadBase(store: set<Hash>, base: Hash, fo: PO.FileOverlay, p: Path)
    returns (ok: bool, flags: nat, bytes: Bytes)
    requires Reach(base) <= store && Proper(base)
    ensures ok <==> !DirAt(base, OriginOf(fo, p)) && !Through(base, OriginOf(fo, p))
    ensures ok ==> bytes == PO.Base(TreeAt(base), fo, p) && flags == FlagsAt(base, OriginOf(fo, p))
  {
    hide LookupIn, Reach, ReadFile, Through;
    var origin := OriginOf(fo, p);
    var at := Lookup(store, base, origin);
    EntrySame(store, base, origin);
    if !NotDir(at) {
      DirOrThrough(store, base, origin);
      return false, 0, [];
    }
    NotThrough(base, origin);
    ReachSuffices(store, base, origin);
    if at.value.None? {
      return true, 0, [];
    }
    flags := at.value.value.flags;
    if fo.isFresh {
      return true, flags, [];
    }
    assert ProperAt(base, origin);
    var read := ReadFile(store, at.value.value.content, at.value.value.size);
    return true, flags, read.value;
  }

  lemma {:induction false} NotThrough(root: Hash, q: Path)
    requires EntryAt(root, q).Some?
    ensures !Through(root, q)
  {
    hide Reach;
    if k :| 0 < k < |q| && FileAt(root, q[..k]) {
      LookupStops(Reach(root), root, q, k);
    }
  }

  /** A lookup does not get past a file. */
  lemma {:induction false} LookupStops(store: set<Hash>, root: Hash, q: Path, k: nat)
    requires 0 < k < |q| && LookupIn(store, root, q[..k]).Some? && LookupIn(store, root, q[..k]).value.Some?
    requires !LookupIn(store, root, q[..k]).value.value.content.DirRoot?
    ensures LookupIn(store, root, q).None?
    decreases k
  {
    hide Prolly.Load, Prolly.Get;
    if k > 1 {
      var x := Prolly.Get(Prolly.Load(store, root).value, q[0]).value;
      assert q[..k][1..] == q[1..][..k - 1];
      LookupStops(store, x.content.root, q[1..], k - 1);
    }
  }

  // ── The flush ──

  /** The flush preserves meaning: the new tree reads, at every path, as overlay over old tree. It is refused
      exactly for one of the reasons above, and stores exactly what the trees on the way need. */
  method FlushTree(store0: set<Hash>, base: Hash, o: PO.Overlay, ps: C.Params, cut: seq<Cell> -> bool)
    returns (ok: bool, store: set<Hash>, root: Hash)
    requires C.Valid(ps) && Reach(base) <= store0 && Proper(base) && PO.Valid(o)
    ensures ok <==> !Blocked(base, o, ps, cut)
    ensures ok ==> store0 <= store && Reach(root) <= store && (Sane(base) ==> Sane(root)) && Proper(root)
    ensures ok ==> forall q :: Files(root, q) == PO.View(TreeAt(base), o, q)
    ensures ok ==> forall h :: h in store <==> h in store0 || Needed(base, o, ps, cut, h)
    ensures ok ==> forall p :: p in o.files ==> Rewritten(base, o, root, p)
  {
    hide Removed, Written, CutsDone, FilesDone, Shape, Proper, CutsBlocked, FilesBlocked, Blocked, CutNeeds, FileNeeds,
      Reach, Sane, Data, PO.Removals, Rewritten;
    BlockedIs(base, o, ps, cut);
    ok, store, root := FlushRemovals(store0, base, o, cut);
    if !ok {
      return;
    }
    ok, store, root := FlushFiles(base, store, root, o, ps, cut);
    ViewOf(base, o);
  }

  /** The entry of a flushed file: as long as its bytes, with the time of its last write and the flags of the committed
      entry at its origin. */
  ghost predicate Rewritten(base: Hash, o: PO.Overlay, root: Hash, p: Path)
    requires p in o.files
  {
    var now, was := EntryAt(root, p), EntryAt(base, OriginOf(o.files[p], p));
    && now.Some? && now.value.Some? && now.value.value.kind == File
    && now.value.value.size == |Data(base, o, p)| && now.value.value.mtime == o.files[p].mtime
    && now.value.value.flags == if was.Some? && was.value.Some? then was.value.value.flags else 0
  }

  lemma {:induction false} RewrittenNow(base: Hash, o: PO.Overlay, ps: C.Params, t: Hash, root: Hash, p: Path)
    requires C.Valid(ps) && p in o.files && p != []
    requires OneEntry(t, root, p, FileEntry(ps, p, FlagsAt(base, OriginOf(o.files[p], p)), Data(base, o, p),
                                            o.files[p].mtime))
    ensures Rewritten(base, o, root, p)
  {
    hide Data, EntryAt, Canonical;
    assert EntrySet(t, root, p, FileEntry(ps, p, FlagsAt(base, OriginOf(o.files[p], p)), Data(base, o, p),
                                          o.files[p].mtime), p);
  }

  /** A later file leaves it as it is: neither is above the other. */
  lemma {:induction false} RewrittenStill(base: Hash, o: PO.Overlay, t: Hash, root: Hash, i: nat, j: nat, e: Entry)
    requires j < i < |Written(o)| && OneEntry(t, root, Written(o)[i], e) && Rewritten(base, o, t, Written(o)[j])
    requires !FileClash(base, o, Written(o)[i])
    ensures Rewritten(base, o, root, Written(o)[j])
  {
    hide Data, EntryAt, InOrder, DirAt, FileAt, Through, PO.Removals;
    var p, q := Written(o)[i], Written(o)[j];
    assert EntrySet(t, root, p, e, q);
    DoneAbove(o.files.Keys, i, q);
    assert q in Written(o)[..i] by {
      assert Written(o)[..i][j] == q;
    }
    Apart(o, i, j);
    EmptyPath(t);
    if q < p {
      AboveClashes(base, o, p, q);
    }
  }

  lemma {:induction false} AboveClashes(base: Hash, o: PO.Overlay, p: Path, q: Path)
    requires p in o.files && q in o.files && q != [] && q < p
    ensures FileClash(base, o, p)
  {
    hide DirAt, FileAt, Through, PO.Removals;
    assert p[..|q|] == q;
    assert Stays(base, o, p[..|q|]);
  }

  lemma {:induction false} RewrittenAll(base: Hash, o: PO.Overlay, t: Hash, root: Hash, i: nat, e: Entry)
    requires i < |Written(o)| && OneEntry(t, root, Written(o)[i], e) && !FileClash(base, o, Written(o)[i])
    requires forall j :: 0 <= j < i ==> Rewritten(base, o, t, Written(o)[j])
    ensures forall j :: 0 <= j < i ==> Rewritten(base, o, root, Written(o)[j])
  {
    hide Rewritten, OneEntry, FileClash, InOrder;
    forall j | 0 <= j < i
      ensures Rewritten(base, o, root, Written(o)[j])
    {
      RewrittenStill(base, o, t, root, i, j, e);
    }
  }

  /** The sorted paths are distinct, and the root would come first. */
  lemma {:induction false} Apart(o: PO.Overlay, i: nat, j: nat)
    requires j < i < |Written(o)|
    ensures Written(o)[i] != Written(o)[j]
  {
    hide Before;
    BeforeTotal(Written(o)[j], Written(o)[i]);
  }

  lemma {:induction false} ViewOf(base: Hash, o: PO.Overlay)
    requires PO.Valid(o)
    ensures forall q :: PO.View(TreeAt(base), o, q) ==
              if q in o.files then Some(Data(base, o, q)) else if q in PO.Removals(o) then None else Files(base, q)
  {
    hide Files, PO.Contents;
    assert forall p :: p in o.files ==> PO.Accounted(o, o.files[p]);
  }

  ghost predicate CutsBlocked(base: Hash, o: PO.Overlay, cut: seq<Cell> -> bool) {
    || (exists p :: p in PO.Removals(o) && CutClash(base, o, p))
    || (exists i :: 0 <= i < |Removed(o)| && CutTall(base, o, cut, i))
  }

  ghost predicate FilesBlocked(base: Hash, o: PO.Overlay, ps: C.Params, cut: seq<Cell> -> bool)
    requires C.Valid(ps)
  {
    || (exists p :: p in o.files && (FileClash(base, o, p) || Unstorable(base, o, ps, p)))
    || (exists i :: 0 <= i < |Written(o)| && FileTall(base, o, ps, cut, i))
  }

  lemma {:induction false} BlockedIs(base: Hash, o: PO.Overlay, ps: C.Params, cut: seq<Cell> -> bool)
    requires C.Valid(ps)
    ensures Blocked(base, o, ps, cut) <==> CutsBlocked(base, o, cut) || FilesBlocked(base, o, ps, cut)
  {
    hide Removed, Written, CutTall, FileTall, CutClash, FileClash, NoForm, Data, PO.Removals;
    if p :| p in PO.Removals(o) && CutClash(base, o, p) {
      assert Clash(base, o, p);
    }
    if p :| p in o.files && (FileClash(base, o, p) || Unstorable(base, o, ps, p)) {
      assert Clash(base, o, p) || Unstorable(base, o, ps, p);
    }
  }

  lemma {:induction false} NothingToDo(base: Hash, o: PO.Overlay, ps: C.Params, cut: seq<Cell> -> bool)
    requires C.Valid(ps) && PO.IsEmpty(o)
    ensures !Blocked(base, o, ps, cut) && forall h :: !Needed(base, o, ps, cut, h)
  {
    hide CutClash, FileClash, NoForm, Data, CutsDone, FilesDone;
    assert PO.Removals(o) == {} && o.files.Keys == {};
    assert Removed(o) == [] && Written(o) == [];
  }

  lemma {:induction false} CutTurn(base: Hash, o: PO.Overlay, cut: seq<Cell> -> bool, t: Hash, i: nat)
    requires i < |Removed(o)| && CutsDone(base, o, cut, i) == Some(t) && Shape(base, Removed(o)[..i], [], t)
    ensures DirAt(t, Removed(o)[i]) || EditShape.CutBlocked(t, Removed(o)[i], cut) <==>
            CutClash(base, o, Removed(o)[i]) || CutTall(base, o, cut, i)
  {
    hide Removed, CutsDone, Shape, CutClash, DirAt, Through, EditShape.CutTooTall;
    CutClashes(base, o, t, i);
  }

  method FlushRemovals(store0: set<Hash>, base: Hash, o: PO.Overlay, cut: seq<Cell> -> bool)
    returns (ok: bool, store: set<Hash>, root: Hash)
    requires Reach(base) <= store0 && Proper(base)
    ensures ok <==> !CutsBlocked(base, o, cut)
    ensures ok ==> Reach(root) <= store && (Sane(base) ==> Sane(root)) && Proper(root)
    ensures ok ==> CutsDone(base, o, cut, |Removed(o)|) == Some(root) && Shape(base, Removed(o), [], root)
    ensures ok ==> forall q :: Files(root, q) == if q in PO.Removals(o) then None else Files(base, q)
    ensures ok ==> forall h :: h in store <==>
                     h in store0 || exists i :: 0 <= i < |Removed(o)| && CutNeeds(base, o, cut, i, h)
  {
    hide Reach, Files, Sane, Proper, Shape, CutClash, CutTall, DirAt, EditShape.CutBlocked, EditShape.CutShape,
      EditShape.CutNode, InOrder, PO.Removals, CutRoot;
    store, root := store0, base;
    ShapeSelf(base);
    var rs := Removed(o);
    assert rs[..0] == [];
    for i := 0 to |rs|
      invariant Reach(root) <= store && (Sane(base) ==> Sane(root)) && Proper(root)
      invariant CutsDone(base, o, cut, i) == Some(root) && Shape(base, rs[..i], [], root)
      invariant forall q :: Files(root, q) == if q in rs[..i] then None else Files(base, q)
      invariant forall j :: 0 <= j < i ==> !CutClash(base, o, rs[j]) && !CutTall(base, o, cut, j)
      invariant forall h :: h in store <==> h in store0 || exists j :: 0 <= j < i && CutNeeds(base, o, cut, j, h)
    {
      ghost var s, t := store, root;
      CutTurn(base, o, cut, t, i);
      ok, store, root := RemovePath(store, root, rs[i], cut);
      if !ok {
        assert rs[i] in PO.Removals(o);
        return;
      }
      ShapeCut(base, rs[..i], rs[i], t, root);
      assert rs[..i + 1] == rs[..i] + [rs[i]];
      forall h
        ensures h in store <==> h in store0 || exists j :: 0 <= j < i + 1 && CutNeeds(base, o, cut, j, h)
      {
        assert h in store <==> h in s || CutNeeds(base, o, cut, i, h);
      }
    }
    ok := true;
    assert rs[..|rs|] == rs;
  }

  lemma {:induction false} FileTurn(base: Hash, o: PO.Overlay, ps: C.Params, cut: seq<Cell> -> bool, t: Hash, i: nat)
    requires C.Valid(ps) && i < |Written(o)| && FilesDone(base, o, ps, cut, i) == Some(t)
    requires Shape(base, Removed(o), Written(o)[..i], t)
    ensures var p := Written(o)[i]; var origin := OriginOf(o.files[p], p);
            || DirAt(base, origin) || Through(base, origin)
            || PutStuck(t, p, Data(base, o, p), FlagsAt(base, origin), o.files[p].mtime, ps, cut)
            <==> FileClash(base, o, p) || Unstorable(base, o, ps, p) || FileTall(base, o, ps, cut, i)
  {
    hide Removed, FilesDone, Shape, Stays, DirAt, Through, EditShape.PutTooTall, FileFits, BadName, Data, FlagsAt,
      Canonical;
    FileClashes(base, o, t, i);
  }

  /** What the next file does to the tree and what it stores. */
  lemma {:induction false} FileStep(base: Hash, o: PO.Overlay, ps: C.Params, cut: seq<Cell> -> bool, t: Hash, i: nat)
    requires C.Valid(ps) && i < |Written(o)| && FilesDone(base, o, ps, cut, i) == Some(t) && Written(o)[i] != []
    ensures var p := Written(o)[i];
            var data, mtime := Data(base, o, p), o.files[p].mtime;
            var e := FileEntry(ps, p, FlagsAt(base, OriginOf(o.files[p], p)), data, mtime);
            && FilesDone(base, o, ps, cut, i + 1) == PutRoot(t, p, e, mtime, cut)
            && (forall h :: FileNeeds(base, o, ps, cut, i, h) <==>
                              h in Objects(ps, data) || EditShape.PutNode(t, p, e, mtime, cut, h))
  {
    hide Written, PutRoot, EditShape.PutNode, Objects, FlagsAt, Data, FileEntry;
  }

  lemma {:induction false} NoFiles(base: Hash, o: PO.Overlay, ps: C.Params, cut: seq<Cell> -> bool)
    requires C.Valid(ps)
    ensures FilesDone(base, o, ps, cut, 0) == CutsDone(base, o, cut, |Removed(o)|)
  {
    hide CutsDone, Removed;
  }

  lemma {:induction false} AtRootStuck(t: Hash, data: Bytes, flags: nat, mtime: nat, ps: C.Params,
                                       cut: seq<Cell> -> bool)
    requires C.Valid(ps)
    ensures PutStuck(t, [], data, flags, mtime, ps, cut)
  {
  }

  lemma {:induction false} DataIs(base: Hash, o: PO.Overlay, p: Path)
    requires p in o.files
    ensures Data(base, o, p) == Intervals.Apply(PO.Base(TreeAt(base), o.files[p], p), o.files[p].writes)
  {
    hide PO.Base, Intervals.Apply;
  }

  lemma {:induction false} FlagsSmall(base: Hash, q: Path)
    ensures FlagsAt(base, q) < U32
  {
    hide EntryAt;
    if EditShape.Here(base, q).Some? {
      EditShape.HereValid(base, q);
    }
  }

  method FlushFiles(base: Hash, store1: set<Hash>, root1: Hash, o: PO.Overlay, ps: C.Params, cut: seq<Cell> -> bool)
    returns (ok: bool, store: set<Hash>, root: Hash)
    requires C.Valid(ps) && Reach(base) <= store1 && Reach(root1) <= store1
    requires Proper(base) && Proper(root1) && Shape(base, Removed(o), [], root1)
    requires CutsDone(base, o, cut, |Removed(o)|) == Some(root1)
    ensures ok <==> !FilesBlocked(base, o, ps, cut)
    ensures ok ==> Reach(root) <= store && (Sane(root1) ==> Sane(root)) && Proper(root)
    ensures ok ==> forall q :: Files(root, q) == if q in o.files then Some(Data(base, o, q)) else Files(root1, q)
    ensures ok ==> forall h :: h in store <==>
                     h in store1 || exists i :: 0 <= i < |Written(o)| && FileNeeds(base, o, ps, cut, i, h)
    ensures ok ==> forall p :: p in o.files ==> Rewritten(base, o, root, p)
  {
    hide Reach, Files, Sane, Proper, Shape, FileClash, Unstorable, FileTall, DirAt, Through, PutStuck,
      EditShape.PutShape, EditShape.PutNode, InOrder, Removed, CutsDone, PutRoot, Objects, PO.Base, FlagsAt, FilesDone,
      FileNeeds, FileEntry, Data, OneEntry, Rewritten;
    store, root := store1, root1;
    var fs := Written(o);
    NoFiles(base, o, ps, cut);
    assert fs[..0] == [];
    for i := 0 to |fs|
      invariant Reach(root) <= store && store1 <= store && (Sane(root1) ==> Sane(root)) && Proper(root)
      invariant FilesDone(base, o, ps, cut, i) == Some(root) && Shape(base, Removed(o), fs[..i], root)
      invariant forall q :: q in fs[..i] ==> q in o.files && Files(root, q) == Some(Data(base, o, q))
      invariant forall q :: q !in fs[..i] ==> Files(root, q) == Files(root1, q)
      invariant forall j :: 0 <= j < i ==> !FileClash(base, o, fs[j]) && !Unstorable(base, o, ps, fs[j])
      invariant forall j :: 0 <= j < i ==> !FileTall(base, o, ps, cut, j)
      invariant forall j :: 0 <= j < i ==> Rewritten(base, o, root, fs[j])
      invariant forall h :: h in store <==> h in store1 || exists j :: 0 <= j < i && FileNeeds(base, o, ps, cut, j, h)
    {
      var p := fs[i];
      var fo := o.files[p];
      FileTurn(base, o, ps, cut, root, i);
      FlagsSmall(base, OriginOf(fo, p));
      var read, flags, bytes := ReadBase(store, base, fo, p);
      if !read {
        return false, store, root;
      }
      ghost var s, t := store, root;
      DataIs(base, o, p);
      ok, store, root := PutPath(store, root, p, Intervals.Apply(bytes, fo.writes), flags, fo.mtime, ps, cut);
      if !ok {
        return;
      }
      AtRootStuck(t, Data(base, o, p), flags, fo.mtime, ps, cut);
      FileStep(base, o, ps, cut, t, i);
      ShapePut(base, Removed(o), fs[..i], p, t, root);
      RewrittenNow(base, o, ps, t, root, p);
      RewrittenAll(base, o, t, root, i, FileEntry(ps, p, flags, Data(base, o, p), fo.mtime));
      assert fs[..i + 1] == fs[..i] + [p];
      forall h
        ensures h in store <==> h in store1 || exists j :: 0 <= j < i + 1 && FileNeeds(base, o, ps, cut, j, h)
      {
        assert h in store <==> h in s || FileNeeds(base, o, ps, cut, i, h);
      }
    }
    ok := true;
    assert fs[..|fs|] == fs;
  }
}
