/** Path-copying edits from outside: the directories they build, when they fail, and what they do to the shape of the
    tree. */
module EditShape {
  import opened Cells
  import opened FileChunks
  import opened Entries
  import opened Prolly
  import opened Gc
  import opened Tree
  import opened TreeEdit

  // ── The directories an edit builds ──

  function Loaded(root: Hash): seq<Entry> {
    var d := Load(Reach(root), root);
    if d.Some? then d.value else []
  }

  /** The entries of the directory at `q`; none where there is no directory. */
  ghost function DirList(root: Hash, q: Path): seq<Entry> {
    if q == [] then Loaded(root)
    else if DirAt(root, q) then Loaded(EntryAt(root, q).value.value.content.root)
    else []
  }

  function Here(root: Hash, q: Path): Option<Entry> {
    var e := EntryAt(root, q);
    if e.Some? then e.value else None
  }

  function SavedDir(d: seq<Entry>, cut: seq<Cell> -> bool): Option<(set<Hash>, Hash)> {
    if Directory(d) then Saved(d, cut) else None
  }

  /** The directory at `p[..k]` with the entry for the rest of a put to `p` in place: the new file, or an entry that
      points at the directory below. */
  ghost function PutDir(root: Hash, p: Path, e: Entry, mtime: nat, cut: seq<Cell> -> bool, k: nat): Option<seq<Entry>>
    requires k < |p|
    decreases |p| - k
  {
    if k + 1 == |p| then Some(Upsert(DirList(root, p[..k]), e))
    else
      var d :- PutDir(root, p, e, mtime, cut, k + 1);
      var s :- SavedDir(d, cut);
      Some(Upsert(DirList(root, p[..k]), Pointing(Here(root, p[..k + 1]), p[k], mtime, s.1)))
  }

  ghost function PutSaved(root: Hash, p: Path, e: Entry, mtime: nat, cut: seq<Cell> -> bool, k: nat)
    : Option<(set<Hash>, Hash)>
    requires k < |p|
  {
    var d :- PutDir(root, p, e, mtime, cut, k); SavedDir(d, cut)
  }

  /** The directory at `p[..k]` without `p`. */
  ghost function CutDir(root: Hash, p: Path, cut: seq<Cell> -> bool, k: nat): Option<seq<Entry>>
    requires k < |p|
    decreases |p| - k
  {
    if k + 1 == |p| then Some(Remove(DirList(root, p[..k]), p[k]))
    else
      var d :- CutDir(root, p, cut, k + 1);
      var s :- SavedDir(d, cut);
      Some(Upsert(DirList(root, p[..k]), Pointing(Here(root, p[..k + 1]), p[k], 0, s.1)))
  }

  ghost function CutSaved(root: Hash, p: Path, cut: seq<Cell> -> bool, k: nat): Option<(set<Hash>, Hash)>
    requires k < |p|
  {
    var d :- CutDir(root, p, cut, k); SavedDir(d, cut)
  }

  /** More than 255 levels would be needed. */
  ghost predicate TooTall(d: Option<seq<Entry>>, cut: seq<Cell> -> bool) {
    d.Some? && Directory(d.value) && Saved(d.value, cut).None?
  }

  ghost predicate PutTooTall(root: Hash, p: Path, e: Entry, mtime: nat, cut: seq<Cell> -> bool) {
    exists k :: 0 <= k < |p| && TooTall(PutDir(root, p, e, mtime, cut, k), cut)
  }

  ghost predicate CutTooTall(root: Hash, p: Path, cut: seq<Cell> -> bool) {
    Here(root, p).Some? && exists k :: 0 <= k < |p| && TooTall(CutDir(root, p, cut, k), cut)
  }

  ghost predicate Holds(s: Option<(set<Hash>, Hash)>, h: Hash) {
    s.Some? && h in s.value.0
  }

  /** A directory on the way to `p` is made anew. */
  ghost predicate Made(root: Hash, p: Path) {
    exists k :: 0 < k < |p| && Here(root, p[..k]).None?
  }

  /** A node of a directory the put builds; a directory made anew is saved empty first. */
  ghost predicate PutNode(root: Hash, p: Path, e: Entry, mtime: nat, cut: seq<Cell> -> bool, h: Hash) {
    || (exists k :: 0 <= k < |p| && Holds(PutSaved(root, p, e, mtime, cut, k), h))
    || (h == EmptyRoot() && Made(root, p))
  }

  ghost predicate CutNode(root: Hash, p: Path, cut: seq<Cell> -> bool, h: Hash) {
    Here(root, p).Some? && exists k :: 0 <= k < |p| && Holds(CutSaved(root, p, cut, k), h)
  }

  function NewDir(name: Bytes, mtime: nat): Entry {
    Entry(name, Dir, 0, 0, mtime, DirRoot(EmptyRoot()))
  }

  /** A directory to be made anew has no stored form. */
  ghost predicate BadDir(root: Hash, p: Path, mtime: nat) {
    exists k :: 0 < k < |p| && Here(root, p[..k]).None? && !ValidEntry(NewDir(p[k - 1], mtime))
  }

  /** Why a put is refused: it leads through a file, an entry has no valid form, or a directory gets too tall. */
  ghost predicate PutBlocked(root: Hash, p: Path, e: Entry, mtime: nat, cut: seq<Cell> -> bool) {
    Through(root, p) || !ValidEntry(e) || BadDir(root, p, mtime) || PutTooTall(root, p, e, mtime, cut)
  }

  ghost predicate CutBlocked(root: Hash, p: Path, cut: seq<Cell> -> bool) {
    Through(root, p) || CutTooTall(root, p, cut)
  }

  // ── One step down the path ──

  lemma {:induction false} EmptyEntries(q: Path)
    ensures EntryAt(EmptyRoot(), q) == Some(None)
  {
    hide LookupIn, EmptyRoot, Nodes, Lists, Chunks;
    NodeItself(EmptyRoot());
    EmptyLookup(Reach(EmptyRoot()), q);
  }

  lemma {:induction false} EmptyProper()
    ensures Proper(EmptyRoot())
  {
    hide EntryAt, EmptyRoot;
    forall q
      ensures ProperAt(EmptyRoot(), q)
    {
      EmptyEntries(q);
    }
  }

  lemma {:induction false} EmptyReach()
    ensures Reach(EmptyRoot()) == {EmptyRoot()}
  {
    hide Reach, EmptyRoot, Files, Sane;
    EmptyTree([]);
  }

  lemma {:induction false} EmptyLoaded()
    ensures Loaded(EmptyRoot()) == []
  {
    hide EmptyRoot, Load, Reach;
    EmptyReach();
    EmptyLoads(Reach(EmptyRoot()));
  }

  lemma {:induction false} LoadHere(store: set<Hash>, root: Hash)
    requires Reach(root) <= store
    ensures Load(store, root) == Load(Reach(root), root)
  {
    hide Load, Nodes, Lists, Chunks;
    LoadSame(store, Reach(root), root);
  }

  /** Where an edit goes on: the child directory named `n`, and its objects. */
  lemma {:induction false} StepDown(store: set<Hash>, root: Hash, n: Bytes)
    requires Reach(root) <= store && Load(store, root).Some?
    ensures var x := Get(Load(store, root).value, n);
            && EntryAt(root, [n]) == Some(x)
            && (x.Some? ==> x.value.name == n && ValidEntry(x.value))
            && (x.Some? && x.value.content.DirRoot? ==> DirAt(root, [n]) && Reach(x.value.content.root) <= store)
  {
    hide Load, Get, Nodes, ValidEntry, Lists, Chunks;
    LoadHere(store, root);
    var x := Get(Load(store, root).value, n);
    if x.Some? {
      GetBelow(store, root, n);
      if x.value.content.DirRoot? {
        ReachTrans(root, x.value.content.root);
      }
    }
  }

  /** The directory an edit finds below `n`, or the empty one it makes there. */
  ghost predicate Child(root: Hash, n: Bytes, c: Hash) {
    || (DirAt(root, [n]) && EntryAt(root, [n]).value.value.content.root == c)
    || (EntryAt(root, [n]) == Some(None) && c == EmptyRoot())
  }

  lemma {:induction false} AbsentBelow(root: Hash, n: Bytes, q: Path)
    requires EntryAt(root, [n]) == Some(None)
    ensures EntryAt(root, [n] + q) == Some(None)
  {
    hide Load, Get, Reach;
    assert ([n] + q)[0] == n;
  }

  lemma {:induction false} HereBelow(root: Hash, n: Bytes, c: Hash, q: Path)
    requires Child(root, n, c) && q != []
    ensures EntryAt(root, [n] + q) == EntryAt(c, q)
  {
    hide EntryAt, EmptyRoot;
    if DirAt(root, [n]) {
      EntryBelow(root, n, q);
    } else {
      AbsentBelow(root, n, q);
      EmptyEntries(q);
    }
  }

  lemma {:induction false} ListBelow(root: Hash, n: Bytes, c: Hash, q: Path)
    requires Child(root, n, c)
    ensures DirList(root, [n] + q) == DirList(c, q)
  {
    hide EntryAt, EmptyRoot, Loaded;
    if q == [] {
      assert [n] + q == [n];
      EmptyLoaded();
    } else {
      HereBelow(root, n, c, q);
    }
  }

  lemma {:induction false} TailSlice(p: Path, k: nat)
    requires k < |p|
    ensures p[..k + 1] == [p[0]] + p[1..][..k]
  {
  }

  lemma {:induction false} PutDirBelow(root: Hash, p: Path, c: Hash, e: Entry, mtime: nat, cut: seq<Cell> -> bool,
                                       k: nat)
    requires |p| > 1 && Child(root, p[0], c) && k + 1 < |p|
    ensures PutDir(root, p, e, mtime, cut, k + 1) == PutDir(c, p[1..], e, mtime, cut, k)
    decreases |p| - k
  {
    hide DirList, EntryAt, EmptyRoot, Child, SavedDir, Upsert;
    TailSlice(p, k);
    ListBelow(root, p[0], c, p[1..][..k]);
    if k + 2 < |p| {
      PutDirBelow(root, p, c, e, mtime, cut, k + 1);
      TailSlice(p, k + 1);
      HereBelow(root, p[0], c, p[1..][..k + 1]);
    }
  }

  lemma {:induction false} CutDirBelow(root: Hash, p: Path, c: Hash, cut: seq<Cell> -> bool, k: nat)
    requires |p| > 1 && Child(root, p[0], c) && k + 1 < |p|
    ensures CutDir(root, p, cut, k + 1) == CutDir(c, p[1..], cut, k)
    decreases |p| - k
  {
    hide DirList, EntryAt, EmptyRoot, Child, SavedDir, Upsert, Remove;
    TailSlice(p, k);
    ListBelow(root, p[0], c, p[1..][..k]);
    if k + 2 < |p| {
      CutDirBelow(root, p, c, cut, k + 1);
      TailSlice(p, k + 1);
      HereBelow(root, p[0], c, p[1..][..k + 1]);
    }
  }

  lemma {:induction false} FileBelow(root: Hash, n: Bytes, c: Hash, q: Path)
    requires Child(root, n, c) && q != []
    ensures FileAt(root, [n] + q) <==> FileAt(c, q)
  {
    hide EntryAt, EmptyRoot, Child;
    HereBelow(root, n, c, q);
  }

  lemma {:induction false} ThroughBelow(root: Hash, p: Path, c: Hash)
    requires |p| > 1 && Child(root, p[0], c)
    ensures Through(root, p) <==> Through(c, p[1..])
  {
    hide EntryAt, FileAt, EmptyRoot;
    if k :| 0 < k < |p| && FileAt(root, p[..k]) {
      TailSlice(p, k - 1);
      if k == 1 {
        assert p[..1] == [p[0]];
        NotFile(root, p[0], c);
      } else {
        FileBelow(root, p[0], c, p[1..][..k - 1]);
        assert FileAt(c, p[1..][..k - 1]);
      }
    }
    if k :| 0 < k < |p[1..]| && FileAt(c, p[1..][..k]) {
      TailSlice(p, k);
      FileBelow(root, p[0], c, p[1..][..k]);
      assert FileAt(root, p[..k + 1]);
    }
  }

  lemma {:induction false} NotFile(root: Hash, n: Bytes, c: Hash)
    requires Child(root, n, c)
    ensures !FileAt(root, [n])
  {
    hide EntryAt, EmptyRoot;
  }

  lemma {:induction false} MadeBelow(root: Hash, p: Path, c: Hash)
    requires |p| > 1 && Child(root, p[0], c)
    ensures Made(root, p) <==> EntryAt(root, [p[0]]) == Some(None) || Made(c, p[1..])
  {
    hide EntryAt, EmptyRoot;
    assert p[..1] == [p[0]];
    if k :| 0 < k < |p| && Here(root, p[..k]).None? {
      if k > 1 {
        TailSlice(p, k - 1);
        HereBelow(root, p[0], c, p[1..][..k - 1]);
        assert Here(c, p[1..][..k - 1]).None?;
      }
    }
    if k :| 0 < k < |p[1..]| && Here(c, p[1..][..k]).None? {
      TailSlice(p, k);
      HereBelow(root, p[0], c, p[1..][..k]);
      assert Here(root, p[..k + 1]).None?;
    }
    if EntryAt(root, [p[0]]) == Some(None) {
      assert Here(root, p[..1]).None?;
    }
  }

  lemma {:induction false} UpsertHas(d: seq<Entry>, e: Entry)
    ensures e in Upsert(d, e)
    decreases |d|
  {
    hide Less;
    if d != [] && !Less(e.name, d[0].name) && d[0].name != e.name {
      UpsertHas(d[1..], e);
    }
  }

  lemma {:induction false} UpsertSaved(d: seq<Entry>, e: Entry, cut: seq<Cell> -> bool)
    requires Directory(d)
    ensures Directory(Upsert(d, e)) <==> ValidEntry(e)
    ensures SavedDir(Upsert(d, e), cut) == Relink(d, e, cut)
  {
    hide Saved, ValidEntry, Sorted;
    if ValidEntry(e) {
      UpsertDirectory(d, e);
    } else {
      UpsertHas(d, e);
    }
  }

  lemma {:induction false} LoadedDirectory(root: Hash)
    ensures Directory(Loaded(root))
  {
    hide Load, Reach;
    if Load(Reach(root), root).Some? {
      LoadDirectory(Reach(root), root);
    }
  }

  lemma {:induction false} ListDirectory(root: Hash, q: Path)
    ensures Directory(DirList(root, q))
  {
    hide Loaded, EntryAt;
    LoadedDirectory(root);
    if DirAt(root, q) {
      LoadedDirectory(EntryAt(root, q).value.value.content.root);
    }
  }

  // ── A put, exactly ──

  lemma {:induction false} PutSavedHere(root: Hash, p: Path, e: Entry, mtime: nat, cut: seq<Cell> -> bool)
    requires |p| == 1
    ensures PutSaved(root, p, e, mtime, cut, 0) == Relink(Checked(root), e, cut)
  {
    hide Loaded, SavedDir, Upsert, Relink;
    assert p[..0] == [];
    LoadedDirectory(root);
    UpsertSaved(Loaded(root), e, cut);
  }

  function Checked(root: Hash): (d: seq<Entry>)
    ensures Directory(d) && d == Loaded(root)
  {
    LoadedDirectory(root);
    Loaded(root)
  }

  lemma {:induction false} PutSavedAbove(root: Hash, p: Path, c: Hash, e: Entry, mtime: nat, cut: seq<Cell> -> bool)
    requires |p| > 1 && Child(root, p[0], c)
    ensures var sub := PutSaved(c, p[1..], e, mtime, cut, 0);
            PutSaved(root, p, e, mtime, cut, 0) ==
              if sub.None? then None
              else Relink(Checked(root), Pointing(Here(root, [p[0]]), p[0], mtime, sub.value.1), cut)
  {
    hide Loaded, SavedDir, Upsert, Relink, EntryAt, EmptyRoot, Child, Here;
    assert p[..0] == [] && p[..1] == [p[0]];
    PutDirBelow(root, p, c, e, mtime, cut, 0);
    var sub := PutSaved(c, p[1..], e, mtime, cut, 0);
    if sub.Some? {
      UpsertSaved(Checked(root), Pointing(Here(root, [p[0]]), p[0], mtime, sub.value.1), cut);
    }
  }

  lemma {:induction false} PutNodeBelow(root: Hash, p: Path, c: Hash, e: Entry, mtime: nat, cut: seq<Cell> -> bool,
                                        h: Hash)
    requires |p| > 1 && Child(root, p[0], c)
    ensures PutNode(root, p, e, mtime, cut, h) <==>
            || Holds(PutSaved(root, p, e, mtime, cut, 0), h)
            || (h == EmptyRoot() && EntryAt(root, [p[0]]) == Some(None))
            || PutNode(c, p[1..], e, mtime, cut, h)
  {
    hide PutDir, Holds, SavedDir, EntryAt, EmptyRoot, Child, Made;
    MadeBelow(root, p, c);
    if k :| 0 <= k < |p| && Holds(PutSaved(root, p, e, mtime, cut, k), h) {
      if k > 0 {
        PutDirBelow(root, p, c, e, mtime, cut, k - 1);
        assert Holds(PutSaved(c, p[1..], e, mtime, cut, k - 1), h);
      }
    }
    if k :| 0 <= k < |p[1..]| && Holds(PutSaved(c, p[1..], e, mtime, cut, k), h) {
      PutDirBelow(root, p, c, e, mtime, cut, k);
      assert Holds(PutSaved(root, p, e, mtime, cut, k + 1), h);
    }
  }

  /** A put does exactly this: it builds those directories, and fails where one of them cannot be saved or the path
      leads through a file. */
  lemma {:induction false} PutBuilds(store: set<Hash>, root: Hash, dirPath: Path, e: Entry, mtime: nat,
                                     cut: seq<Cell> -> bool, h: Hash)
    requires Reach(root) <= store && Proper(root)
    ensures var p := dirPath + [e.name]; var put := Put(store, root, dirPath, e, mtime, cut);
            && (put.Some? <==> !Through(root, p) && PutSaved(root, p, e, mtime, cut, 0).Some?)
            && (put.Some? ==> put.value.1 == PutSaved(root, p, e, mtime, cut, 0).value.1)
            && (put.Some? ==> (h in put.value.0 <==> PutNode(root, p, e, mtime, cut, h)))
    decreases |dirPath|
  {
    hide Load, Get, Reach, Directory, EmptyRoot, ValidEntry, Saved, PutSaved, EntryAt, Proper, Relink, PutNode, Through;
    var p, dir := dirPath + [e.name], Loaded(root);
    ProperLoads(root);
    LoadHere(store, root);
    if dirPath == [] {
      assert p == [e.name];
      PutSavedHere(root, p, e, mtime, cut);
      PutNodeHere(root, p, e, mtime, cut, h);
      NotThroughOne(root, p);
    } else {
      var n := dirPath[0];
      assert p[0] == n && p[1..] == dirPath[1..] + [e.name];
      StepDown(store, root, n);
      var x := Get(dir, n);
      if x.Some? && !x.value.content.DirRoot? {
        FileStops(root, p);
      } else {
        var made := if x.Some? then {} else {EmptyRoot()};
        var c := if x.Some? then x.value.content.root else EmptyRoot();
        assert Child(root, n, c);
        EmptyReach();
        if x.Some? {
          ProperChild(root, n);
        } else {
          EmptyProper();
        }
        PutBuilds(store + made, c, dirPath[1..], e, mtime, cut, h);
        ThroughBelow(root, p, c);
        PutSavedAbove(root, p, c, e, mtime, cut);
        PutNodeBelow(root, p, c, e, mtime, cut, h);
      }
    }
  }

  lemma {:induction false} NotThroughOne(root: Hash, p: Path)
    requires |p| == 1
    ensures !Through(root, p)
  {
  }

  lemma {:induction false} FileStops(root: Hash, p: Path)
    requires |p| > 1 && FileAt(root, [p[0]])
    ensures Through(root, p)
  {
    hide EntryAt;
    assert p[..1] == [p[0]];
    assert FileAt(root, p[..1]);
  }

  lemma {:induction false} PutNodeHere(root: Hash, p: Path, e: Entry, mtime: nat, cut: seq<Cell> -> bool, h: Hash)
    requires |p| == 1
    ensures PutNode(root, p, e, mtime, cut, h) <==> Holds(PutSaved(root, p, e, mtime, cut, 0), h)
  {
    hide PutSaved, Here, EmptyRoot, Holds;
  }

  lemma {:induction false} NamedLookup(store: set<Hash>, root: Hash, q: Path)
    requires LookupIn(store, root, q).Some? && LookupIn(store, root, q).value.Some?
    ensures q != [] && LookupIn(store, root, q).value.value.name == q[|q| - 1]
    decreases |q|
  {
    hide Load, Get, ValidEntry, Nodes, Lists;
    GetBelow(store, root, q[0]);
    if |q| > 1 {
      NamedLookup(store, Get(Load(store, root).value, q[0]).value.content.root, q[1..]);
    }
  }

  lemma {:induction false} HereValid(root: Hash, q: Path)
    requires Here(root, q).Some?
    ensures q != [] && ValidEntry(Here(root, q).value) && Here(root, q).value.name == q[|q| - 1]
  {
    hide LookupIn, Reach, ValidEntry, Lists;
    LookupBelow(Reach(root), root, q);
    NamedLookup(Reach(root), root, q);
  }

  lemma {:induction false} PointingValid(was: Option<Entry>, name: Bytes, mtime: nat, root: Hash)
    requires was.Some? ==> ValidEntry(was.value) && was.value.content.DirRoot?
    ensures ValidEntry(Pointing(was, name, mtime, root)) <==> was.Some? || ValidEntry(NewDir(name, mtime))
  {
    hide ValidName;
  }

  /** The entry that a put sets in the directory at `p[..k]` has a stored form. */
  ghost predicate LevelOk(root: Hash, p: Path, e: Entry, mtime: nat, k: nat)
    requires k < |p|
  {
    if k + 1 == |p| then ValidEntry(e) else Here(root, p[..k + 1]).Some? || ValidEntry(NewDir(p[k], mtime))
  }

  lemma {:induction false} PutLevel(root: Hash, p: Path, e: Entry, mtime: nat, cut: seq<Cell> -> bool, k: nat)
    requires !Through(root, p) && k < |p| && PutDir(root, p, e, mtime, cut, k).Some?
    ensures Directory(PutDir(root, p, e, mtime, cut, k).value) <==> LevelOk(root, p, e, mtime, k)
  {
    hide DirList, EntryAt, SavedDir, Upsert, ValidEntry, Directory;
    ListDirectory(root, p[..k]);
    if k + 1 == |p| {
      UpsertSaved(DirList(root, p[..k]), e, cut);
    } else {
      var s := PutSaved(root, p, e, mtime, cut, k + 1).value;
      var x := Here(root, p[..k + 1]);
      UpsertSaved(DirList(root, p[..k]), Pointing(x, p[k], mtime, s.1), cut);
      if x.Some? {
        HereValid(root, p[..k + 1]);
        assert !FileAt(root, p[..k + 1]);
      }
      PointingValid(x, p[k], mtime, s.1);
    }
  }

  /** What fails below fails above. */
  lemma {:induction false} PutFailsUp(root: Hash, p: Path, e: Entry, mtime: nat, cut: seq<Cell> -> bool, k: nat)
    requires k < |p| && PutSaved(root, p, e, mtime, cut, k).None?
    ensures PutSaved(root, p, e, mtime, cut, 0).None?
    decreases k
  {
    hide DirList, Here, SavedDir, Upsert;
    if k > 0 {
      PutFailsUp(root, p, e, mtime, cut, k - 1);
    }
  }

  ghost predicate LevelFails(root: Hash, p: Path, e: Entry, mtime: nat, cut: seq<Cell> -> bool, k: nat)
    requires k < |p|
  {
    !LevelOk(root, p, e, mtime, k) || TooTall(PutDir(root, p, e, mtime, cut, k), cut)
  }

  lemma {:induction false} PutFailsAt(root: Hash, p: Path, e: Entry, mtime: nat, cut: seq<Cell> -> bool, k: nat)
    returns (j: nat)
    requires !Through(root, p) && k < |p| && PutSaved(root, p, e, mtime, cut, k).None?
    ensures j < |p| && LevelFails(root, p, e, mtime, cut, j)
    decreases |p| - k
  {
    hide DirList, Here, Upsert, LevelOk, Directory, Through, Saved;
    if k + 1 < |p| && PutSaved(root, p, e, mtime, cut, k + 1).None? {
      j := PutFailsAt(root, p, e, mtime, cut, k + 1);
    } else {
      j := k;
      PutLevel(root, p, e, mtime, cut, k);
    }
  }

  lemma {:induction false} PutFailsHere(root: Hash, p: Path, e: Entry, mtime: nat, cut: seq<Cell> -> bool, k: nat)
    requires !Through(root, p) && k < |p| && LevelFails(root, p, e, mtime, cut, k)
    ensures PutSaved(root, p, e, mtime, cut, k).None?
  {
    hide PutDir, LevelOk, Directory, Through, Saved;
    if PutDir(root, p, e, mtime, cut, k).Some? {
      PutLevel(root, p, e, mtime, cut, k);
    }
  }

  lemma {:induction false} LevelCauses(root: Hash, p: Path, e: Entry, mtime: nat, cut: seq<Cell> -> bool)
    requires p != []
    ensures (exists k :: 0 <= k < |p| && LevelFails(root, p, e, mtime, cut, k)) <==>
            !ValidEntry(e) || BadDir(root, p, mtime) || PutTooTall(root, p, e, mtime, cut)
  {
    hide PutDir, Here, TooTall, ValidEntry, NewDir;
    if k :| 0 <= k < |p| && LevelFails(root, p, e, mtime, cut, k) {
      if !TooTall(PutDir(root, p, e, mtime, cut, k), cut) && k + 1 < |p| {
        assert Here(root, p[..k + 1]).None? && !ValidEntry(NewDir(p[k + 1 - 1], mtime));
      }
    }
    if !ValidEntry(e) {
      assert LevelFails(root, p, e, mtime, cut, |p| - 1);
    }
    if k :| 0 < k < |p| && Here(root, p[..k]).None? && !ValidEntry(NewDir(p[k - 1], mtime)) {
      assert p[..k - 1 + 1] == p[..k];
      assert LevelFails(root, p, e, mtime, cut, k - 1);
    }
    if k :| 0 <= k < |p| && TooTall(PutDir(root, p, e, mtime, cut, k), cut) {
      assert LevelFails(root, p, e, mtime, cut, k);
    }
  }

  /** A put into a tree in order fails exactly for one of these reasons. */
  lemma {:induction false} PutFails(store: set<Hash>, root: Hash, dirPath: Path, e: Entry, mtime: nat,
                                    cut: seq<Cell> -> bool)
    requires Reach(root) <= store && Proper(root)
    ensures Put(store, root, dirPath, e, mtime, cut).None? <==> PutBlocked(root, dirPath + [e.name], e, mtime, cut)
  {
    hide Put, PutSaved, Through, LevelFails, BadDir, PutTooTall, ValidEntry, Proper, Reach;
    var p := dirPath + [e.name];
    PutBuilds(store, root, dirPath, e, mtime, cut, EmptyRoot());
    LevelCauses(root, p, e, mtime, cut);
    if !Through(root, p) {
      if PutSaved(root, p, e, mtime, cut, 0).None? {
        var j := PutFailsAt(root, p, e, mtime, cut, 0);
      } else if k :| 0 <= k < |p| && LevelFails(root, p, e, mtime, cut, k) {
        PutFailsHere(root, p, e, mtime, cut, k);
        PutFailsUp(root, p, e, mtime, cut, k);
      }
    }
  }

  /** A put stores exactly the nodes of the directories it builds. */
  lemma {:induction false} PutNew(store: set<Hash>, root: Hash, dirPath: Path, e: Entry, mtime: nat,
                                  cut: seq<Cell> -> bool, h: Hash)
    requires Reach(root) <= store && Proper(root) && Put(store, root, dirPath, e, mtime, cut).Some?
    ensures h in Put(store, root, dirPath, e, mtime, cut).value.0 <==> PutNode(root, dirPath + [e.name], e, mtime, cut,
                                                                               h)
  {
    hide Put, PutSaved, Through, PutNode, Proper, Reach;
    PutBuilds(store, root, dirPath, e, mtime, cut, h);
  }

  // ── A removal, exactly ──

  lemma {:induction false} CutSavedHere(root: Hash, p: Path, cut: seq<Cell> -> bool)
    requires |p| == 1
    ensures CutSaved(root, p, cut, 0) == SavedDir(Remove(Loaded(root), p[0]), cut)
  {
    hide Loaded, SavedDir, Remove;
    assert p[..0] == [];
  }

  lemma {:induction false} CutSavedAbove(root: Hash, p: Path, c: Hash, cut: seq<Cell> -> bool)
    requires |p| > 1 && Child(root, p[0], c)
    ensures var sub := CutSaved(c, p[1..], cut, 0);
            CutSaved(root, p, cut, 0) ==
              if sub.None? then None
              else Relink(Checked(root), Pointing(Here(root, [p[0]]), p[0], 0, sub.value.1), cut)
  {
    hide Loaded, SavedDir, Upsert, Relink, EntryAt, EmptyRoot, Child, Here, Remove;
    assert p[..0] == [] && p[..1] == [p[0]];
    CutDirBelow(root, p, c, cut, 0);
    var sub := CutSaved(c, p[1..], cut, 0);
    if sub.Some? {
      UpsertSaved(Checked(root), Pointing(Here(root, [p[0]]), p[0], 0, sub.value.1), cut);
    }
  }

  lemma {:induction false} CutNodeBelow(root: Hash, p: Path, c: Hash, cut: seq<Cell> -> bool, h: Hash)
    requires |p| > 1 && Child(root, p[0], c) && Here(root, p).Some?
    ensures CutNode(root, p, cut, h) <==> Holds(CutSaved(root, p, cut, 0), h) || CutNode(c, p[1..], cut, h)
  {
    hide CutDir, Holds, SavedDir, EntryAt, EmptyRoot, Child;
    assert p == [p[0]] + p[1..];
    HereBelow(root, p[0], c, p[1..]);
    if k :| 0 <= k < |p| && Holds(CutSaved(root, p, cut, k), h) {
      if k > 0 {
        CutDirBelow(root, p, c, cut, k - 1);
        assert Holds(CutSaved(c, p[1..], cut, k - 1), h);
      }
    }
    if k :| 0 <= k < |p[1..]| && Holds(CutSaved(c, p[1..], cut, k), h) {
      CutDirBelow(root, p, c, cut, k);
      assert Holds(CutSaved(root, p, cut, k + 1), h);
    }
  }

  lemma {:induction false} CutNodeHere(root: Hash, p: Path, cut: seq<Cell> -> bool, h: Hash)
    requires |p| == 1 && Here(root, p).Some?
    ensures CutNode(root, p, cut, h) <==> Holds(CutSaved(root, p, cut, 0), h)
  {
    hide CutSaved, Here, Holds;
  }

  /** What a removal does: nothing where there is nothing, else it builds those directories. */
  ghost predicate CutOutcome(root: Hash, p: Path, cut: seq<Cell> -> bool,
                             gone: Option<(set<Hash>, Hash, Option<Entry>)>, h: Hash)
    requires p != []
  {
    if Through(root, p) then gone.None?
    else if Here(root, p).None? then gone == Some(({}, root, None))
    else
      && (gone.Some? <==> CutSaved(root, p, cut, 0).Some?)
      && (gone.Some? ==> gone.value.1 == CutSaved(root, p, cut, 0).value.1 && gone.value.2 == Here(root, p))
      && (gone.Some? ==> (h in gone.value.0 <==> CutNode(root, p, cut, h)))
  }

  lemma {:induction false} CutBuilds(store: set<Hash>, root: Hash, p: Path, cut: seq<Cell> -> bool, h: Hash)
    requires Reach(root) <= store && Proper(root) && p != []
    ensures CutOutcome(root, p, cut, Unlink(store, root, p, cut), h)
    decreases |p|
  {
    hide Load, Get, Reach, Directory, EmptyRoot, ValidEntry, Saved, CutSaved, EntryAt, Proper, Relink, CutNode, Through,
      Remove;
    var dir, n := Loaded(root), p[0];
    ProperLoads(root);
    LoadHere(store, root);
    StepDown(store, root, n);
    var x := Get(dir, n);
    if |p| == 1 {
      assert p == [n];
      NotThroughOne(root, p);
      if x.Some? {
        CutSavedHere(root, p, cut);
        CutNodeHere(root, p, cut, h);
        LoadedDirectory(root);
        RemoveDirectory(dir, n);
      }
    } else if x.Some? && !x.value.content.DirRoot? {
      FileStops(root, p);
    } else {
      var c := if x.Some? then x.value.content.root else EmptyRoot();
      assert Child(root, n, c) && p == [n] + p[1..];
      ThroughBelow(root, p, c);
      HereBelow(root, n, c, p[1..]);
      if x.None? {
        AbsentThrough(p[1..]);
        EmptyEntries(p[1..]);
      } else {
        ProperChild(root, n);
        CutBuilds(store, c, p[1..], cut, h);
        CutSavedAbove(root, p, c, cut);
        if Here(root, p).Some? {
          CutNodeBelow(root, p, c, cut, h);
        }
      }
    }
  }

  lemma {:induction false} AbsentThrough(p: Path)
    ensures !Through(EmptyRoot(), p)
  {
    hide EntryAt, EmptyRoot;
    if k :| 0 < k < |p| && FileAt(EmptyRoot(), p[..k]) {
      EmptyEntries(p[..k]);
    }
  }

  lemma {:induction false} PrefixHere(store: set<Hash>, root: Hash, q: Path, k: nat)
    requires LookupIn(store, root, q).Some? && LookupIn(store, root, q).value.Some? && 0 < k < |q|
    ensures var e := LookupIn(store, root, q[..k]); e.Some? && e.value.Some? && e.value.value.content.DirRoot?
    decreases |q|
  {
    hide Load, Get;
    assert q[..k][0] == q[0];
    if k > 1 {
      assert q[..k][1..] == q[1..][..k - 1];
      PrefixHere(store, Get(Load(store, root).value, q[0]).value.content.root, q[1..], k - 1);
    }
  }

  /** What is below a path is below a directory. */
  lemma {:induction false} DirsAbove(root: Hash, q: Path, k: nat)
    requires Here(root, q).Some? && 0 < k < |q|
    ensures DirAt(root, q[..k])
  {
    hide LookupIn, Reach;
    PrefixHere(Reach(root), root, q, k);
  }

  lemma {:induction false} CutLevel(root: Hash, p: Path, cut: seq<Cell> -> bool, k: nat)
    requires Here(root, p).Some? && k < |p| && CutDir(root, p, cut, k).Some?
    ensures Directory(CutDir(root, p, cut, k).value)
  {
    hide DirList, EntryAt, SavedDir, Upsert, ValidEntry, Directory, Remove, NewDir;
    ListDirectory(root, p[..k]);
    if k + 1 == |p| {
      RemoveDirectory(DirList(root, p[..k]), p[k]);
    } else {
      var s := CutSaved(root, p, cut, k + 1).value;
      DirsAbove(root, p, k + 1);
      var x := Here(root, p[..k + 1]);
      UpsertSaved(DirList(root, p[..k]), Pointing(x, p[k], 0, s.1), cut);
      HereValid(root, p[..k + 1]);
      PointingValid(x, p[k], 0, s.1);
    }
  }

  lemma {:induction false} CutFailsUp(root: Hash, p: Path, cut: seq<Cell> -> bool, k: nat)
    requires k < |p| && CutSaved(root, p, cut, k).None?
    ensures CutSaved(root, p, cut, 0).None?
    decreases k
  {
    hide DirList, Here, SavedDir, Upsert, Remove;
    if k > 0 {
      CutFailsUp(root, p, cut, k - 1);
    }
  }

  lemma {:induction false} CutFailsAt(root: Hash, p: Path, cut: seq<Cell> -> bool, k: nat) returns (j: nat)
    requires Here(root, p).Some? && k < |p| && CutSaved(root, p, cut, k).None?
    ensures j < |p| && TooTall(CutDir(root, p, cut, j), cut)
    decreases |p| - k
  {
    hide DirList, Here, Upsert, Directory, Saved, Remove;
    if k + 1 < |p| && CutSaved(root, p, cut, k + 1).None? {
      j := CutFailsAt(root, p, cut, k + 1);
    } else {
      j := k;
      CutLevel(root, p, cut, k);
    }
  }

  /** A removal from a tree in order fails exactly where the path leads through a file, or a directory gets too
      tall. */
  lemma {:induction false} CutFails(store: set<Hash>, root: Hash, p: Path, cut: seq<Cell> -> bool)
    requires Reach(root) <= store && Proper(root) && p != []
    ensures Unlink(store, root, p, cut).None? <==> CutBlocked(root, p, cut)
  {
    hide Unlink, Through, Proper, Reach, Here, CutDir, Saved, Directory, CutNode;
    CutBuilds(store, root, p, cut, EmptyRoot());
    if !Through(root, p) && Here(root, p).Some? {
      if CutSaved(root, p, cut, 0).None? {
        var j := CutFailsAt(root, p, cut, 0);
      } else if k :| 0 <= k < |p| && TooTall(CutDir(root, p, cut, k), cut) {
        CutFailsUp(root, p, cut, k);
      }
    }
  }

  /** A removal stores exactly the nodes of the directories it builds. */
  lemma {:induction false} CutNew(store: set<Hash>, root: Hash, p: Path, cut: seq<Cell> -> bool, h: Hash)
    requires Reach(root) <= store && Proper(root) && p != [] && Unlink(store, root, p, cut).Some?
    ensures h in Unlink(store, root, p, cut).value.0 <==> CutNode(root, p, cut, h)
  {
    hide Unlink, Through, Proper, Reach, CutSaved, Here;
    CutBuilds(store, root, p, cut, h);
  }

  // ── What an edit does to the shape of the tree ──

  lemma {:induction false} PutEntry(store: set<Hash>, root: Hash, dirPath: Path, e: Entry, mtime: nat,
                                    cut: seq<Cell> -> bool, q: Path)
    requires Reach(root) <= store && Put(store, root, dirPath, e, mtime, cut).Some? && e.kind == File
    requires !e.content.DirRoot?
    requires e.content.ChunkList? ==> e.content.list in store && ChunksOf(e.content.list) <= store
    ensures var (o, r) := Put(store, root, dirPath, e, mtime, cut).value;
            PutAt(Reach(root), root, Reach(r), r, dirPath + [e.name], e, q)
  {
    hide LookupIn, Nodes, Lists, ChunksOf, Put, Reach, Files, Sane;
    var (o, r) := Put(store, root, dirPath, e, mtime, cut).value;
    var t, l := Nodes(root), Lists(root) + (if e.content.ChunkList? then {e.content.list} else {});
    ReachSound(store, root);
    assert Sound(store, t, l);
    assert RefsWithin([e], t, l);
    PutExact(store, t, l, root, dirPath, e, mtime, cut, q);
    PutFile(store, root, dirPath, e, mtime, cut, q);
    EntrySame(store, root, q);
    EntrySame(store + o, r, q);
  }

  lemma {:induction false} CutEntry(store: set<Hash>, root: Hash, path: Path, cut: seq<Cell> -> bool, q: Path)
    requires Reach(root) <= store && path != [] && Unlink(store, root, path, cut).Some?
    ensures var (o, r, _) := Unlink(store, root, path, cut).value;
            UnlinkAt(Reach(root), root, Reach(r), r, path, q)
  {
    hide LookupIn, Nodes, Lists, Unlink, Reach, Files, Sane, Sound;
    var (o, r, _) := Unlink(store, root, path, cut).value;
    ReachSound(store, root);
    UnlinkExact(store, Nodes(root), Lists(root), root, path, cut, q);
    UnlinkFile(store, root, path, cut, q);
    EntrySame(store, root, q);
    EntrySame(store + o, r, q);
  }

  /** A put adds exactly its file and the directories on the way, and turns nothing into anything else. */
  ghost predicate PutShape(root: Hash, r: Hash, p: Path) {
    forall q :: (DirAt(r, q) <==> DirAt(root, q) || (q != [] && q < p)) && (FileAt(r, q) <==> FileAt(root, q) || q == p)
  }

  /** A removal takes away exactly its file. */
  ghost predicate CutShape(root: Hash, r: Hash, p: Path) {
    forall q :: (DirAt(r, q) <==> DirAt(root, q)) && (FileAt(r, q) <==> FileAt(root, q) && q != p)
  }

  lemma {:induction false} NoneBelow(root: Hash, p: Path, q: Path)
    requires p != [] && p < q && !DirAt(root, p)
    ensures !DirAt(root, q) && !FileAt(root, q)
  {
    hide EntryAt;
    assert q[..|p|] == p;
    if DirAt(root, q) || FileAt(root, q) {
      DirsAbove(root, q, |p|);
    }
  }

  lemma {:induction false} PutThrough(root: Hash, r: Hash, p: Path, e: Entry, q: Path)
    requires !e.content.DirRoot? && forall x :: PutAt(Reach(root), root, Reach(r), r, p, e, x)
    requires Through(root, q) && !(p < q)
    ensures Through(r, q)
  {
    hide LookupIn, Reach;
    var k :| 0 < k < |q| && FileAt(root, q[..k]);
    assert PutAt(Reach(root), root, Reach(r), r, p, e, q[..k]);
    assert q[..k] <= q;
    assert FileAt(r, q[..k]);
  }

  /** A put of a readable file keeps a tree in order. */
  lemma {:induction false} PutKeeps(store: set<Hash>, root: Hash, dirPath: Path, e: Entry, mtime: nat,
                                    cut: seq<Cell> -> bool)
    requires Reach(root) <= store && Proper(root) && Put(store, root, dirPath, e, mtime, cut).Some? && e.kind == File
    requires !e.content.DirRoot? && ReadFile(store, e.content, e.size).Some? && !DirAt(root, dirPath + [e.name])
    requires e.content.ChunkList? ==> e.content.list in store && ChunksOf(e.content.list) <= store
    ensures var r := Put(store, root, dirPath, e, mtime, cut).value.1;
            Proper(r) && PutShape(root, r, dirPath + [e.name])
  {
    hide LookupIn, Put, Reach, Files, Sane, ReadFile, ChunksOf, Through;
    var r, p := Put(store, root, dirPath, e, mtime, cut).value.1, dirPath + [e.name];
    forall q
      ensures PutAt(Reach(root), root, Reach(r), r, p, e, q)
    {
      PutEntry(store, root, dirPath, e, mtime, cut, q);
    }
    forall q
      ensures ProperAt(r, q) && (DirAt(r, q) <==> DirAt(root, q) || (q != [] && q < p)) &&
              (FileAt(r, q) <==> FileAt(root, q) || q == p)
    {
      PutFile(store, root, dirPath, e, mtime, cut, q);
      assert ProperAt(root, q) && PutAt(Reach(root), root, Reach(r), r, p, e, q);
      if p < q {
        assert PutAt(Reach(root), root, Reach(r), r, p, e, p);
        BelowFile(r, p, q, e);
        NoneBelow(root, p, q);
      } else if EntryAt(r, q).None? {
        PutThrough(root, r, p, e, q);
      }
    }
  }

  lemma {:induction false} BelowFile(r: Hash, p: Path, q: Path, e: Entry)
    requires p != [] && p < q && EntryAt(r, p) == Some(Some(e)) && !e.content.DirRoot?
    ensures Through(r, q)
  {
    hide EntryAt;
    assert q[..|p|] == p;
    assert FileAt(r, q[..|p|]);
  }

  lemma {:induction false} CutThrough(root: Hash, r: Hash, p: Path, q: Path)
    requires p != [] && forall x :: UnlinkAt(Reach(root), root, Reach(r), r, p, x)
    requires Through(root, q) && !(p <= q)
    ensures Through(r, q)
  {
    hide LookupIn, Reach;
    var k :| 0 < k < |q| && FileAt(root, q[..k]);
    assert UnlinkAt(Reach(root), root, Reach(r), r, p, q[..k]);
    assert q[..k] <= q;
    assert FileAt(r, q[..k]);
  }

  /** So does a removal. */
  lemma {:induction false} CutKeeps(store: set<Hash>, root: Hash, p: Path, cut: seq<Cell> -> bool)
    requires Reach(root) <= store && Proper(root) && p != [] && Unlink(store, root, p, cut).Some? && !DirAt(root, p)
    ensures var r := Unlink(store, root, p, cut).value.1; Proper(r) && CutShape(root, r, p)
  {
    hide LookupIn, Unlink, Reach, Files, Sane, Through;
    var r := Unlink(store, root, p, cut).value.1;
    forall q
      ensures UnlinkAt(Reach(root), root, Reach(r), r, p, q)
    {
      CutEntry(store, root, p, cut, q);
    }
    forall q
      ensures ProperAt(r, q) && (DirAt(r, q) <==> DirAt(root, q)) && (FileAt(r, q) <==> FileAt(root, q) && q != p)
    {
      UnlinkFile(store, root, p, cut, q);
      assert ProperAt(root, q) && UnlinkAt(Reach(root), root, Reach(r), r, p, q);
      if p <= q {
        if p != q {
          NoneBelow(root, p, q);
        }
        assert EntryAt(r, q) == Some(None);
      }
      if EntryAt(r, q).None? {
        CutThrough(root, r, p, q);
      }
    }
  }
}
