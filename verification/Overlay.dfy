/** The id-keyed overlay: dirty files hang off ephemeral ids, so a rename swaps two names and an open
    handle outlives its name. It is proved to be the path-keyed overlay seen through the name index. */
module Overlay {
  import opened Cells
  import opened Intervals
  import opened MapSum
  import PO = PathOverlay
  import Scheduler

  type FileId = nat

  /** The four indices and the tombstones. `names[id]` is `None` once the name was unlinked under an open
      handle. */
  datatype Maps = Maps(
    byId: map<FileId, PO.FileOverlay>, byName: map<Path, FileId>, names: map<FileId, Option<Path>>, tombs: set<Path>,
    open: map<FileId, nat>)

  /** A bound name leads to an id that leads back, and is not tombstoned once dirty. */
  predicate NameOk(m: Maps, p: Path)
    requires p in m.byName
  {
    var id := m.byName[p];
    id in m.names && m.names[id] == Some(p) && (id in m.byId ==> p !in m.tombs)
  }

  /** An id is dirty or open; it leads to a name that leads back, or it is a nameless open handle. */
  predicate IdOk(m: Maps, id: FileId)
    requires id in m.names
  {
    && (id in m.byId || id in m.open)
    && match m.names[id]
       case None => id in m.open
       case Some(p) => p in m.byName && m.byName[p] == id
  }

  /** The indices agree with each other. */
  ghost predicate Consistent(m: Maps) {
    && (forall p :: p in m.byName ==> NameOk(m, p))
    && (forall id :: id in m.names ==> IdOk(m, id))
    && m.byId.Keys <= m.names.Keys && m.open.Keys <= m.names.Keys
    && (forall id :: id in m.open ==> m.open[id] > 0)
  }

  lemma {:induction false} NameOf(m: Maps, p: Path)
    requires Consistent(m)
    ensures p in m.byName ==> NameOk(m, p)
  {
    hide NameOk, IdOk;
  }

  lemma {:induction false} IdOf(m: Maps, id: FileId)
    requires Consistent(m)
    ensures id in m.names ==> IdOk(m, id)
    ensures id !in m.names ==> id !in m.byId && id !in m.open
    ensures id in m.open ==> id in m.names && m.open[id] > 0
  {
    hide NameOk, IdOk;
  }

  ghost predicate AllSorted(m: Maps) {
    forall id :: id in m.byId ==> Sorted(m.byId[id].writes)
  }

  /** Ids handed out so far are below `next`. */
  ghost predicate Below(m: Maps, next: FileId) {
    forall id :: id in m.names ==> id < next
  }

  /** The dirty file a name shows. */
  function FileAt(m: Maps, p: Path): Option<PO.FileOverlay> {
    if p in m.byName && m.byName[p] in m.byId then Some(m.byId[m.byName[p]]) else None
  }

  /** The overlay the names show. */
  function View(m: Maps): PO.Overlay {
    PO.Overlay(map p | p in m.byName && m.byName[p] in m.byId :: m.byId[m.byName[p]], m.tombs)
  }

  lemma {:induction false} ViewIs(m: Maps, o: PO.Overlay)
    requires m.tombs == o.unlinks && forall p :: FileAt(m, p) == PO.Get(o, p)
    ensures View(m) == o
  {
    var f := View(m).files;
    forall p
      ensures (p in f <==> p in o.files) && (p in f ==> f[p] == o.files[p])
    {
      assert FileAt(m, p) == PO.Get(o, p);
    }
    assert f == o.files;
  }

  lemma {:induction false} ViewGet(m: Maps, p: Path)
    ensures PO.Get(View(m), p) == FileAt(m, p)
  {
  }

  ghost function Sizes(m: Maps): map<FileId, nat> {
    map id | id in m.byId :: Stored(m.byId[id].writes)
  }

  // ── The steps on the indices ──

  /** The id of a name, made if there is none. */
  function Bound(m: Maps, path: Path, next: FileId): Maps {
    if path in m.byName then m
    else m.(byName := m.byName[path := next], names := m.names[next := Some(path)])
  }

  function IdAt(m: Maps, path: Path, next: FileId): FileId {
    if path in m.byName then m.byName[path] else next
  }

  function Dropped(m: Maps, id: FileId): Maps {
    m.(byId := m.byId - {id}, names := m.names - {id})
  }

  function Handles(open: map<FileId, nat>, id: FileId): nat {
    if id in open then open[id] else 0
  }

  /** Open handles on the file now named `p`. */
  function HandlesOn(m: Maps, p: Path): nat {
    if p in m.byName then Handles(m.open, m.byName[p]) else 0
  }

  function Opened(m: Maps, path: Path, next: FileId): Maps {
    var b, id := Bound(m, path, next), IdAt(m, path, next);
    b.(open := b.open[id := Handles(b.open, id) + 1])
  }

  function Written(m: Maps, path: Path, next: FileId, fo: PO.FileOverlay): Maps {
    var b := Bound(m.(tombs := m.tombs - {path}), path, next);
    b.(byId := b.byId[IdAt(m, path, next) := fo])
  }

  function Unlinked(m: Maps, path: Path): Maps {
    var t := m.(tombs := m.tombs + {path});
    if path !in m.byName then t else
      var id := m.byName[path];
      var u := t.(byName := t.byName - {path});
      if id in m.open then u.(names := u.names[id := None]) else Dropped(u, id)
  }

  function Renamed(m: Maps, from: Path, to: Path, mtime: nat): Maps
    requires from in m.byName && m.byName[from] in m.byId
  {
    var id := m.byName[from];
    var v := if to in m.byName then Dropped(m, m.byName[to]) else m;
    v.(byName := (v.byName - {from, to})[to := id], names := v.names[id := Some(to)],
       tombs := (v.tombs - {to}) + {from},
       byId := v.byId[id := m.byId[id].(mtime := mtime)])
  }

  /** The last handle on `id` goes. */
  function Closed(m: Maps, id: FileId): Maps
    requires id in m.names
  {
    var c := m.(open := m.open - {id});
    if m.names[id].None? then Dropped(c, id)
    else if id in m.byId then c
    else Dropped(c.(byName := c.byName - {m.names[id].value}), id)
  }

  lemma {:induction false} OpenedConsistent(m: Maps, path: Path, next: FileId)
    requires Consistent(m) && Below(m, next)
    ensures Consistent(Opened(m, path, next)) && View(Opened(m, path, next)) == View(m)
    ensures Below(Opened(m, path, next), next + 1) && Opened(m, path, next).byId == m.byId
  {
    hide Consistent, View, Below;
    NextIsNew(m, next);
    NameOf(m, path);
    var o, id := Opened(m, path, next), IdAt(m, path, next);
    forall p | p in o.byName ensures NameOk(o, p) {
      NameOf(m, p);
    }
    forall i | i in o.names ensures IdOk(o, i) {
      IdOf(m, i);
    }
    forall i ensures (i in o.byId || i in o.open ==> i in o.names) && (i in o.open ==> o.open[i] > 0) {
      IdOf(m, i);
    }
    IsConsistent(o);
    forall p ensures FileAt(o, p) == PO.Get(View(m), p) {
      ViewGet(m, p);
    }
    TombsView(m);
    ViewIs(o, View(m));
    BelowMore(m, o, next);
  }

  lemma {:induction false} TombsView(m: Maps)
    ensures View(m).unlinks == m.tombs
  {
  }

  lemma {:induction false} NextIsNew(m: Maps, next: FileId)
    requires Consistent(m) && Below(m, next)
    ensures next !in m.names && next !in m.byId && next !in m.open
  {
    IdOf(m, next);
  }

  lemma {:induction false} BelowMore(m: Maps, o: Maps, next: FileId)
    requires Below(m, next) && o.names.Keys <= m.names.Keys + {next}
    ensures Below(o, next + 1)
  {
    forall id | id in o.names ensures id < next + 1 {
      assert id in m.names.Keys + {next};
    }
  }

  lemma {:induction false} IsConsistent(m: Maps)
    requires forall p :: p in m.byName ==> NameOk(m, p)
    requires forall id :: id in m.names ==> IdOk(m, id)
    requires forall id :: (id in m.byId || id in m.open ==> id in m.names) && (id in m.open ==> m.open[id] > 0)
    ensures Consistent(m)
  {
    hide NameOk, IdOk;
  }

  lemma {:induction false} WrittenConsistent(m: Maps, path: Path, next: FileId, fo: PO.FileOverlay)
    requires Consistent(m) && Below(m, next)
    ensures Consistent(Written(m, path, next, fo)) && Below(Written(m, path, next, fo), next + 1)
    ensures View(Written(m, path, next, fo)) == PO.Overlay(View(m).files[path := fo], m.tombs - {path})
  {
    hide Consistent, View, Below;
    NextIsNew(m, next);
    NameOf(m, path);
    var w := Written(m, path, next, fo);
    forall p | p in w.byName ensures NameOk(w, p) {
      NameOf(m, p);
    }
    forall i | i in w.names ensures IdOk(w, i) {
      IdOf(m, i);
    }
    forall i ensures (i in w.byId || i in w.open ==> i in w.names) && (i in w.open ==> w.open[i] > 0) {
      IdOf(m, i);
    }
    IsConsistent(w);
    var o := PO.Overlay(View(m).files[path := fo], m.tombs - {path});
    forall p ensures FileAt(w, p) == PO.Get(o, p) {
      NameOf(m, p);
      ViewGet(m, p);
    }
    ViewIs(w, o);
    BelowMore(m, w, next);
  }

  lemma {:induction false} UnlinkedConsistent(m: Maps, path: Path)
    requires Consistent(m)
    ensures Consistent(Unlinked(m, path)) && View(Unlinked(m, path)) == PO.Unlink(View(m), path)
    ensures Unlinked(m, path).names.Keys <= m.names.Keys
  {
    hide Consistent, View;
    NameOf(m, path);
    var u := Unlinked(m, path);
    forall p | p in u.byName ensures NameOk(u, p) {
      NameOf(m, p);
    }
    forall i | i in u.names ensures IdOk(u, i) {
      IdOf(m, i);
    }
    forall i ensures (i in u.byId || i in u.open ==> i in u.names) && (i in u.open ==> u.open[i] > 0) {
      IdOf(m, i);
    }
    IsConsistent(u);
    TombsView(m);
    forall p ensures FileAt(u, p) == PO.Get(PO.Unlink(View(m), path), p) {
      NameOf(m, p);
      ViewGet(m, p);
    }
    ViewIs(u, PO.Unlink(View(m), path));
  }

  lemma {:induction false} RenamedConsistent(m: Maps, from: Path, to: Path, mtime: nat)
    requires Consistent(m) && from != to && from in m.byName && m.byName[from] in m.byId
    requires to in m.byName ==> m.byName[to] !in m.open
    ensures Consistent(Renamed(m, from, to, mtime)) && Renamed(m, from, to, mtime).names.Keys <= m.names.Keys
  {
    hide Consistent;
    NameOf(m, from);
    NameOf(m, to);
    var r := Renamed(m, from, to, mtime);
    forall p | p in r.byName ensures NameOk(r, p) {
      NameOf(m, p);
    }
    forall i | i in r.names ensures IdOk(r, i) {
      IdOf(m, i);
    }
    forall i ensures (i in r.byId || i in r.open ==> i in r.names) && (i in r.open ==> r.open[i] > 0) {
      IdOf(m, i);
    }
    IsConsistent(r);
  }

  lemma {:induction false} RenamedView(m: Maps, from: Path, to: Path, mtime: nat)
    requires Consistent(m) && from != to && from in m.byName && m.byName[from] in m.byId
    ensures from in View(m).files && View(Renamed(m, from, to, mtime)) == PO.Rename(View(m), from, to, mtime)
  {
    hide Consistent, View;
    NameOf(m, from);
    NameOf(m, to);
    ViewGet(m, from);
    TombsView(m);
    var r, o := Renamed(m, from, to, mtime), PO.Rename(View(m), from, to, mtime);
    forall p ensures FileAt(r, p) == PO.Get(o, p) {
      NameOf(m, p);
      ViewGet(m, p);
    }
    ViewIs(r, o);
  }

  lemma {:induction false} WithoutTomb(m: Maps, from: Path, to: Path, mtime: nat, next: FileId)
    requires Consistent(m) && from != to && from !in m.byName
    ensures var m' := m.(tombs := m.tombs - {from});
            && Consistent(m') && (Below(m, next) ==> Below(m', next))
            && PO.Rename(PO.OpenForRename(View(m'), from), from, to, mtime) ==
               PO.Rename(PO.OpenForRename(View(m), from), from, to, mtime)
  {
    hide Consistent;
    var m' := m.(tombs := m.tombs - {from});
    forall p | p in m'.byName ensures NameOk(m', p) {
      NameOf(m, p);
    }
    forall i | i in m'.names ensures IdOk(m', i) {
      IdOf(m, i);
    }
    forall i ensures (i in m'.byId || i in m'.open ==> i in m'.names) && (i in m'.open ==> m'.open[i] > 0) {
      IdOf(m, i);
    }
    IsConsistent(m');
    assert (m.tombs - {from} - {to}) + {from} == (m.tombs - {to}) + {from};
  }

  lemma {:induction false} BelowFewer(m: Maps, o: Maps, next: FileId)
    requires Below(m, next) && o.names.Keys <= m.names.Keys
    ensures Below(o, next)
  {
    forall id | id in o.names ensures id < next {
      assert id in m.names;
    }
  }

  /** Renaming onto a name that has an open handle loses the handle's name but not its count: the indices agree
      afterwards if and only if the target has none. */
  lemma {:induction false} RenamedExact(m: Maps, from: Path, to: Path, mtime: nat)
    requires Consistent(m) && from != to && from in m.byName && m.byName[from] in m.byId
    ensures Consistent(Renamed(m, from, to, mtime)) <==> (to in m.byName ==> m.byName[to] !in m.open)
  {
    hide Consistent;
    if to in m.byName && m.byName[to] in m.open {
      NameOf(m, from);
      NameOf(m, to);
      var r, id := Renamed(m, from, to, mtime), m.byName[to];
      assert id !in r.names && id in r.open;
      if Consistent(r) {
        IdOf(r, id);
      }
    } else {
      RenamedConsistent(m, from, to, mtime);
    }
  }

  lemma {:induction false} OpenTarget(m: Maps, to: Path)
    requires Consistent(m)
    ensures HandlesOn(m, to) == 0 <==> (to in m.byName ==> m.byName[to] !in m.open)
  {
    hide Consistent;
    if to in m.byName {
      IdOf(m, m.byName[to]);
    }
  }

  lemma {:induction false} SameHandles(m: Maps, m': Maps)
    requires m'.open == m.open && m'.byName == m.byName
    ensures forall p :: HandlesOn(m', p) == HandlesOn(m, p)
  {
  }

  lemma {:induction false} NoHandles(m: Maps, p: Path)
    requires p !in m.byName
    ensures HandlesOn(m, p) == 0
  {
  }

  /** A name is bound to an id without data exactly when it has an open handle and no pending write: it was opened,
      and not written since, or not since the last flush. */
  lemma {:induction false} Unwritten(m: Maps, p: Path)
    requires Consistent(m)
    ensures p in m.byName && m.byName[p] !in m.byId <==> HandlesOn(m, p) > 0 && p !in View(m).files
  {
    hide Consistent;
    NameOf(m, p);
    if p in m.byName {
      IdOf(m, m.byName[p]);
    }
  }

  /** A file that was just opened is such a name. */
  lemma {:induction false} OpenedExample(p: Path)
    ensures var m := Opened(Maps(map[], map[], map[], {}, map[]), p, 0);
            Consistent(m) && HandlesOn(m, p) == 1 && p !in View(m).files
  {
    OpenedConsistent(Maps(map[], map[], map[], {}, map[]), p, 0);
  }

  // ── Handles ──

  lemma {:induction false} WrittenHandles(m: Maps, path: Path, next: FileId, fo: PO.FileOverlay, p: Path)
    requires Consistent(m) && Below(m, next)
    ensures HandlesOn(Written(m, path, next, fo), p) == HandlesOn(m, p)
  {
    hide Consistent, Below;
    NextIsNew(m, next);
  }

  lemma {:induction false} UnlinkedHandles(m: Maps, path: Path, p: Path)
    ensures HandlesOn(Unlinked(m, path), p) == if p == path then 0 else HandlesOn(m, p)
  {
  }

  lemma {:induction false} RenamedHandles(m: Maps, from: Path, to: Path, mtime: nat, p: Path)
    requires from != to && from in m.byName && m.byName[from] in m.byId
    ensures HandlesOn(Renamed(m, from, to, mtime), p) ==
              if p == to then HandlesOn(m, from) else if p == from then 0 else HandlesOn(m, p)
  {
  }

  lemma {:induction false} OpenedHandles(m: Maps, path: Path, next: FileId, p: Path)
    requires Consistent(m) && Below(m, next)
    ensures HandlesOn(Opened(m, path, next), p) == HandlesOn(m, p) + if p == path then 1 else 0
  {
    hide Consistent, Below;
    NextIsNew(m, next);
    NameOf(m, p);
    NameOf(m, path);
  }

  /** One handle fewer on `id`; the last one also drops what it alone kept. */
  function Released(m: Maps, id: FileId): Maps
    requires id in m.names
  {
    if id !in m.open then m
    else if m.open[id] > 1 then m.(open := m.open[id := m.open[id] - 1])
    else Closed(m, id)
  }

  lemma {:induction false} ReleasedHandles(m: Maps, id: FileId, p: Path)
    requires Consistent(m) && id in m.names
    ensures HandlesOn(Released(m, id), p) ==
              if p in m.byName && m.byName[p] == id && id in m.open then HandlesOn(m, p) - 1 else HandlesOn(m, p)
  {
    hide Consistent;
    NameOf(m, p);
    IdOf(m, id);
    if m.names[id].Some? {
      NameOf(m, m.names[id].value);
    }
  }

  lemma {:induction false} CarriedHandles(m: Maps, p: Path)
    requires Consistent(m)
    ensures m.open.Keys <= m.names.Keys && HandlesOn(Carried(m), p) == HandlesOn(m, p)
  {
    hide Consistent;
    CarriedConsistent(m);
  }

  lemma {:induction false} ClosedConsistent(m: Maps, id: FileId)
    requires Consistent(m) && id in m.open
    ensures id in m.names && Consistent(Closed(m, id)) && View(Closed(m, id)) == View(m)
    ensures Closed(m, id).names.Keys <= m.names.Keys
  {
    hide Consistent, View;
    IdOf(m, id);
    var c := Closed(m, id);
    forall p | p in c.byName ensures NameOk(c, p) {
      NameOf(m, p);
    }
    forall i | i in c.names ensures IdOk(c, i) {
      IdOf(m, i);
    }
    forall i ensures (i in c.byId || i in c.open ==> i in c.names) && (i in c.open ==> c.open[i] > 0) {
      IdOf(m, i);
    }
    IsConsistent(c);
    TombsView(m);
    forall p ensures FileAt(c, p) == PO.Get(View(m), p) {
      NameOf(m, p);
      ViewGet(m, p);
    }
    ViewIs(c, View(m));
  }

  // ── The byte census ──

  lemma {:induction false} CensusPut(m: Maps, id: FileId, fo: PO.FileOverlay)
    ensures var m' := m.(byId := m.byId[id := fo]);
            Sum(Sizes(m')) == Sum(Sizes(m)) + Stored(fo.writes) -
                              (if id in m.byId then Stored(m.byId[id].writes) else 0)
  {
    hide Stored;
    var m' := m.(byId := m.byId[id := fo]);
    assert Sizes(m') == Sizes(m)[id := Stored(fo.writes)];
    SumPut(Sizes(m), id, Stored(fo.writes));
    if id in m.byId {
      SumPick(Sizes(m), id);
    } else {
      SumSame(Sizes(m), id);
    }
  }

  lemma {:induction false} CensusDrop(m: Maps, id: FileId)
    ensures Sum(Sizes(Dropped(m, id))) == Sum(Sizes(m)) - (if id in m.byId then Stored(m.byId[id].writes) else 0)
  {
    hide Stored;
    assert Sizes(Dropped(m, id)) == Sizes(m) - {id};
    if id in m.byId {
      SumPick(Sizes(m), id);
    } else {
      SumSame(Sizes(m), id);
    }
  }

  lemma {:induction false} SameSizes(m: Maps, m': Maps)
    requires m'.byId == m.byId
    ensures Sizes(m') == Sizes(m)
  {
  }

  /** With no handle open, the census is the path-keyed overlay's byte count. */
  lemma {:induction false} BytesAgree(m: Maps)
    requires Consistent(m) && m.open == map[]
    ensures Sum(Sizes(m)) == Scheduler.OverlayBytes(View(m))
  {
    hide Stored, Consistent;
    var a, f := Scheduler.FileBytes(View(m)), map p | p in View(m).files :: m.byName[p];
    forall p | p in a
      ensures p in m.byName && m.byName[p] in m.names && m.names[m.byName[p]] == Some(p)
    {
      NameOf(m, p);
    }
    forall k | k in Sizes(m)
      ensures k in f.Values
    {
      IdOf(m, k);
      var p := m.names[k].value;
      assert p in f && f[p] == k;
    }
    SumRenamed(a, Sizes(m), f);
  }

  // ── Handles across a flush ──

  /** Only the open handles and their names. */
  function Carried(m: Maps): Maps
    requires m.open.Keys <= m.names.Keys
  {
    Maps(map[], map p | p in m.byName && m.byName[p] in m.open :: m.byName[p], map id | id in m.open :: m.names[id],
         {}, m.open)
  }

  lemma {:induction false} CarriedConsistent(m: Maps)
    requires Consistent(m)
    ensures m.open.Keys <= m.names.Keys && Consistent(Carried(m)) && View(Carried(m)) == PO.EMPTY &&
            Sum(Sizes(Carried(m))) == 0
  {
    hide Consistent;
    forall id ensures id in m.open ==> id in m.names {
      IdOf(m, id);
    }
    var c := Carried(m);
    forall p | p in c.byName ensures NameOk(c, p) {
      NameOf(m, p);
    }
    forall i | i in c.names ensures IdOk(c, i) {
      IdOf(m, i);
    }
    forall i ensures (i in c.byId || i in c.open ==> i in c.names) && (i in c.open ==> c.open[i] > 0) {
      IdOf(m, i);
    }
    IsConsistent(c);
    assert Sizes(c) == map[];
  }

  // ── The overlay ──

  class IdOverlay {
    var byId: map<FileId, PO.FileOverlay>
    var byName: map<Path, FileId>
    var names: map<FileId, Option<Path>>
    var tombs: set<Path>
    var open: map<FileId, nat>
    var bytes: nat

    ghost function Rep(): Maps
      reads this
    {
      Maps(byId, byName, names, tombs, open)
    }

    ghost predicate Valid()
      reads this
    {
      Consistent(Rep()) && AllSorted(Rep()) && bytes == Sum(Sizes(Rep()))
    }

    constructor ()
      ensures Valid() && Rep() == Maps(map[], map[], map[], {}, map[]) && bytes == 0
    {
      byId, byName, names, tombs, open, bytes := map[], map[], map[], {}, map[], 0;
      new;
      assert Sizes(Rep()) == map[];
    }

    // ── The pieces ──

    /** The id of a name, allocated if there is none. */
    method Bind(path: Path, next: FileId) returns (id: FileId, next': FileId)
      modifies this`byName, this`names
      ensures Rep() == Bound(old(Rep()), path, next) && id == IdAt(old(Rep()), path, next)
      ensures next' == if path in old(byName) then next else next + 1
    {
      if path in byName {
        return byName[path], next;
      }
      byName, names := byName[path := next], names[next := Some(path)];
      return next, next + 1;
    }

    /** Forget an id and its data. */
    method Reap(id: FileId)
      requires bytes == Sum(Sizes(Rep()))
      modifies this`byId, this`names, this`bytes
      ensures Rep() == Dropped(old(Rep()), id) && bytes == Sum(Sizes(Rep()))
    {
      hide Sizes, Stored;
      CensusDrop(Rep(), id);
      if id in byId {
        bytes := SatSub(bytes, Stored(byId[id].writes));
      }
      byId, names := byId - {id}, names - {id};
    }

    /** Insert into the intervals of an id, and account for the change. */
    method InsertAt(id: FileId, fo: PO.FileOverlay, off: nat, data: Bytes, mtime: nat)
      requires AllSorted(Rep()) && Sorted(fo.writes) && bytes == Sum(Sizes(Rep()))
      requires if id in byId then fo == byId[id] else fo.writes == []
      requires data != [] || ByteIn(fo.writes, off).None?
      modifies this`byId, this`bytes
      ensures byId == old(byId)[id := PO.WriteFile(fo, off, data, mtime)]
      ensures AllSorted(Rep()) && bytes == Sum(Sizes(Rep()))
    {
      hide Sizes, Stored, Inserted, Sorted, ByteIn;
      var w, delta := Insert(fo.writes, off, data);
      CensusPut(Rep(), id, fo.(writes := w, mtime := mtime));
      SortedNone();
      byId := byId[id := fo.(writes := w, mtime := mtime)];
      bytes := Clamp(bytes + delta);
    }

    /** A write to a name: an existing id is kept, a tombstoned name comes back as a fresh file. */
    method Write(path: Path, off: nat, data: Bytes, mtime: nat, next: FileId) returns (next': FileId)
      requires Valid() && Below(Rep(), next) && PO.Writable(View(Rep()), path, off, data)
      modifies this
      ensures Valid() && Below(Rep(), next') && open == old(open)
      ensures View(Rep()) == PO.Write(old(View(Rep())), path, off, data, mtime)
      ensures forall p :: HandlesOn(Rep(), p) == old(HandlesOn(Rep(), p))
    {
      hide Consistent, Stored, Sum, Sorted, ByteIn, Below, Sizes, View, PO.WriteFile, Inserted, HandlesOn;
      ghost var m := Rep();
      NextIsNew(m, next);
      ViewGet(m, path);
      TombsView(m);
      SortedNone();
      var isFresh := path in tombs;
      tombs := tombs - {path};
      var id;
      id, next' := Bind(path, next);
      SameSizes(m, Rep());
      var fo := if id in byId then byId[id] else PO.NewFile(path, isFresh);
      DirtyLive(m, path);
      NoByte(off);
      InsertAt(id, fo, off, data, mtime);
      WrittenConsistent(m, path, next, byId[id]);
      assert Rep() == Written(m, path, next, byId[id]);
      BelowHere(m, Rep(), next, next');
      forall p
        ensures HandlesOn(Rep(), p) == HandlesOn(m, p)
      {
        WrittenHandles(m, path, next, byId[id], p);
      }
    }

    /** An unlink reaps the id, or leaves it nameless under its open handles. */
    method Unlink(path: Path)
      requires Valid()
      modifies this
      ensures Valid() && names.Keys <= old(names.Keys) && open == old(open)
      ensures View(Rep()) == PO.Unlink(old(View(Rep())), path)
      ensures forall p :: HandlesOn(Rep(), p) == if p == path then 0 else old(HandlesOn(Rep(), p))
    {
      hide Consistent, Stored, Sum, Sorted, Sizes, View, HandlesOn;
      ghost var m := Rep();
      tombs := tombs + {path};
      if path in byName {
        var id := byName[path];
        byName := byName - {path};
        SameSizes(m, Rep());
        if id in open {
          names := names[id := None];
          SameSizes(m, Rep());
        } else {
          Reap(id);
        }
      } else {
        SameSizes(m, Rep());
      }
      UnlinkedConsistent(m, path);
      assert Rep() == Unlinked(m, path);
      forall p
        ensures HandlesOn(Rep(), p) == if p == path then 0 else HandlesOn(m, p)
      {
        UnlinkedHandles(m, path, p);
      }
    }

    /** Open a handle: the name's id, made if need be, counted once more. What the overlay shows is unchanged. */
    method Open(path: Path, next: FileId) returns (id: FileId, next': FileId)
      requires Valid() && Below(Rep(), next)
      modifies this
      ensures path in byName && byName[path] == id && byId == old(byId)
      ensures open == old(open)[id := Handles(old(open), id) + 1]
      ensures Valid() && Below(Rep(), next') && View(Rep()) == old(View(Rep()))
      ensures forall p :: HandlesOn(Rep(), p) == old(HandlesOn(Rep(), p)) + if p == path then 1 else 0
    {
      hide Consistent, Stored, Sum, Sorted, Below, Sizes, View, HandlesOn;
      ghost var m := Rep();
      OpenedConsistent(m, path, next);
      id, next' := Bind(path, next);
      open := open[id := Handles(open, id) + 1];
      assert Rep() == Opened(m, path, next);
      SameSizes(m, Rep());
      BelowHere(m, Rep(), next, next');
      forall p
        ensures HandlesOn(Rep(), p) == HandlesOn(m, p) + if p == path then 1 else 0
      {
        OpenedHandles(m, path, next, p);
      }
    }

    /** Close a handle. The last one discards an orphan's data and a reservation never written. */
    method Close(id: FileId) returns (last: bool)
      requires Valid()
      modifies this
      ensures Valid() && View(Rep()) == old(View(Rep())) && names.Keys <= old(names.Keys)
      ensures last == (id !in open)
      ensures open == if id in old(open) &&
              old(open)[id] > 1 then old(open)[id := old(open)[id] - 1] else old(open) - {id}
      ensures id in old(names) ==> Rep() == Released(old(Rep()), id)
    {
      hide Consistent, Stored, Sum, Sorted, View, Sizes;
      ghost var m := Rep();
      IdOf(m, id);
      if id !in open {
        assert open - {id} == open;
        return true;
      }
      if open[id] > 1 {
        open := open[id := open[id] - 1];
        FewerHandles(m, id);
        SameSizes(m, Rep());
        return false;
      }
      ClosedConsistent(m, id);
      open := open - {id};
      SameSizes(m, Rep());
      if names[id].None? {
        Reap(id);
      } else if id !in byId {
        byName := byName - {names[id].value};
        SameSizes(m, Rep());
        Reap(id);
      }
      assert Rep() == Closed(m, id);
      return true;
    }

    /** A write through a handle whose name is gone: held until close or flush, shown nowhere. */
    method WriteOrphan(id: FileId, off: nat, data: Bytes, mtime: nat)
      requires Valid() && id in names && names[id].None?
      requires data != [] || id !in byId || ByteIn(byId[id].writes, off).None?
      modifies this`byId, this`bytes
      ensures Valid() && View(Rep()) == old(View(Rep())) && id in byId
      ensures byId == old(byId)[id := byId[id]] && forall p :: HandlesOn(Rep(), p) == old(HandlesOn(Rep(), p))
      ensures byId[id].writes == Inserted(if id in old(byId) then old(byId)[id].writes else [], off, data)
    {
      hide Consistent, Stored, Sum, Sorted, Inserted, ByteIn, View, Sizes;
      ghost var m := Rep();
      SortedNone();
      NoByte(off);
      var fo := if id in byId then byId[id] else PO.FileOverlay([], true, 0, None);
      InsertAt(id, fo, off, data, mtime);
      OrphanHidden(m, id, byId[id]);
    }

    /** Bring a clean committed file in, so that a rename can move it. */
    method OpenForRename(path: Path, next: FileId) returns (next': FileId)
      requires Valid() && Below(Rep(), next) && path !in byName && path !in tombs
      modifies this
      ensures Valid() && Below(Rep(), next') && View(Rep()) == PO.OpenForRename(old(View(Rep())), path)
      ensures byName == old(byName)[path := next] && next in byId && open == old(open)
      ensures forall p :: HandlesOn(Rep(), p) == old(HandlesOn(Rep(), p))
    {
      hide Consistent, Stored, Sum, Sorted, Below, Sizes, View, HandlesOn;
      ghost var m := Rep();
      NextIsNew(m, next);
      TombsView(m);
      var fo := PO.FileOverlay([], false, 0, Some(path));
      WrittenConsistent(m, path, next, fo);
      CensusPut(m, next, fo);
      SortedNone();
      byId, byName, names := byId[next := fo], byName[path := next], names[next := Some(path)];
      next' := next + 1;
      assert m.tombs - {path} == m.tombs;
      assert Rep() == Written(m, path, next, fo);
      SameSizes(m.(byId := m.byId[next := fo]), Rep());
      forall p
        ensures HandlesOn(Rep(), p) == HandlesOn(m, p)
      {
        WrittenHandles(m, path, next, fo, p);
      }
    }

    /** Rename a bound name: its intervals stay with its id, only names move. There is nothing to move, and the source
        stops, exactly when the name has an open handle and no pending write. Under an open target the indices do not
        agree afterwards. */
    method Rename(from: Path, to: Path, mtime: nat) returns (moved: bool)
      requires Valid() && from != to && from in byName
      modifies this
      ensures moved <==> !(old(HandlesOn(Rep(), from)) > 0 && from !in old(View(Rep())).files)
      ensures moved ==> names.Keys <= old(names.Keys) && open == old(open)
      ensures moved ==> from in old(View(Rep())).files && View(Rep()) == PO.Rename(old(View(Rep())), from, to, mtime)
      ensures moved ==> (Valid() <==> old(HandlesOn(Rep(), to)) == 0)
      ensures moved ==> forall p :: HandlesOn(Rep(), p) == if p == to then old(HandlesOn(Rep(), from))
                                      else if p == from then 0 else old(HandlesOn(Rep(), p))
    {
      hide Consistent, Stored, Sum, Sorted, View, Sizes, HandlesOn;
      ghost var m := Rep();
      Unwritten(m, from);
      var id := byName[from];
      if id !in byId {
        return false;
      }
      NameOf(m, from);
      NameOf(m, to);
      OpenTarget(m, to);
      RenamedExact(m, from, to, mtime);
      RenamedView(m, from, to, mtime);
      if to in byName {
        Reap(byName[to]);
      }
      ghost var v := Rep();
      assert v == if to in m.byName then Dropped(m, m.byName[to]) else m;
      tombs := (tombs - {to}) + {from};
      byName := (byName - {from, to})[to := id];
      names := names[id := Some(to)];
      CensusPut(v, id, byId[id].(mtime := mtime));
      byId := byId[id := byId[id].(mtime := mtime)];
      assert Rep() == Renamed(m, from, to, mtime);
      SameSizes(v.(byId := byId), Rep());
      forall p
        ensures HandlesOn(Rep(), p) == if p == to then HandlesOn(m, from)
                  else if p == from then 0 else HandlesOn(m, p)
      {
        RenamedHandles(m, from, to, mtime, p);
      }
      moved := true;
    }

    /** The store's rename of a file that is not live: the committed file is brought in and moved, even when its
        name is tombstoned. The tombstone goes first here; the rename puts it back. */
    method MoveCommitted(from: Path, to: Path, mtime: nat, next: FileId) returns (next': FileId)
      requires Valid() && Below(Rep(), next) && from != to && from !in byName
      modifies this
      ensures Below(Rep(), next') && open == old(open) && (Valid() <==> old(HandlesOn(Rep(), to)) == 0)
      ensures View(Rep()) == PO.Rename(PO.OpenForRename(old(View(Rep())), from), from, to, mtime)
      ensures forall p :: HandlesOn(Rep(), p) == if p == to || p == from then 0 else old(HandlesOn(Rep(), p))
    {
      hide Consistent, Stored, Sum, Sorted, Below, Sizes, View, HandlesOn;
      ghost var m := Rep();
      WithoutTomb(m, from, to, mtime, next);
      SameSizes(m, m.(tombs := m.tombs - {from}));
      tombs := tombs - {from};
      SameHandles(m, Rep());
      NoHandles(m, from);
      next' := OpenForRename(from, next);
      ghost var o := Rep();
      Unwritten(o, from);
      var moved := Rename(from, to, mtime);
      BelowFewer(o, Rep(), next');
    }

    /** What the overlay says of a path: an open name never written says nothing. */
    method State(path: Path) returns (s: PO.FileState)
      requires Valid()
      ensures s == PO.State(View(Rep()), path)
    {
      hide Consistent, Sum;
      if path in tombs {
        s := PO.Unlinked;
      } else if path in byName && byName[path] in byId {
        s := PO.Dirty(byId[byName[path]]);
      } else {
        s := PO.Clean;
      }
    }

    /** Dirty files directly inside a directory. */
    method FilesIn(dir: Path) returns (ps: set<Path>)
      requires Valid()
      ensures ps == set p | p in View(Rep()).files && |p| == |dir| + 1 && p[..|dir|] == dir
    {
      ps := set p | p in byName && |p| == |dir| + 1 && p[..|dir|] == dir && byName[p] in byId;
    }

    /** After a flush only the open handles remain, bound as they were. */
    method CarryOpen() returns (c: IdOverlay?)
      requires Valid()
      ensures c == null <==> open == map[]
      ensures c != null ==> fresh(c) && c.Valid() && c.bytes == 0 && View(c.Rep()) == PO.EMPTY && c.open == open
      ensures c != null ==> forall id :: id in open ==> id in names && id in c.names && c.names[id] == names[id]
      ensures open.Keys <= names.Keys && (c != null ==> c.Rep() == Carried(Rep()))
    {
      hide Consistent, Stored, Sum, Sorted, View, NameOk, IdOk, Sizes, Carried;
      CarriedConsistent(Rep());
      if open == map[] {
        return null;
      }
      CarriedNames(Rep());
      c := new IdOverlay();
      c.byName, c.names, c.open := CarryMaps(Maps(byId, byName, names, tombs, open));
      assert c.Rep() == Carried(Rep());
      NoneSorted(c.Rep());
    }
  }

  lemma {:induction false} CarriedNames(m: Maps)
    requires m.open.Keys <= m.names.Keys
    ensures Carried(m).open == m.open && Carried(m).byId == map[] && Carried(m).tombs == {}
    ensures forall id :: id in m.open ==> id in Carried(m).names && Carried(m).names[id] == m.names[id]
  {
  }

  lemma {:induction false} NoneSorted(m: Maps)
    requires m.byId == map[]
    ensures AllSorted(m)
  {
  }

  /** The bindings of the handles in `ids`. */
  function CarriedPart(m: Maps, ids: set<FileId>): Maps
    requires ids <= m.open.Keys <= m.names.Keys
  {
    Maps(map[], map p | p in m.byName && m.byName[p] in ids :: m.byName[p], map id | id in ids :: m.names[id], {},
         map id | id in ids :: m.open[id])
  }

  lemma {:induction false} CarriedMore(m: Maps, ids: set<FileId>, id: FileId)
    requires Consistent(m) && ids <= m.open.Keys <= m.names.Keys && id in m.open && id !in ids
    ensures var c, d := CarriedPart(m, ids), CarriedPart(m, ids + {id});
            && d.names == c.names[id := m.names[id]] && d.open == c.open[id := m.open[id]]
            && d.byName == if m.names[id].Some? then c.byName[m.names[id].value := id] else c.byName
  {
    hide Consistent;
    CarryOne(m, id);
  }

  /** Walk the open handles and carry each one's count and name. */
  method CarryMaps(m: Maps)
    returns (byName: map<Path, FileId>, names: map<FileId, Option<Path>>, open: map<FileId, nat>)
    requires Consistent(m) && m.open.Keys <= m.names.Keys
    ensures Carried(m) == Maps(map[], byName, names, {}, open)
  {
    hide Consistent, CarriedPart;
    byName, names, open := map[], map[], map[];
    var todo := m.open.Keys;
    ghost var ids: set<FileId> := {};
    CarriedEnds(m);
    while todo != {}
      invariant todo <= m.open.Keys && ids == m.open.Keys - todo
      invariant CarriedPart(m, ids) == Maps(map[], byName, names, {}, open)
      decreases todo
    {
      var id :| id in todo;
      CarriedMore(m, ids, id);
      CarriedFlat(m, ids + {id});
      if m.names[id].Some? {
        byName := byName[m.names[id].value := id];
      }
      names, open := names[id := m.names[id]], open[id := m.open[id]];
      todo, ids := todo - {id}, ids + {id};
    }
    assert ids == m.open.Keys;
  }

  lemma {:induction false} CarriedFlat(m: Maps, ids: set<FileId>)
    requires ids <= m.open.Keys <= m.names.Keys
    ensures CarriedPart(m, ids).byId == map[] && CarriedPart(m, ids).tombs == {}
  {
  }

  lemma {:induction false} CarriedEnds(m: Maps)
    requires m.open.Keys <= m.names.Keys
    ensures CarriedPart(m, {}) == Maps(map[], map[], map[], {}, map[])
    ensures CarriedPart(m, m.open.Keys) == Carried(m)
  {
    var c, d := CarriedPart(m, m.open.Keys), Carried(m);
    assert c.open == d.open;
    assert c.byName == d.byName;
    assert c.names == d.names;
  }

  function SatSub(a: nat, b: nat): nat {
    if b > a then 0 else a - b
  }

  function Clamp(x: int): nat {
    if x < 0 then 0 else x
  }

  lemma {:induction false} NoByte(off: nat)
    ensures ByteIn([], off).None?
  {
  }

  lemma {:induction false} DirtyLive(m: Maps, path: Path)
    requires Consistent(m)
    ensures path in m.byName && m.byName[path] in m.byId ==> path !in m.tombs
  {
    NameOf(m, path);
  }

  lemma {:induction false} SortedNone()
    ensures Sorted([]) && Stored([]) == 0
  {
  }

  lemma {:induction false} BelowHere(m: Maps, o: Maps, next: FileId, next': FileId)
    requires Below(m, next) && o.names.Keys <= (if next' == next then m.names.Keys else m.names.Keys + {next}) &&
             next <= next'
    ensures Below(o, next')
  {
  }

  lemma {:induction false} FewerHandles(m: Maps, id: FileId)
    requires Consistent(m) && id in m.open && m.open[id] > 1
    ensures var m' := m.(open := m.open[id := m.open[id] - 1]); Consistent(m') && View(m') == View(m)
  {
    var m' := m.(open := m.open[id := m.open[id] - 1]);
    forall p | p in m'.byName ensures NameOk(m', p) {
      NameOf(m, p);
    }
    forall i | i in m'.names ensures IdOk(m', i) {
      IdOf(m, i);
    }
  }

  lemma {:induction false} OrphanHidden(m: Maps, id: FileId, fo: PO.FileOverlay)
    requires Consistent(m) && id in m.names && m.names[id].None?
    ensures var m' := m.(byId := m.byId[id := fo]); Consistent(m') && View(m') == View(m)
  {
    hide Consistent, View;
    var m' := m.(byId := m.byId[id := fo]);
    IdOf(m, id);
    forall p | p in m'.byName ensures NameOk(m', p) {
      NameOf(m, p);
    }
    forall i | i in m'.names ensures IdOk(m', i) {
      IdOf(m, i);
    }
    forall i ensures (i in m'.byId || i in m'.open ==> i in m'.names) && (i in m'.open ==> m'.open[i] > 0) {
      IdOf(m, i);
    }
    IsConsistent(m');
    TombsView(m);
    forall p ensures FileAt(m', p) == PO.Get(View(m), p) {
      NameOf(m, p);
      ViewGet(m, p);
    }
    ViewIs(m', View(m));
  }

  lemma {:induction false} CarryOne(m: Maps, id: FileId)
    requires Consistent(m) && id in m.open
    ensures id in m.names
    ensures m.names[id].Some? ==> m.names[id].value in m.byName && m.byName[m.names[id].value] == id
    ensures forall p :: p in m.byName && m.byName[p] == id ==> m.names[id] == Some(p)
  {
    hide Consistent;
    IdOf(m, id);
    forall p | p in m.byName && m.byName[p] == id
      ensures m.names[id] == Some(p)
    {
      NameOf(m, p);
    }
  }

  // ── Whole runs ──

  /** An operation on a ref's files, on its open handles by name, or on some handle whose name is gone. */
  datatype Edit =
    | WriteEdit(path: Path, off: nat, data: Bytes, mtime: nat)
    | UnlinkEdit(path: Path)
    | RenameEdit(from: Path, to: Path, mtime: nat)
    | OpenEdit(path: Path)
    | CloseEdit(path: Path)
    | OrphanEdit(off: nat, data: Bytes, mtime: nat)
    | OrphanCloseEdit
    | FlushEdit

  /** The path-keyed meaning: the committed tree, the overlay, and the open handles of each name. */
  datatype Desk = Desk(tree: PO.Tree, o: PO.Overlay, held: Path -> nat)

  function With(held: Path -> nat, p: Path, n: nat): Path -> nat {
    (q: Path) => if q == p then n else held(q)
  }

  /** A live file is moved, a committed one is brought in first; handles move with the file. */
  function ApplyRename(d: Desk, from: Path, to: Path, mt: nat): Desk {
    var held := With(With(d.held, to, d.held(from)), from, 0);
    if from == to then d
    else if from in d.o.files then d.(o := PO.Rename(d.o, from, to, mt), held := held)
    else if d.tree(from).Some? then d.(o := PO.Rename(PO.OpenForRename(d.o, from), from, to, mt), held := held)
    else d
  }

  function ApplyEdit(d: Desk, e: Edit): Desk {
    match e
    case WriteEdit(p, off, data, mt) => d.(o := PO.Write(d.o, p, off, data, mt))
    case UnlinkEdit(p) => d.(o := PO.Unlink(d.o, p), held := With(d.held, p, 0))
    case RenameEdit(from, to, mt) => ApplyRename(d, from, to, mt)
    case OpenEdit(p) => d.(held := With(d.held, p, d.held(p) + 1))
    case CloseEdit(p) => d.(held := With(d.held, p, if d.held(p) > 0 then d.held(p) - 1 else 0))
    case OrphanEdit(_, _, _) => d
    case OrphanCloseEdit => d
    case FlushEdit => Desk((q: Path) => PO.View(d.tree, d.o, q), PO.EMPTY, d.held)
  }

  function RunEdits(tree: PO.Tree, es: seq<Edit>): Desk {
    if es == [] then Desk(tree, PO.EMPTY, (q: Path) => 0)
    else ApplyEdit(RunEdits(tree, es[..|es| - 1]), es[|es| - 1])
  }

  /** Writes are not empty; a renamed name has no handle without a pending write, and its target no handle. */
  predicate Proceeds(d: Desk, e: Edit) {
    match e
    case WriteEdit(_, _, data, _) => data != []
    case OrphanEdit(_, data, _) => data != []
    case RenameEdit(from, to, _) => from == to || (d.held(to) == 0 && (from in d.o.files || d.held(from) == 0))
    case _ => true
  }

  predicate AllProceed(tree: PO.Tree, es: seq<Edit>) {
    forall i :: 0 <= i < |es| ==> Proceeds(RunEdits(tree, es[..i]), es[i])
  }

  ghost predicate Agrees(m: Maps, d: Desk) {
    View(m) == d.o && forall p :: HandlesOn(m, p) == d.held(p)
  }

  method RenameIds(v: IdOverlay, next: FileId, ghost d: Desk, inTree: bool, from: Path, to: Path, mt: nat)
    returns (next': FileId)
    requires v.Valid() && Below(v.Rep(), next) && Agrees(v.Rep(), d) && Proceeds(d, RenameEdit(from, to, mt))
    requires inTree == d.tree(from).Some?
    modifies v
    ensures v.Valid() && Below(v.Rep(), next') && Agrees(v.Rep(), ApplyRename(d, from, to, mt))
  {
    hide Consistent, Stored, Sum, Sorted, View, Sizes, PO.Rename, PO.OpenForRename, Below, HandlesOn;
    ghost var m := v.Rep();
    next' := next;
    if from == to {
      return;
    }
    Unwritten(m, from);
    BoundView(m, from);
    if from in v.byName {
      var moved := v.Rename(from, to, mt);
      BelowStill(m, v.Rep(), next);
    } else {
      NoHandles(m, from);
      if inTree {
        next' := v.MoveCommitted(from, to, mt, next);
      }
    }
  }

  lemma {:induction false} BoundView(m: Maps, p: Path)
    ensures p in View(m).files ==> p in m.byName
  {
  }

  /** Some handle whose name is gone. */
  method FindOrphan(v: IdOverlay) returns (id: Option<FileId>)
    ensures id.Some? ==> id.value in v.names && v.names[id.value].None?
    ensures id.None? ==> forall i :: i in v.names ==> v.names[i].Some?
  {
    var orphans := set i | i in v.names && v.names[i].None?;
    assert forall i :: i in v.names && v.names[i].None? ==> i in orphans;
    if orphans == {} {
      return None;
    }
    var i :| i in orphans;
    return Some(i);
  }

  method HandleIds(v: IdOverlay, next: FileId, ghost d: Desk, e: Edit) returns (next': FileId)
    requires v.Valid() && Below(v.Rep(), next) && Agrees(v.Rep(), d) && Proceeds(d, e)
    requires e.OpenEdit? || e.CloseEdit? || e.OrphanEdit? || e.OrphanCloseEdit?
    modifies v
    ensures v.Valid() && Below(v.Rep(), next') && Agrees(v.Rep(), ApplyEdit(d, e))
  {
    hide Consistent, Stored, Sum, Sorted, View, Sizes, Below, HandlesOn, ByteIn, Released;
    ghost var m := v.Rep();
    next' := next;
    if e.OpenEdit? {
      var id;
      id, next' := v.Open(e.path, next);
    } else if e.CloseEdit? {
      if e.path in v.byName {
        NameOf(m, e.path);
        OpenTarget(m, e.path);
        var id := v.byName[e.path];
        var last := v.Close(id);
        forall p
          ensures HandlesOn(v.Rep(), p) == ApplyEdit(d, e).held(p)
        {
          NameOf(m, p);
          ReleasedHandles(m, id, p);
        }
        BelowStill(m, v.Rep(), next);
      } else {
        NoHandles(m, e.path);
      }
    } else {
      var orphan := FindOrphan(v);
      if orphan.Some? && e.OrphanEdit? {
        v.WriteOrphan(orphan.value, e.off, e.data, e.mtime);
        BelowStill(m, v.Rep(), next);
      } else if orphan.Some? {
        var last := v.Close(orphan.value);
        forall p
          ensures HandlesOn(v.Rep(), p) == d.held(p)
        {
          NameOf(m, p);
          ReleasedHandles(m, orphan.value, p);
        }
        BelowStill(m, v.Rep(), next);
      }
    }
  }

  /** A flush keeps the open handles and nothing else. */
  method FlushIds(v: IdOverlay, next: FileId, ghost d: Desk) returns (v': IdOverlay)
    requires v.Valid() && Below(v.Rep(), next) && Agrees(v.Rep(), d)
    ensures fresh(v') && v'.Valid() && Below(v'.Rep(), next) && Agrees(v'.Rep(), ApplyEdit(d, FlushEdit))
  {
    hide Consistent, Stored, Sum, Sorted, View, Sizes, HandlesOn;
    ghost var m := v.Rep();
    forall p
      ensures m.open.Keys <= m.names.Keys && HandlesOn(Carried(m), p) == d.held(p)
    {
      CarriedHandles(m, p);
    }
    var c := v.CarryOpen();
    if c == null {
      v' := new IdOverlay();
      EmptyMaps();
      forall p
        ensures HandlesOn(v'.Rep(), p) == d.held(p)
      {
        NoneOpen(m, v'.Rep(), p);
      }
    } else {
      v' := c;
      BelowStill(m, v'.Rep(), next);
    }
  }

  lemma {:induction false} NoneOpen(m: Maps, e: Maps, p: Path)
    requires m.open == map[] && e.byName == map[]
    ensures HandlesOn(m, p) == 0 && HandlesOn(e, p) == 0
  {
  }

  /** Over every run of writes, unlinks, renames, opens, closes, writes through nameless handles and flushes the two
      overlays show the same, names have the same handles, and the byte count is the path-keyed one when no handle
      is open. */
  method RunIds(tree: PO.Tree, es: seq<Edit>, inTree: seq<bool>) returns (v: IdOverlay)
    requires AllProceed(tree, es) && |inTree| == |es|
    requires forall i :: 0 <= i < |es| && es[i].RenameEdit? ==>
               inTree[i] == RunEdits(tree, es[..i]).tree(es[i].from).Some?
    ensures fresh(v) && v.Valid() && Agrees(v.Rep(), RunEdits(tree, es))
    ensures v.open == map[] ==> v.bytes == Scheduler.OverlayBytes(RunEdits(tree, es).o)
  {
    hide Consistent, Stored, Sum, Sorted, Sizes, PO.Write, PO.Unlink, Below, Scheduler.OverlayBytes, Agrees, HandlesOn,
      ApplyRename, View;
    v := new IdOverlay();
    var next: FileId := 0;
    EmptyMaps();
    assert es[..0] == [];
    NothingHeld(v.Rep(), tree);
    for i := 0 to |es|
      invariant fresh(v) && v.Valid() && Below(v.Rep(), next) && Agrees(v.Rep(), RunEdits(tree, es[..i]))
    {
      ghost var d := RunEdits(tree, es[..i]);
      assert es[..i + 1][..i] == es[..i] && Proceeds(d, es[i]);
      match es[i] {
        case WriteEdit(p, off, data, mt) =>
          next := WriteIds(v, next, d, p, off, data, mt);
        case UnlinkEdit(p) =>
          UnlinkIds(v, next, d, p);
        case RenameEdit(from, to, mt) =>
          next := RenameIds(v, next, d, inTree[i], from, to, mt);
        case FlushEdit =>
          v := FlushIds(v, next, d);
        case _ =>
          next := HandleIds(v, next, d, es[i]);
      }
    }
    assert es[..|es|] == es;
    if v.open == map[] {
      BytesAgree(v.Rep());
      AgreesView(v.Rep(), RunEdits(tree, es));
    }
  }

  lemma {:induction false} AgreesView(m: Maps, d: Desk)
    requires Agrees(m, d)
    ensures View(m) == d.o
  {
  }

  method WriteIds(v: IdOverlay, next: FileId, ghost d: Desk, p: Path, off: nat, data: Bytes, mt: nat)
    returns (next': FileId)
    requires v.Valid() && Below(v.Rep(), next) && Agrees(v.Rep(), d) && data != []
    modifies v
    ensures v.Valid() && Below(v.Rep(), next') && Agrees(v.Rep(), ApplyEdit(d, WriteEdit(p, off, data, mt)))
  {
    hide Consistent, Stored, Sum, Sorted, View, Sizes, Below, HandlesOn, PO.Write;
    next' := v.Write(p, off, data, mt, next);
  }

  method UnlinkIds(v: IdOverlay, next: FileId, ghost d: Desk, p: Path)
    requires v.Valid() && Below(v.Rep(), next) && Agrees(v.Rep(), d)
    modifies v
    ensures v.Valid() && Below(v.Rep(), next) && Agrees(v.Rep(), ApplyEdit(d, UnlinkEdit(p)))
  {
    hide Consistent, Stored, Sum, Sorted, View, Sizes, HandlesOn, PO.Unlink;
    ghost var m := v.Rep();
    v.Unlink(p);
    BelowStill(m, v.Rep(), next);
  }

  lemma {:induction false} NothingHeld(m: Maps, tree: PO.Tree)
    requires m == Maps(map[], map[], map[], {}, map[])
    ensures Agrees(m, RunEdits(tree, []))
  {
    EmptyMaps();
  }

  lemma {:induction false} EmptyMaps()
    ensures View(Maps(map[], map[], map[], {}, map[])) == PO.EMPTY && Below(Maps(map[], map[], map[], {}, map[]), 0)
  {
  }

  lemma {:induction false} BelowStill(m: Maps, m': Maps, next: FileId)
    requires Below(m, next) && m'.names.Keys <= m.names.Keys
    ensures Below(m', next)
  {
  }
}
