/** The collector's part outside the mark walk: marking from every root, and the sweep that turns dead
    rows of the index into deferred free extents. */
module Sweep {
  import opened Cells
  import opened Extents
  import opened ChunkIndex
  import opened RefTables
  import opened Durable
  import opened ChunkSpace
  import opened FileChunks
  import opened Entries
  import opened Gc

  /** Everything some root reaches, and the table itself. */
  function LiveSet(roots: seq<Hash>, table: Hash): set<Hash> {
    if roots == [] then {table} else LiveSet(roots[..|roots| - 1], table) + Reach(roots[|roots| - 1])
  }

  lemma {:induction false} InLiveSet(roots: seq<Hash>, table: Hash, i: nat)
    requires i < |roots|
    ensures Reach(roots[i]) <= LiveSet(roots, table)
  {
    hide Reach;
    if i < |roots| - 1 {
      InLiveSet(roots[..|roots| - 1], table, i);
    }
  }

  /** A ref table is neither a node nor a chunk list. */
  lemma {:induction false} TableAlone(t: RefTable)
    ensures LiveClosed({Of(EncodeTable(t))})
  {
    hide RefTables.RefCells, SnapCells, TagCells, Le;
    var c := EncodeTable(t);
    assert c[0] == Raw(0x52) && c[1] == Raw(0x45) && c[2] == Raw(0x46);
    var b := Low(c[1..5]);
    assert b[0] == 0x45 && b[1] == 0x46;
    assert UnLe(b) == b[0] + 256 * UnLe(b[1..]);
    assert UnLe(b[1..]) == b[1] + 256 * UnLe(b[1..][1..]);
    assert DecodeNode(c).None?;
    assert DecodeList(c).None?;
  }

  /** Mark from every root. With sane trees whose objects are all there it cannot fail. */
  method MarkAll(store: set<Hash>, roots: seq<Hash>, ghost t: RefTable, table: Hash) returns (ok: bool, live: set<Hash>)
    requires table == Of(EncodeTable(t))
    requires forall i :: 0 <= i < |roots| ==> RootIn(roots[i], store)
    ensures ok && live == LiveSet(roots, table)
  {
    hide LiveClosed, Reach, Sane, EncodeTable, ClosedFor, Harmless, AllReadable;
    live := {table};
    TableAlone(t);
    for i := 0 to |roots|
      invariant live == LiveSet(roots[..i], table) && LiveClosed(live)
    {
      assert RootIn(roots[i], store);
      SaneMark(live, roots[i], store);
      ReachLiveClosed(live, roots[i]);
      ok, live := Mark(store, roots[i], live);
      assert roots[..i + 1][..i] == roots[..i];
    }
    assert roots[..|roots|] == roots;
    ok := true;
  }

  // ── The sweep ──

  function LiveRows(rows: seq<IndexRow>, live: set<Hash>): seq<IndexRow> {
    if rows == [] then [] else
      (if rows[0].hash in live then [rows[0]] else []) + LiveRows(rows[1..], live)
  }

  lemma {:induction false} KeptRows(rows: seq<IndexRow>, live: set<Hash>, r: IndexRow)
    ensures r in LiveRows(rows, live) <==> r in rows && r.hash in live
  {
    if rows != [] {
      KeptRows(rows[1..], live, r);
      assert rows == [rows[0]] + rows[1..];
    }
  }

  /** The frame of every dead row is among `es`. */
  ghost predicate DeadIn(rows: seq<IndexRow>, live: set<Hash>, es: seq<Extent>)
    requires RowsOk(rows)
  {
    forall i :: 0 <= i < |rows| && rows[i].hash !in live ==> FrameOf(rows[i]) in es
  }

  /** The first `i` rows are dealt with. */
  ghost predicate Swept(rows: seq<IndexRow>, live: set<Hash>, i: nat, kept: seq<IndexRow>, dead: seq<Extent>) {
    && i <= |rows| && RowsOk(rows) && RowsOk(kept) && kept + LiveRows(rows[i..], live) == LiveRows(rows, live)
    && (forall k :: 0 <= k < |dead| ==> dead[k].len > 0)
    && (forall p :: Count(Frames(kept), p) + Count(dead, p) == Count(Frames(rows[..i]), p))
    && (forall k :: 0 <= k < i && rows[k].hash !in live ==> FrameOf(rows[k]) in dead)
  }

  /** Split the index into rows kept, in order, and the extents of the others. */
  method SweepRows(rows: seq<IndexRow>, live: set<Hash>, epoch: nat) returns (kept: seq<IndexRow>, dead: seq<Extent>)
    requires RowsOk(rows) && forall i :: 0 <= i < |rows| ==> rows[i].birth < epoch
    ensures kept == LiveRows(rows, live) && RowsOk(kept)
    ensures forall i :: 0 <= i < |dead| ==> dead[i].len > 0
    ensures forall p :: Count(Frames(kept), p) + Count(dead, p) == Count(Frames(rows), p)
    ensures DeadIn(rows, live, dead)
  {
    hide Count, Swept, LiveRows, DeadIn;
    kept, dead := [], [];
    SweptNone(rows, live);
    for i := 0 to |rows|
      invariant Swept(rows, live, i, kept, dead)
    {
      var r := rows[i];
      SweptOne(rows, live, i, kept, dead);
      if r.hash !in live && r.birth < epoch {
        dead := dead + [FrameOf(r)];
      } else {
        kept := kept + [r];
      }
    }
    SweptAll(rows, live, kept, dead);
  }

  lemma {:induction false} SweptNone(rows: seq<IndexRow>, live: set<Hash>)
    requires RowsOk(rows)
    ensures Swept(rows, live, 0, [], [])
  {
    hide Count, LiveRows;
    NoFrames();
    assert rows[0..] == rows && rows[..0] == [];
  }

  lemma {:induction false} SweptAll(rows: seq<IndexRow>, live: set<Hash>, kept: seq<IndexRow>, dead: seq<Extent>)
    requires Swept(rows, live, |rows|, kept, dead)
    ensures kept == LiveRows(rows, live) && RowsOk(kept) && forall i :: 0 <= i < |dead| ==> dead[i].len > 0
    ensures forall p :: Count(Frames(kept), p) + Count(dead, p) == Count(Frames(rows), p)
    ensures DeadIn(rows, live, dead)
  {
    hide Count;
    assert rows[..|rows|] == rows && rows[|rows|..] == [];
  }

  lemma {:induction false} SweptOne(rows: seq<IndexRow>, live: set<Hash>, i: nat, kept: seq<IndexRow>,
                                    dead: seq<Extent>)
    requires i < |rows| && Swept(rows, live, i, kept, dead)
    ensures rows[i].hash in live ==> Swept(rows, live, i + 1, kept + [rows[i]], dead)
    ensures rows[i].hash !in live ==> Swept(rows, live, i + 1, kept, dead + [FrameOf(rows[i])])
  {
    hide Count;
    SweepCount(rows, i, kept, dead);
    assert rows[i..][1..] == rows[i + 1..];
    var rest := LiveRows(rows[i + 1..], live);
    assert kept + ([rows[i]] + rest) == kept + [rows[i]] + rest;
    assert [] + rest == rest;
  }

  lemma {:induction false} NoFrames()
    ensures forall p :: Count(Frames([]), p) == 0 && Count([], p) == 0
  {
    assert Frames([]) == [];
  }

  lemma {:induction false} SweepCount(rows: seq<IndexRow>, i: nat, kept: seq<IndexRow>, dead: seq<Extent>)
    requires RowsOk(rows) && RowsOk(kept) && i < |rows|
    ensures RowsOk(kept + [rows[i]])
    ensures forall p :: Count(Frames(rows[..i + 1]), p) == Count(Frames(rows[..i]), p) + Once(FrameOf(rows[i]), p)
    ensures forall p :: Count(Frames(kept + [rows[i]]), p) == Count(Frames(kept), p) + Once(FrameOf(rows[i]), p)
    ensures forall p :: Count(dead + [FrameOf(rows[i])], p) == Count(dead, p) + Once(FrameOf(rows[i]), p)
  {
    hide Count;
    assert rows[..i + 1] == rows[..i] + [rows[i]];
    forall p
      ensures Count(Frames(rows[..i + 1]), p) == Count(Frames(rows[..i]), p) + Once(FrameOf(rows[i]), p)
      ensures Count(Frames(kept + [rows[i]]), p) == Count(Frames(kept), p) + Once(FrameOf(rows[i]), p)
      ensures Count(dead + [FrameOf(rows[i])], p) == Count(dead, p) + Once(FrameOf(rows[i]), p)
    {
      FramesPush(rows[..i], rows[i], p);
      FramesPush(kept, rows[i], p);
      CountConcat(dead, [FrameOf(rows[i])], p);
      CountOne(FrameOf(rows[i]), p);
    }
  }

  /** The sweep moves extents from indexed to deferred; it frees nothing yet. */
  lemma {:induction false} SweepSpace(c: Space, img: Image, devLen: nat, kept: seq<IndexRow>, dead: seq<Extent>)
    requires SpaceInv(c, img, devLen) && RowsOk(kept) && forall i :: 0 <= i < |dead| ==> dead[i].len > 0
    requires forall p :: Count(Frames(kept), p) + Count(dead, p) == Count(Frames(c.index), p)
    ensures SpaceInv(c.(index := kept, pending := c.pending + dead), img, devLen)
  {
    hide Count, Used, Ordered;
    var c' := c.(index := kept, pending := c.pending + dead);
    forall p
      ensures Taken(c', p) == Taken(c, p)
    {
      CountConcat(c.pending, dead, p);
    }
  }

  lemma {:induction false} KeptHashes(rows: seq<IndexRow>, live: set<Hash>)
    ensures Hashes(LiveRows(rows, live)) == Hashes(rows) * live
  {
    var kept := LiveRows(rows, live);
    forall h
      ensures h in Hashes(kept) <==> h in Hashes(rows) * live
    {
      if h in Hashes(kept) {
        var i :| 0 <= i < |kept| && kept[i].hash == h;
        KeptRows(rows, live, kept[i]);
        var k :| 0 <= k < |rows| && rows[k] == kept[i];
      }
      if h in Hashes(rows) && h in live {
        var k :| 0 <= k < |rows| && rows[k].hash == h;
        KeptRows(rows, live, rows[k]);
        var i :| 0 <= i < |kept| && kept[i] == rows[k];
      }
    }
  }
}
