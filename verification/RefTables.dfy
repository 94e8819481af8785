/** The ref table every commit writes: refs, snapshots and tags, its format, and when it reads back. */
module RefTables {
  import opened Cells
  import opened ChunkIndex

  const REFT_MAGIC: Bytes := [0x52, 0x45, 0x46, 0x54]

  /** `generation` and `version` count revocations and edits; `nextSnap` is the id of the next snapshot. */
  datatype RefMeta = RefMeta(generation: nat, nextSnap: nat, version: nat)
  datatype RefRow = RefRow(name: Bytes, root: Hash, meta: RefMeta)

  /** When and by whom a snapshot was taken, the snapshot before it, and its retention class. */
  datatype SnapInfo = SnapInfo(time: nat, provenance: Bytes, parent: Option<nat>, message: Bytes, retention: nat)
  datatype SnapRow = SnapRow(ref: Bytes, id: nat, root: Hash, info: SnapInfo)

  datatype TagRow = TagRow(name: Bytes, ref: Bytes, id: nat)
  datatype RefTable = RefTable(refs: seq<RefRow>, snaps: seq<SnapRow>, tags: seq<TagRow>)

  // ── The format ──

  function NameCells(n: Bytes): (c: seq<Cell>)
    ensures |c| == 1 + |n|
  {
    Lift([|n| % 256] + n)
  }

  function Num(n: nat, k: nat): (c: seq<Cell>)
    ensures |c| == k
  {
    Lift(Le(n, k))
  }

  function RefRowCells(r: RefRow): seq<Cell> {
    NameCells(r.name) + (HashCells(r.root) +
      (Num(r.meta.generation, 8) + (Num(r.meta.nextSnap, 8) + Num(r.meta.version, 8))))
  }

  /** No parent is written as the greatest number. */
  function ParentNum(parent: Option<nat>): nat {
    if parent.Some? then parent.value else U64 - 1
  }

  function InfoCells(i: SnapInfo): seq<Cell> {
    Num(i.time, 8) + (NameCells(i.provenance) + (Num(ParentNum(i.parent), 8) +
      (Num(|i.message|, 2) + (Lift(i.message) + Num(i.retention, 1)))))
  }

  function SnapRowCells(s: SnapRow): seq<Cell> {
    NameCells(s.ref) + (Num(s.id, 8) + (HashCells(s.root) + InfoCells(s.info)))
  }

  function TagRowCells(t: TagRow): seq<Cell> {
    NameCells(t.name) + (NameCells(t.ref) + Num(t.id, 8))
  }

  function RefCells(rows: seq<RefRow>): seq<Cell> {
    if rows == [] then [] else RefRowCells(rows[0]) + RefCells(rows[1..])
  }

  function SnapCells(rows: seq<SnapRow>): seq<Cell> {
    if rows == [] then [] else SnapRowCells(rows[0]) + SnapCells(rows[1..])
  }

  function TagCells(rows: seq<TagRow>): seq<Cell> {
    if rows == [] then [] else TagRowCells(rows[0]) + TagCells(rows[1..])
  }

  function EncodeTable(t: RefTable): seq<Cell> {
    Lift(REFT_MAGIC) + (Num(|t.refs|, 4) + (RefCells(t.refs) + (Num(|t.snaps|, 4) + (SnapCells(t.snaps) +
      (Num(|t.tags|, 4) + TagCells(t.tags))))))
  }

  function TakeNameC(c: seq<Cell>): Option<(Bytes, seq<Cell>)> {
    if |c| < 1 then None else
    var n: nat := Low(c[..1])[0];
    if |c| < 1 + n then None else Some((Low(c[1..1 + n]), c[1 + n..]))
  }

  function TakeHashC(c: seq<Cell>): Option<(Hash, seq<Cell>)> {
    if |c| < 32 then None else
    var h :- ReadHash(c[..32]);
    Some((h, c[32..]))
  }

  function TakeNum(c: seq<Cell>, k: nat): Option<(nat, seq<Cell>)> {
    if |c| < k then None else Some((UnLe(Low(c[..k])), c[k..]))
  }

  function TakeRef(c: seq<Cell>): Option<(RefRow, seq<Cell>)> {
    var (name, c1) :- TakeNameC(c);
    var (root, c2) :- TakeHashC(c1);
    var (generation, c3) :- TakeNum(c2, 8);
    var (nextSnap, c4) :- TakeNum(c3, 8);
    var (version, rest) :- TakeNum(c4, 8);
    Some((RefRow(name, root, RefMeta(generation, nextSnap, version)), rest))
  }

  function TakeInfo(c: seq<Cell>): Option<(SnapInfo, seq<Cell>)> {
    var (time, c1) :- TakeNum(c, 8);
    var (provenance, c2) :- TakeNameC(c1);
    var (parent, c3) :- TakeNum(c2, 8);
    var (len, c4) :- TakeNum(c3, 2);
    if |c4| < len then None else
    var (retention, rest) :- TakeNum(c4[len..], 1);
    if retention > 2 then None
    else
      var before := if parent == U64 - 1 then None else Some(parent);
      Some((SnapInfo(time, provenance, before, Low(c4[..len]), retention), rest))
  }

  function TakeSnap(c: seq<Cell>): Option<(SnapRow, seq<Cell>)> {
    var (name, c1) :- TakeNameC(c);
    var (id, c2) :- TakeNum(c1, 8);
    var (root, c3) :- TakeHashC(c2);
    var (info, rest) :- TakeInfo(c3);
    Some((SnapRow(name, id, root, info), rest))
  }

  function TakeTag(c: seq<Cell>): Option<(TagRow, seq<Cell>)> {
    var (name, c1) :- TakeNameC(c);
    var (ref, c2) :- TakeNameC(c1);
    var (id, rest) :- TakeNum(c2, 8);
    Some((TagRow(name, ref, id), rest))
  }

  function TakeRefs(c: seq<Cell>, n: nat): Option<(seq<RefRow>, seq<Cell>)>
    decreases n
  {
    if n == 0 then Some(([], c)) else
    var (row, c1) :- TakeRef(c);
    var (rows, rest) :- TakeRefs(c1, n - 1);
    Some(([row] + rows, rest))
  }

  function TakeSnaps(c: seq<Cell>, n: nat): Option<(seq<SnapRow>, seq<Cell>)>
    decreases n
  {
    if n == 0 then Some(([], c)) else
    var (row, c1) :- TakeSnap(c);
    var (rows, rest) :- TakeSnaps(c1, n - 1);
    Some(([row] + rows, rest))
  }

  function TakeTags(c: seq<Cell>, n: nat): Option<(seq<TagRow>, seq<Cell>)>
    decreases n
  {
    if n == 0 then Some(([], c)) else
    var (row, c1) :- TakeTag(c);
    var (rows, rest) :- TakeTags(c1, n - 1);
    Some(([row] + rows, rest))
  }

  function DecodeTable(c: seq<Cell>): Option<RefTable> {
    if |c| < 4 || c[..4] != Lift(REFT_MAGIC) then None else
    var (nrefs, c1) :- TakeNum(c[4..], 4);
    var (refs, c2) :- TakeRefs(c1, nrefs);
    var (nsnaps, c3) :- TakeNum(c2, 4);
    var (snaps, c4) :- TakeSnaps(c3, nsnaps);
    var (ntags, c5) :- TakeNum(c4, 4);
    var (tags, c6) :- TakeTags(c5, ntags);
    if c6 == [] then Some(RefTable(refs, snaps, tags)) else None
  }

  // ── When a table reads back ──

  predicate RefForm(r: RefRow) {
    |r.name| < 256 && r.meta.generation < U64 && r.meta.nextSnap < U64 && r.meta.version < U64
  }

  predicate InfoForm(i: SnapInfo) {
    && i.time < U64 && |i.provenance| < 256 && (i.parent.Some? ==> i.parent.value < U64 - 1)
    && |i.message| < U16 && i.retention <= 2
  }

  predicate SnapForm(s: SnapRow) {
    |s.ref| < 256 && s.id < U64 && InfoForm(s.info)
  }

  predicate TagForm(t: TagRow) {
    |t.name| < 256 && |t.ref| < 256 && t.id < U64
  }

  /** Every length and number of the table fits the field it is written to. */
  predicate TableForm(t: RefTable) {
    && |t.refs| < U32 && |t.snaps| < U32 && |t.tags| < U32
    && (forall i {:trigger RefForm(t.refs[i])} :: 0 <= i < |t.refs| ==> RefForm(t.refs[i]))
    && (forall i {:trigger SnapForm(t.snaps[i])} :: 0 <= i < |t.snaps| ==> SnapForm(t.snaps[i]))
    && (forall i {:trigger TagForm(t.tags[i])} :: 0 <= i < |t.tags| ==> TagForm(t.tags[i]))
  }

  lemma {:induction false} NameFront(n: Bytes, rest: seq<Cell>)
    requires |n| < 256
    ensures TakeNameC(NameCells(n) + rest) == Some((n, rest))
  {
    var c := NameCells(n) + rest;
    assert c[..1] == Lift([|n|]) && c[1..1 + |n|] == Lift(n) && c[1 + |n|..] == rest;
    LowLift(n);
  }

  lemma {:induction false} HashFront(h: Hash, rest: seq<Cell>)
    ensures TakeHashC(HashCells(h) + rest) == Some((h, rest))
  {
    assert (HashCells(h) + rest)[..32] == HashCells(h);
    ReadHashCells(h);
  }

  lemma {:induction false} TakeNumFront(n: nat, k: nat, rest: seq<Cell>)
    requires n < Pow256(k)
    ensures TakeNum(Num(n, k) + rest, k) == Some((n, rest))
  {
    hide Le, UnLe, Pow256;
    NumFront(n, k, rest);
  }

  lemma {:induction false} RefFront(r: RefRow, rest: seq<Cell>)
    requires RefForm(r)
    ensures TakeRef(RefRowCells(r) + rest) == Some((r, rest))
  {
    hide TakeNameC, TakeHashC, TakeNum, NameCells, Num, HashCells;
    Powers();
    var c4 := Num(r.meta.version, 8) + rest;
    var c3 := Num(r.meta.nextSnap, 8) + c4;
    var c2 := Num(r.meta.generation, 8) + c3;
    var c1 := HashCells(r.root) + c2;
    assert RefRowCells(r) + rest == NameCells(r.name) + c1;
    NameFront(r.name, c1);
    HashFront(r.root, c2);
    TakeNumFront(r.meta.generation, 8, c3);
    TakeNumFront(r.meta.nextSnap, 8, c4);
    TakeNumFront(r.meta.version, 8, rest);
  }

  lemma {:induction false} InfoFront(i: SnapInfo, rest: seq<Cell>)
    requires InfoForm(i)
    ensures TakeInfo(InfoCells(i) + rest) == Some((i, rest))
  {
    hide TakeNameC, TakeNum, NameCells, Num;
    Powers();
    assert Pow256(1) == 256;
    var c5 := Num(i.retention, 1) + rest;
    var c4 := Lift(i.message) + c5;
    var c3 := Num(|i.message|, 2) + c4;
    var c2 := Num(ParentNum(i.parent), 8) + c3;
    var c1 := NameCells(i.provenance) + c2;
    assert InfoCells(i) + rest == Num(i.time, 8) + c1;
    TakeNumFront(i.time, 8, c1);
    NameFront(i.provenance, c2);
    TakeNumFront(ParentNum(i.parent), 8, c3);
    TakeNumFront(|i.message|, 2, c4);
    assert c4[..|i.message|] == Lift(i.message) && c4[|i.message|..] == c5;
    LowLift(i.message);
    TakeNumFront(i.retention, 1, rest);
  }

  lemma {:induction false} SnapFront(s: SnapRow, rest: seq<Cell>)
    requires SnapForm(s)
    ensures TakeSnap(SnapRowCells(s) + rest) == Some((s, rest))
  {
    hide TakeNameC, TakeHashC, TakeNum, TakeInfo, NameCells, Num, HashCells, InfoCells, InfoForm;
    Powers();
    var c3 := InfoCells(s.info) + rest;
    var c2 := HashCells(s.root) + c3;
    var c1 := Num(s.id, 8) + c2;
    assert SnapRowCells(s) + rest == NameCells(s.ref) + c1;
    NameFront(s.ref, c1);
    TakeNumFront(s.id, 8, c2);
    HashFront(s.root, c3);
    InfoFront(s.info, rest);
  }

  lemma {:induction false} TagFront(t: TagRow, rest: seq<Cell>)
    requires TagForm(t)
    ensures TakeTag(TagRowCells(t) + rest) == Some((t, rest))
  {
    hide TakeNameC, TakeNum, NameCells, Num;
    Powers();
    var c2 := Num(t.id, 8) + rest;
    var c1 := NameCells(t.ref) + c2;
    assert TagRowCells(t) + rest == NameCells(t.name) + c1;
    NameFront(t.name, c1);
    NameFront(t.ref, c2);
    TakeNumFront(t.id, 8, rest);
  }

  lemma {:induction false} RefsFront(rows: seq<RefRow>, rest: seq<Cell>)
    requires forall i :: 0 <= i < |rows| ==> RefForm(rows[i])
    ensures TakeRefs(RefCells(rows) + rest, |rows|) == Some((rows, rest))
  {
    hide TakeRef, RefRowCells, RefForm;
    if rows == [] {
      assert RefCells(rows) + rest == rest;
    } else {
      assert RefCells(rows) + rest == RefRowCells(rows[0]) + (RefCells(rows[1..]) + rest);
      RefFront(rows[0], RefCells(rows[1..]) + rest);
      RefsFront(rows[1..], rest);
      assert rows == [rows[0]] + rows[1..];
    }
  }

  lemma {:induction false} SnapsFront(rows: seq<SnapRow>, rest: seq<Cell>)
    requires forall i :: 0 <= i < |rows| ==> SnapForm(rows[i])
    ensures TakeSnaps(SnapCells(rows) + rest, |rows|) == Some((rows, rest))
  {
    hide TakeSnap, SnapRowCells, SnapForm;
    if rows == [] {
      assert SnapCells(rows) + rest == rest;
    } else {
      assert SnapCells(rows) + rest == SnapRowCells(rows[0]) + (SnapCells(rows[1..]) + rest);
      SnapFront(rows[0], SnapCells(rows[1..]) + rest);
      SnapsFront(rows[1..], rest);
      assert rows == [rows[0]] + rows[1..];
    }
  }

  lemma {:induction false} TagsFront(rows: seq<TagRow>, rest: seq<Cell>)
    requires forall i :: 0 <= i < |rows| ==> TagForm(rows[i])
    ensures TakeTags(TagCells(rows) + rest, |rows|) == Some((rows, rest))
  {
    hide TakeTag, TagRowCells, TagForm;
    if rows == [] {
      assert TagCells(rows) + rest == rest;
    } else {
      assert TagCells(rows) + rest == TagRowCells(rows[0]) + (TagCells(rows[1..]) + rest);
      TagFront(rows[0], TagCells(rows[1..]) + rest);
      TagsFront(rows[1..], rest);
      assert rows == [rows[0]] + rows[1..];
    }
  }

  lemma {:induction false} TableFront(t: RefTable)
    requires TableForm(t)
    ensures DecodeTable(EncodeTable(t)) == Some(t)
  {
    hide TakeRefs, TakeSnaps, TakeTags, TakeNum, RefCells, SnapCells, TagCells, Num, RefForm, SnapForm, TagForm;
    Powers();
    var c6 := TagCells(t.tags);
    var c5 := Num(|t.tags|, 4) + c6;
    var c4 := SnapCells(t.snaps) + c5;
    var c3 := Num(|t.snaps|, 4) + c4;
    var c2 := RefCells(t.refs) + c3;
    var c1 := Num(|t.refs|, 4) + c2;
    var c := EncodeTable(t);
    assert c[..4] == Lift(REFT_MAGIC) && c[4..] == c1;
    TakeNumFront(|t.refs|, 4, c2);
    RefsFront(t.refs, c3);
    TakeNumFront(|t.snaps|, 4, c4);
    SnapsFront(t.snaps, c5);
    TakeNumFront(|t.tags|, 4, c6);
    assert c6 + [] == c6;
    TagsFront(t.tags, []);
  }

  // ── What is read has its form ──

  lemma {:induction false} NumForm(c: seq<Cell>, k: nat)
    ensures TakeNum(c, k).Some? ==> TakeNum(c, k).value.0 < Pow256(k)
  {
    hide UnLe, Pow256;
  }

  lemma {:induction false} NameForm(c: seq<Cell>)
    ensures TakeNameC(c).Some? ==> |TakeNameC(c).value.0| < 256
  {
  }

  lemma {:induction false} RefTaken(c: seq<Cell>)
    requires TakeRef(c).Some?
    ensures RefForm(TakeRef(c).value.0)
  {
    hide TakeNameC, TakeHashC, TakeNum;
    Powers();
    NameForm(c);
    var c1 := TakeNameC(c).value.1;
    var c2 := TakeHashC(c1).value.1;
    NumForm(c2, 8);
    var c3 := TakeNum(c2, 8).value.1;
    NumForm(c3, 8);
    NumForm(TakeNum(c3, 8).value.1, 8);
  }

  lemma {:induction false} InfoTaken(c: seq<Cell>)
    requires TakeInfo(c).Some?
    ensures InfoForm(TakeInfo(c).value.0)
  {
    hide TakeNameC, TakeNum;
    Powers();
    NumForm(c, 8);
    var c1 := TakeNum(c, 8).value.1;
    NameForm(c1);
    var c2 := TakeNameC(c1).value.1;
    NumForm(c2, 8);
    NumForm(TakeNum(c2, 8).value.1, 2);
  }

  lemma {:induction false} SnapTaken(c: seq<Cell>)
    requires TakeSnap(c).Some?
    ensures SnapForm(TakeSnap(c).value.0)
  {
    hide TakeNameC, TakeHashC, TakeNum, TakeInfo, InfoForm;
    Powers();
    NameForm(c);
    var c1 := TakeNameC(c).value.1;
    NumForm(c1, 8);
    InfoTaken(TakeHashC(TakeNum(c1, 8).value.1).value.1);
  }

  lemma {:induction false} TagTaken(c: seq<Cell>)
    requires TakeTag(c).Some?
    ensures TagForm(TakeTag(c).value.0)
  {
    hide TakeNameC, TakeNum;
    Powers();
    NameForm(c);
    var c1 := TakeNameC(c).value.1;
    NameForm(c1);
    NumForm(TakeNameC(c1).value.1, 8);
  }

  lemma {:induction false} RefsTaken(c: seq<Cell>, n: nat)
    requires TakeRefs(c, n).Some?
    ensures |TakeRefs(c, n).value.0| == n
    ensures forall i :: 0 <= i < n ==> RefForm(TakeRefs(c, n).value.0[i])
    decreases n
  {
    hide TakeRef, RefForm;
    if n > 0 {
      RefTaken(c);
      RefsTaken(TakeRef(c).value.1, n - 1);
    }
  }

  lemma {:induction false} SnapsTaken(c: seq<Cell>, n: nat)
    requires TakeSnaps(c, n).Some?
    ensures |TakeSnaps(c, n).value.0| == n
    ensures forall i :: 0 <= i < n ==> SnapForm(TakeSnaps(c, n).value.0[i])
    decreases n
  {
    hide TakeSnap, SnapForm;
    if n > 0 {
      SnapTaken(c);
      SnapsTaken(TakeSnap(c).value.1, n - 1);
    }
  }

  lemma {:induction false} TagsTaken(c: seq<Cell>, n: nat)
    requires TakeTags(c, n).Some?
    ensures |TakeTags(c, n).value.0| == n
    ensures forall i :: 0 <= i < n ==> TagForm(TakeTags(c, n).value.0[i])
    decreases n
  {
    hide TakeTag, TagForm;
    if n > 0 {
      TagTaken(c);
      TagsTaken(TakeTag(c).value.1, n - 1);
    }
  }

  lemma {:induction false} TableTaken(c: seq<Cell>)
    requires DecodeTable(c).Some?
    ensures TableForm(DecodeTable(c).value)
  {
    hide TakeRefs, TakeSnaps, TakeTags, TakeNum, RefForm, SnapForm, TagForm;
    Powers();
    NumForm(c[4..], 4);
    var (nrefs, c1) := TakeNum(c[4..], 4).value;
    RefsTaken(c1, nrefs);
    var c2 := TakeRefs(c1, nrefs).value.1;
    NumForm(c2, 4);
    var (nsnaps, c3) := TakeNum(c2, 4).value;
    SnapsTaken(c3, nsnaps);
    var c4 := TakeSnaps(c3, nsnaps).value.1;
    NumForm(c4, 4);
    var (ntags, c5) := TakeNum(c4, 4).value;
    TagsTaken(c5, ntags);
  }

  /** A ref table reads back as itself if and only if everything in it fits its field: a longer provenance or
      message, another retention class or the greatest parent id is lost. */
  lemma {:induction false} TableRoundTrip(t: RefTable)
    ensures DecodeTable(EncodeTable(t)) == Some(t) <==> TableForm(t)
  {
    hide DecodeTable, EncodeTable, TableForm;
    if TableForm(t) {
      TableFront(t);
    } else if DecodeTable(EncodeTable(t)) == Some(t) {
      TableTaken(EncodeTable(t));
    }
  }

  // ── Snapshots of a ref ──

  /** The snapshot is one of a ref of the table, numbered below the next. */
  ghost predicate Numbered(t: RefTable, s: SnapRow) {
    exists i :: 0 <= i < |t.refs| && t.refs[i].name == s.ref && s.id < t.refs[i].meta.nextSnap
  }

  /** Later snapshots of a ref are not older. */
  predicate InTime(a: SnapRow, b: SnapRow) {
    a.ref == b.ref && a.id <= b.id ==> a.info.time <= b.info.time
  }

  /** A table the engine keeps: it reads back, ids are below the next, and times go with ids. */
  ghost predicate TableFits(t: RefTable) {
    && TableForm(t)
    && (forall i {:trigger Numbered(t, t.snaps[i])} :: 0 <= i < |t.snaps| ==> Numbered(t, t.snaps[i]))
    && (forall i, j {:trigger InTime(t.snaps[i], t.snaps[j])} ::
          0 <= i < |t.snaps| && 0 <= j < |t.snaps| ==> InTime(t.snaps[i], t.snaps[j]))
  }

  /** The time of a snapshot: the clock, or one more than the one before, which does not go past the greatest. */
  function SnapTime(now: nat, last: Option<nat>): nat {
    if last.None? then now else
      var least := if last.value + 1 < U64 then last.value + 1 else U64 - 1;
      if now < least then least else now
  }

  /** Times of a ref are promised to grow strictly. They do if and only if the one before is not the greatest. */
  lemma {:induction false} SnapTimeExact(now: nat, last: nat)
    requires now < U64 && last < U64
    ensures now <= SnapTime(now, Some(last)) < U64 && last <= SnapTime(now, Some(last))
    ensures last < SnapTime(now, Some(last)) <==> last < U64 - 1
  {
  }

  function NewRow(name: Bytes, root: Hash): RefRow {
    RefRow(name, root, RefMeta(0, 1, 0))
  }

  /** The snapshot of a ref with the greatest id. */
  function LastSnap(snaps: seq<SnapRow>, r: Bytes): (last: Option<SnapRow>)
    ensures last.None? ==> forall s :: s in snaps ==> s.ref != r
    ensures last.Some? ==> last.value in snaps && last.value.ref == r
    ensures last.Some? ==> forall s :: s in snaps && s.ref == r ==> s.id <= last.value.id
  {
    if snaps == [] then None else
      var last := LastSnap(snaps[1..], r);
      assert snaps == [snaps[0]] + snaps[1..];
      if snaps[0].ref == r && (last.None? || last.value.id <= snaps[0].id) then Some(snaps[0]) else last
  }

  /** What the caller says of a snapshot, and the clock. */
  datatype SnapArgs = SnapArgs(provenance: Bytes, message: Bytes, retention: nat, now: nat)

  predicate ArgsForm(a: SnapArgs) {
    |a.provenance| < 256 && |a.message| < U16 && a.retention <= 2 && a.now < U64
  }

  /** The next snapshot of a ref: numbered by the ref, timed after the last one, which is its parent. */
  function NextSnap(row: RefRow, snaps: seq<SnapRow>, a: SnapArgs): SnapRow {
    var last := LastSnap(snaps, row.name);
    SnapRow(row.name, row.meta.nextSnap, row.root,
            SnapInfo(SnapTime(a.now, if last.Some? then Some(last.value.info.time) else None), a.provenance,
                     if last.Some? then Some(last.value.id) else None, a.message, a.retention))
  }

  function WithSnap(t: RefTable, i: nat, a: SnapArgs): RefTable
    requires i < |t.refs|
  {
    var row := t.refs[i];
    t.(snaps := t.snaps + [NextSnap(row, t.snaps, a)],
       refs := t.refs[i := row.(meta := row.meta.(nextSnap := row.meta.nextSnap + 1))])
  }

  /** Where a snapshot stands among those of its ref: its id is above all, no one is later, only one at the greatest
      time is as late, and its parent is the one with the greatest id. */
  ghost predicate ComesAfter(s: SnapRow, snaps: seq<SnapRow>) {
    && (forall x :: x in snaps && x.ref == s.ref ==> x.id < s.id && x.info.time <= s.info.time)
    && (forall x :: x in snaps && x.ref == s.ref && x.info.time < U64 - 1 ==> x.info.time < s.info.time)
    && (s.info.parent.None? <==> forall x :: x in snaps ==> x.ref != s.ref)
    && (forall x :: x in snaps && x.ref == s.ref ==> s.info.parent.Some? && x.id <= s.info.parent.value)
    && (s.info.parent.Some? ==> exists x :: x in snaps && x.ref == s.ref && x.id == s.info.parent.value)
  }

  /** A time a snapshot of `r` may be given: not before the clock or any other, and after any below the ceiling. */
  ghost predicate TimeFor(t: nat, snaps: seq<SnapRow>, r: Bytes, now: nat) {
    && now <= t
    && forall x :: x in snaps && x.ref == r ==> x.info.time <= t && (x.info.time < U64 - 1 ==> x.info.time < t)
  }

  /** Its time is the least of these. */
  ghost predicate Timely(s: SnapRow, snaps: seq<SnapRow>, now: nat) {
    && TimeFor(s.info.time, snaps, s.ref, now)
    && forall t :: TimeFor(t, snaps, s.ref, now) ==> s.info.time <= t
  }

  lemma {:induction false} RowAt(snaps: seq<SnapRow>, s: SnapRow) returns (i: nat)
    requires s in snaps
    ensures i < |snaps| && snaps[i] == s
  {
    i :| 0 <= i < |snaps| && snaps[i] == s;
  }

  lemma {:induction false} SnapBelow(t: RefTable, i: nat, s: SnapRow)
    requires TableFits(t) && i < |t.refs| && s in t.snaps && s.ref == t.refs[i].name
    requires forall j :: 0 <= j < |t.refs| && t.refs[j].name == t.refs[i].name ==> j == i
    ensures s.id < t.refs[i].meta.nextSnap && s.info.time < U64
  {
    hide RefForm, TagForm;
    var k := RowAt(t.snaps, s);
    assert Numbered(t, t.snaps[k]) && SnapForm(t.snaps[k]);
  }

  lemma {:induction false} NextFollows(t: RefTable, i: nat, a: SnapArgs)
    requires TableFits(t) && i < |t.refs| && ArgsForm(a)
    requires forall j :: 0 <= j < |t.refs| && t.refs[j].name == t.refs[i].name ==> j == i
    ensures ComesAfter(NextSnap(t.refs[i], t.snaps, a), t.snaps)
    ensures Timely(NextSnap(t.refs[i], t.snaps, a), t.snaps, a.now)
    ensures NextSnap(t.refs[i], t.snaps, a).info.time < U64
  {
    hide TableForm, SnapTime, Numbered;
    var r, s, last := t.refs[i].name, NextSnap(t.refs[i], t.snaps, a), LastSnap(t.snaps, t.refs[i].name);
    if last.Some? {
      SnapBelow(t, i, last.value);
      SnapTimeExact(a.now, last.value.info.time);
    } else {
      SnapTimeFirst(a.now);
    }
    forall x | x in t.snaps && x.ref == r
      ensures x.id < s.id && x.info.time <= s.info.time && (x.info.time < U64 - 1 ==> x.info.time < s.info.time)
    {
      SnapBelow(t, i, x);
      var k := RowAt(t.snaps, x);
      var l := RowAt(t.snaps, last.value);
      assert InTime(t.snaps[k], t.snaps[l]);
    }
    forall m | TimeFor(m, t.snaps, r, a.now)
      ensures s.info.time <= m
    {
      SnapTimeLeast(a.now, if last.Some? then Some(last.value.info.time) else None, m);
    }
  }

  lemma {:induction false} SnapTimeLeast(now: nat, last: Option<nat>, t: nat)
    requires now <= t && (last.Some? ==> last.value <= t && (last.value < U64 - 1 ==> last.value < t))
    requires last.Some? ==> last.value < U64
    ensures SnapTime(now, last) <= t
  {
  }

  lemma {:induction false} SnapTimeFirst(now: nat)
    ensures SnapTime(now, None) == now
  {
  }

  /** A snapshot keeps the table in order. */
  lemma {:induction false} SnapKeeps(t: RefTable, i: nat, a: SnapArgs)
    requires TableFits(t) && i < |t.refs| && ArgsForm(a) && |t.snaps| + 1 < U32 && t.refs[i].meta.nextSnap + 1 < U64
    requires forall j :: 0 <= j < |t.refs| && t.refs[j].name == t.refs[i].name ==> j == i
    ensures TableFits(WithSnap(t, i, a))
  {
    hide Numbered, InTime, ComesAfter, TagForm, NextSnap;
    var t', s := WithSnap(t, i, a), NextSnap(t.refs[i], t.snaps, a);
    NextFollows(t, i, a);
    NextForm(t, i, a);
    forall k | 0 <= k < |t'.snaps|
      ensures Numbered(t', t'.snaps[k])
    {
      if k < |t.snaps| {
        NumberedStill(t, i, a, t.snaps[k]);
      } else {
        NumberedNew(t, i, a);
      }
    }
    forall k, l | 0 <= k < |t'.snaps| && 0 <= l < |t'.snaps|
      ensures InTime(t'.snaps[k], t'.snaps[l])
    {
      if k < |t.snaps| && l < |t.snaps| {
        assert InTime(t.snaps[k], t.snaps[l]);
      } else {
        InTimeNew(s, t.snaps, t'.snaps[k], t'.snaps[l]);
      }
    }
  }

  lemma {:induction false} InTimeNew(s: SnapRow, snaps: seq<SnapRow>, x: SnapRow, y: SnapRow)
    requires ComesAfter(s, snaps) && (x == s || x in snaps) && (y == s || y in snaps) && (x == s || y == s)
    ensures InTime(x, y)
  {
  }

  lemma {:induction false} NextForm(t: RefTable, i: nat, a: SnapArgs)
    requires TableFits(t) && i < |t.refs| && ArgsForm(a) && |t.snaps| + 1 < U32 && t.refs[i].meta.nextSnap + 1 < U64
    requires forall j :: 0 <= j < |t.refs| && t.refs[j].name == t.refs[i].name ==> j == i
    ensures TableForm(WithSnap(t, i, a))
  {
    hide Numbered, InTime, ComesAfter, TagForm, SnapTime;
    NextFollows(t, i, a);
    assert RefForm(t.refs[i]);
    var last := LastSnap(t.snaps, t.refs[i].name);
    if last.Some? {
      SnapBelow(t, i, last.value);
    }
  }

  lemma {:induction false} NumberedStill(t: RefTable, i: nat, a: SnapArgs, s: SnapRow)
    requires i < |t.refs| && Numbered(t, s)
    ensures Numbered(WithSnap(t, i, a), s)
  {
    hide NextSnap;
    var j :| 0 <= j < |t.refs| && t.refs[j].name == s.ref && s.id < t.refs[j].meta.nextSnap;
    assert WithSnap(t, i, a).refs[j].name == s.ref && s.id < WithSnap(t, i, a).refs[j].meta.nextSnap;
  }

  lemma {:induction false} NumberedNew(t: RefTable, i: nat, a: SnapArgs)
    requires i < |t.refs|
    ensures Numbered(WithSnap(t, i, a), NextSnap(t.refs[i], t.snaps, a))
  {
    hide LastSnap, SnapTime;
    assert WithSnap(t, i, a).refs[i].name == t.refs[i].name;
  }

  /** So does a new root of a ref, and a new ref. */
  lemma {:induction false} RowsKeep(t: RefTable, refs: seq<RefRow>)
    requires TableFits(t) && |t.refs| <= |refs| < U32 && forall i :: 0 <= i < |refs| ==> RefForm(refs[i])
    requires forall i :: 0 <= i < |t.refs| ==> refs[i].name == t.refs[i].name && refs[i].meta == t.refs[i].meta
    ensures TableFits(t.(refs := refs))
  {
    hide RefForm, SnapForm, TagForm, InTime;
    forall k | 0 <= k < |t.snaps|
      ensures Numbered(t.(refs := refs), t.snaps[k])
    {
      assert Numbered(t, t.snaps[k]);
      var i :| 0 <= i < |t.refs| && t.refs[i].name == t.snaps[k].ref && t.snaps[k].id < t.refs[i].meta.nextSnap;
      assert refs[i].name == t.snaps[k].ref;
    }
  }
}
