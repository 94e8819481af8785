/** Directory entries and tree nodes as stored objects. */
module Entries {
  import opened Cells
  import opened FileChunks

  const MAX_NODE_ENTRIES := 128
  const MAX_OPT_BYTES := 4096

  datatype Kind = File | Dir
  datatype Entry = Entry(name: Bytes, kind: Kind, flags: nat, size: nat, mtime: nat, content: Content)

  /** A separator key and the node it stands for. */
  datatype Child = Child(key: Bytes, hash: Hash)
  datatype Body = Leaf(entries: seq<Entry>) | Internal(children: seq<Child>)
  datatype Node = Node(level: nat, body: Body)

  predicate ValidName(n: Bytes) {
    1 <= |n| <= 255 && 0 !in n && 0x2F !in n && n != [0x2E] && n != [0x2E, 0x2E]
  }

  /** Field widths, and one encoding for each logical entry. */
  predicate ValidEntry(e: Entry) {
    && ValidName(e.name)
    && e.flags < U32 && e.size < U64 && e.mtime < U64
    && match e.content
       case Inline(b) => e.kind == File && |b| <= INLINE_MAX && e.size == |b|
       case ChunkList(_) => e.kind == File && e.size > INLINE_MAX
       case DirRoot(_) => e.kind == Dir && e.size == 0
  }

  // ── Encoding ──

  function HeadBytes(e: Entry): Bytes
    requires |e.name| <= 255
  {
    [|e.name|] + e.name + [if e.kind == File then 0 else 1] + Le(e.size, 8) + Le(e.mtime, 8)
  }

  function ContentCells(k: Content): seq<Cell> {
    match k
    case Inline(b) => Lift([0] + Le(|b|, 2) + b)
    case ChunkList(h) => Lift([1]) + HashCells(h)
    case DirRoot(h) => Lift([2]) + HashCells(h)
  }

  function OptBytes(flags: nat): Bytes {
    if flags == 0 then Le(0, 2) else Le(7, 2) + [1] + Le(4, 2) + Le(flags, 4)
  }

  function EntryCells(e: Entry): seq<Cell>
    requires |e.name| <= 255
  {
    Lift(HeadBytes(e)) + ContentCells(e.content) + Lift(OptBytes(e.flags))
  }

  function ChildCells(k: Child): seq<Cell>
    requires |k.key| <= 255
  {
    Lift([|k.key|] + k.key) + HashCells(k.hash)
  }

  predicate Named(es: seq<Entry>) {
    forall i :: 0 <= i < |es| ==> |es[i].name| <= 255
  }

  predicate Keyed(ks: seq<Child>) {
    forall i :: 0 <= i < |ks| ==> |ks[i].key| <= 255
  }

  predicate AllValid(es: seq<Entry>) {
    Named(es) && forall i :: 0 <= i < |es| ==> ValidEntry(es[i])
  }

  function EntriesCells(es: seq<Entry>): seq<Cell>
    requires Named(es)
  {
    if es == [] then [] else EntryCells(es[0]) + EntriesCells(es[1..])
  }

  function ChildrenCells(ks: seq<Child>): seq<Cell>
    requires Keyed(ks)
  {
    if ks == [] then [] else ChildCells(ks[0]) + ChildrenCells(ks[1..])
  }

  function LeafCells(es: seq<Entry>): seq<Cell>
    requires Named(es)
  {
    Lift([0] + Le(|es|, 4)) + EntriesCells(es)
  }

  function InternalCells(level: nat, ks: seq<Child>): seq<Cell>
    requires level <= 255 && Keyed(ks)
  {
    Lift([level] + Le(|ks|, 4)) + ChildrenCells(ks)
  }

  // ── Decoding ──

  function ByteAt(c: seq<Cell>, i: nat): Byte
    requires i < |c|
  {
    if c[i].Raw? then c[i].b else 0
  }

  function TakeHead(c: seq<Cell>): Option<(Bytes, Kind, nat, nat, seq<Cell>)> {
    if |c| < 1 then None else
      var n := ByteAt(c, 0);
      if |c| < 18 + n || ByteAt(c, 1 + n) > 1 then None
      else Some((Low(c[1..1 + n]), if ByteAt(c, 1 + n) == 0 then File else Dir,
                 UnLe(Low(c[2 + n..10 + n])), UnLe(Low(c[10 + n..18 + n])), c[18 + n..]))
  }

  function TakeContent(c: seq<Cell>): Option<(Content, seq<Cell>)> {
    if |c| < 1 then None
    else if ByteAt(c, 0) == 0 then
      if |c| < 3 then None else
        var n := UnLe(Low(c[1..3]));
        if |c| < 3 + n then None else Some((Inline(Low(c[3..3 + n])), c[3 + n..]))
    else if |c| < 33 || ByteAt(c, 0) > 2 then None
    else
      var h :- ReadHash(c[1..33]);
      Some((if ByteAt(c, 0) == 1 then ChunkList(h) else DirRoot(h), c[33..]))
  }

  /** The optional section: empty, or exactly one non-zero flags record. */
  function TakeOpt(c: seq<Cell>): Option<(nat, seq<Cell>)> {
    if |c| < 2 then None else
      var n := UnLe(Low(c[..2]));
      if n > MAX_OPT_BYTES || |c| < 2 + n then None
      else if n == 0 then Some((0, c[2..]))
      else if n != 7 || ByteAt(c, 2) != 1 || UnLe(Low(c[3..5])) != 4 || UnLe(Low(c[5..9])) == 0 then None
      else Some((UnLe(Low(c[5..9])), c[9..]))
  }

  function TakeEntry(c: seq<Cell>): Option<(Entry, seq<Cell>)> {
    var head :- TakeHead(c);
    var content :- TakeContent(head.4);
    var opt :- TakeOpt(content.1);
    var e := Entry(head.0, head.1, opt.0, head.2, head.3, content.0);
    if ValidEntry(e) then Some((e, opt.1)) else None
  }

  function TakeEntries(c: seq<Cell>, n: nat): Option<(seq<Entry>, seq<Cell>)> {
    if n == 0 then Some(([], c))
    else
      var first :- TakeEntry(c);
      var more :- TakeEntries(first.1, n - 1);
      Some(([first.0] + more.0, more.1))
  }

  function TakeChild(c: seq<Cell>): Option<(Child, seq<Cell>)> {
    if |c| < 1 then None else
      var n := ByteAt(c, 0);
      if |c| < 33 + n then None else
        var h :- ReadHash(c[1 + n..33 + n]);
        Some((Child(Low(c[1..1 + n]), h), c[33 + n..]))
  }

  function TakeChildren(c: seq<Cell>, n: nat): Option<(seq<Child>, seq<Cell>)> {
    if n == 0 then Some(([], c))
    else
      var first :- TakeChild(c);
      var more :- TakeChildren(first.1, n - 1);
      Some(([first.0] + more.0, more.1))
  }

  /** A whole stored node; trailing bytes are refused. */
  function DecodeNode(c: seq<Cell>): Option<Node> {
    if |c| < 5 then None else
      var level := ByteAt(c, 0);
      var n := UnLe(Low(c[1..5]));
      if n > MAX_NODE_ENTRIES then None
      else if level == 0 then
        var got :- TakeEntries(c[5..], n);
        if got.1 == [] then Some(Node(0, Leaf(got.0))) else None
      else
        var got :- TakeChildren(c[5..], n);
        if got.1 == [] then Some(Node(level, Internal(got.0))) else None
  }

  // ── Round trips ──

  lemma {:induction false} HeadFront(e: Entry, rest: seq<Cell>)
    requires ValidEntry(e)
    ensures TakeHead(Lift(HeadBytes(e)) + rest) == Some((e.name, e.kind, e.size, e.mtime, rest))
  {
    hide Le, UnLe;
    var n := |e.name|;
    var b := HeadBytes(e);
    var c := Lift(b) + rest;
    assert b[0] == n && b[1 + n] == if e.kind == File then 0 else 1;
    assert c[1..1 + n] == Lift(e.name);
    assert c[2 + n..10 + n] == Lift(Le(e.size, 8));
    assert c[10 + n..18 + n] == Lift(Le(e.mtime, 8));
    assert c[18 + n..] == rest;
    LowLift(e.name);
    LowLift(Le(e.size, 8));
    LowLift(Le(e.mtime, 8));
    Le64(e.size);
    Le64(e.mtime);
  }

  lemma {:induction false} InlineFront(b: Bytes, rest: seq<Cell>)
    requires |b| <= INLINE_MAX
    ensures TakeContent(ContentCells(Inline(b)) + rest) == Some((Inline(b), rest))
  {
    hide Le, UnLe, ReadHash;
    var c := ContentCells(Inline(b)) + rest;
    assert c[0] == Raw(0);
    assert c[1..3] == Lift(Le(|b|, 2));
    assert c[3..3 + |b|] == Lift(b);
    assert c[3 + |b|..] == rest;
    LowLift(Le(|b|, 2));
    LowLift(b);
    Le16(|b|);
  }

  lemma {:induction false} DigestFront(k: Content, rest: seq<Cell>)
    requires !k.Inline?
    ensures TakeContent(ContentCells(k) + rest) == Some((k, rest))
  {
    hide Le, UnLe, ReadHash;
    var c := ContentCells(k) + rest;
    var h := if k.ChunkList? then k.list else k.root;
    assert c[0] == Raw(if k.ChunkList? then 1 else 2);
    assert c[1..33] == HashCells(h);
    assert c[33..] == rest;
    ReadHashCells(h);
  }

  lemma {:induction false} ContentFront(k: Content, rest: seq<Cell>)
    requires k.Inline? ==> |k.bytes| <= INLINE_MAX
    ensures TakeContent(ContentCells(k) + rest) == Some((k, rest))
  {
    hide TakeContent, ContentCells;
    if k.Inline? {
      InlineFront(k.bytes, rest);
    } else {
      DigestFront(k, rest);
    }
  }

  lemma {:induction false} OptFront(flags: nat, rest: seq<Cell>)
    requires flags < U32
    ensures TakeOpt(Lift(OptBytes(flags)) + rest) == Some((flags, rest))
  {
    hide Le, UnLe;
    var c := Lift(OptBytes(flags)) + rest;
    Le16(if flags == 0 then 0 else 7);
    LowLift(Le(if flags == 0 then 0 else 7, 2));
    assert c[..2] == Lift(Le(if flags == 0 then 0 else 7, 2));
    if flags == 0 {
      assert c[2..] == rest;
    } else {
      assert c[2] == Raw(1);
      assert c[3..5] == Lift(Le(4, 2)) && c[5..9] == Lift(Le(flags, 4)) && c[9..] == rest;
      LowLift(Le(4, 2));
      LowLift(Le(flags, 4));
      Le16(4);
      Le32(flags);
    }
  }

  /** Every valid entry reads back, whatever follows it. */
  lemma {:induction false} EntryRoundTrip(e: Entry, rest: seq<Cell>)
    requires ValidEntry(e)
    ensures TakeEntry(EntryCells(e) + rest) == Some((e, rest))
  {
    hide HeadBytes, ContentCells, OptBytes, TakeHead, TakeContent, TakeOpt;
    var c2 := Lift(OptBytes(e.flags)) + rest;
    var c1 := ContentCells(e.content) + c2;
    assert EntryCells(e) + rest == Lift(HeadBytes(e)) + c1;
    HeadFront(e, c1);
    ContentFront(e.content, c2);
    OptFront(e.flags, rest);
  }

  lemma {:induction false} EntriesFront(es: seq<Entry>, rest: seq<Cell>)
    requires AllValid(es)
    ensures TakeEntries(EntriesCells(es) + rest, |es|) == Some((es, rest))
  {
    hide EntryCells, TakeEntry;
    if es == [] {
      assert EntriesCells(es) + rest == rest;
    } else {
      var tail := EntriesCells(es[1..]) + rest;
      assert EntriesCells(es) + rest == EntryCells(es[0]) + tail;
      EntryRoundTrip(es[0], tail);
      EntriesFront(es[1..], rest);
      assert es == [es[0]] + es[1..];
    }
  }

  lemma {:induction false} ChildFront(k: Child, rest: seq<Cell>)
    requires |k.key| <= 255
    ensures TakeChild(ChildCells(k) + rest) == Some((k, rest))
  {
    hide ReadHash;
    var n := |k.key|;
    var c := ChildCells(k) + rest;
    assert c[0] == Raw(n) && c[1..1 + n] == Lift(k.key);
    assert c[1 + n..33 + n] == HashCells(k.hash) && c[33 + n..] == rest;
    LowLift(k.key);
    ReadHashCells(k.hash);
  }

  lemma {:induction false} ChildrenFront(ks: seq<Child>, rest: seq<Cell>)
    requires Keyed(ks)
    ensures TakeChildren(ChildrenCells(ks) + rest, |ks|) == Some((ks, rest))
  {
    hide ChildCells, TakeChild;
    if ks == [] {
      assert ChildrenCells(ks) + rest == rest;
    } else {
      var tail := ChildrenCells(ks[1..]) + rest;
      assert ChildrenCells(ks) + rest == ChildCells(ks[0]) + tail;
      ChildFront(ks[0], tail);
      ChildrenFront(ks[1..], rest);
      assert ks == [ks[0]] + ks[1..];
    }
  }

  lemma {:induction false} LeafRoundTrip(es: seq<Entry>)
    requires |es| <= MAX_NODE_ENTRIES && AllValid(es)
    ensures DecodeNode(LeafCells(es)) == Some(Node(0, Leaf(es)))
  {
    hide Le, UnLe, TakeEntries, EntriesCells, ValidEntry, TakeChildren;
    var c := LeafCells(es);
    assert c[0] == Raw(0) && c[1..5] == Lift(Le(|es|, 4)) && c[5..] == EntriesCells(es) + [];
    LowLift(Le(|es|, 4));
    Le32(|es|);
    EntriesFront(es, []);
  }

  lemma {:induction false} InternalRoundTrip(level: nat, ks: seq<Child>)
    requires 0 < level <= 255 && |ks| <= MAX_NODE_ENTRIES && Keyed(ks)
    ensures DecodeNode(InternalCells(level, ks)) == Some(Node(level, Internal(ks)))
  {
    hide Le, UnLe, TakeEntries, ChildrenCells, TakeChildren;
    var c := InternalCells(level, ks);
    assert c[0] == Raw(level) && c[1..5] == Lift(Le(|ks|, 4)) && c[5..] == ChildrenCells(ks) + [];
    LowLift(Le(|ks|, 4));
    Le32(|ks|);
    ChildrenFront(ks, []);
  }

  // ── A stored object holds the digests it refers to ──

  ghost predicate Holds(c: seq<Cell>, h: Hash) {
    exists i :: 0 <= i < |c| && c[i].Dig? && c[i].h == h
  }

  /** So references are well-founded. */
  lemma {:induction false} HoldsSmaller(c: seq<Cell>, h: Hash)
    requires Holds(c, h)
    ensures h < Of(c)
  {
    var i :| 0 <= i < |c| && c[i].Dig? && c[i].h == h;
    assert c[i] == Dig(h, c[i].i);
  }

  /** `rest` is what is left of `c` after some of it was consumed. */
  ghost predicate Left(rest: seq<Cell>, c: seq<Cell>) {
    |rest| <= |c| && rest == c[|c| - |rest|..]
  }

  lemma {:induction false} LeftHolds(rest: seq<Cell>, c: seq<Cell>, h: Hash)
    requires Left(rest, c) && Holds(rest, h)
    ensures Holds(c, h)
  {
    var i :| 0 <= i < |rest| && rest[i].Dig? && rest[i].h == h;
    assert c[|c| - |rest| + i] == rest[i];
  }

  lemma {:induction false} LeftTrans(a: seq<Cell>, b: seq<Cell>, c: seq<Cell>)
    requires Left(a, b) && Left(b, c)
    ensures Left(a, c)
  {
  }

  lemma {:induction false} LeftSlice(c: seq<Cell>, k: nat)
    requires k <= |c|
    ensures Left(c[k..], c)
  {
  }

  lemma {:induction false} DigestHeld(c: seq<Cell>, from: nat, h: Hash)
    requires from + 32 <= |c| && ReadHash(c[from..from + 32]) == Some(h)
    ensures Holds(c, h)
  {
    assert c[from] == c[from..from + 32][0] == Dig(h, 0);
  }

  function EntryRefs(e: Entry): set<Hash> {
    match e.content
    case Inline(_) => {}
    case ChunkList(h) => {h}
    case DirRoot(h) => {h}
  }

  lemma {:induction false} ContentHeld(c: seq<Cell>)
    requires TakeContent(c).Some?
    ensures var (k, rest) := TakeContent(c).value;
            Left(rest, c) && (!k.Inline? ==> Holds(c, if k.ChunkList? then k.list else k.root))
  {
    hide ReadHash, UnLe, Low, Holds, Left;
    if ByteAt(c, 0) == 0 {
      LeftSlice(c, 3 + UnLe(Low(c[1..3])));
    } else {
      LeftSlice(c, 33);
      DigestHeld(c, 1, ReadHash(c[1..33]).value);
    }
  }

  lemma {:induction false} EntryHeld(c: seq<Cell>)
    requires TakeEntry(c).Some?
    ensures var (e, rest) := TakeEntry(c).value;
            ValidEntry(e) && Left(rest, c) && forall h :: h in EntryRefs(e) ==> Holds(c, h)
  {
    hide TakeContent, UnLe, Low, Holds, Left, ValidEntry;
    var c1 := TakeHead(c).value.4;
    LeftSlice(c, 18 + ByteAt(c, 0));
    ContentHeld(c1);
    var (k, c2) := TakeContent(c1).value;
    LeftTrans(c2, c1, c);
    var rest := TakeOpt(c2).value.1;
    LeftSlice(c2, if UnLe(Low(c2[..2])) == 0 then 2 else 9);
    LeftTrans(rest, c2, c);
    if !k.Inline? {
      LeftHolds(c1, c, if k.ChunkList? then k.list else k.root);
    }
  }

  lemma {:induction false} EntriesHeld(c: seq<Cell>, n: nat)
    requires TakeEntries(c, n).Some?
    ensures var (es, rest) := TakeEntries(c, n).value;
            && AllValid(es) && Left(rest, c)
            && forall i, h :: 0 <= i < |es| && h in EntryRefs(es[i]) ==> Holds(c, h)
  {
    hide TakeEntry, Holds, EntryRefs, ValidEntry;
    if n > 0 {
      EntryHeld(c);
      var (e, c1) := TakeEntry(c).value;
      EntriesHeld(c1, n - 1);
      var (es, rest) := TakeEntries(c1, n - 1).value;
      LeftTrans(rest, c1, c);
      assert |e.name| <= 255 by {
        ValidNamed(e);
      }
      var all := [e] + es;
      forall i, h | 0 <= i < |all| && h in EntryRefs(all[i]) ensures Holds(c, h) {
        if i > 0 {
          LeftHolds(c1, c, h);
        }
      }
    }
  }

  lemma {:induction false} ValidNamed(e: Entry)
    requires ValidEntry(e)
    ensures 1 <= |e.name| <= 255
  {
  }

  lemma {:induction false} ChildrenHeld(c: seq<Cell>, n: nat)
    requires TakeChildren(c, n).Some?
    ensures var (ks, rest) := TakeChildren(c, n).value;
            Keyed(ks) && Left(rest, c) && forall i :: 0 <= i < |ks| ==> Holds(c, ks[i].hash)
  {
    hide Holds, ReadHash, Low;
    if n > 0 {
      var (k, c1) := TakeChild(c).value;
      LeftSlice(c, 33 + ByteAt(c, 0));
      DigestHeld(c, 1 + ByteAt(c, 0), k.hash);
      ChildrenHeld(c1, n - 1);
      var (ks, rest) := TakeChildren(c1, n - 1).value;
      LeftTrans(rest, c1, c);
      forall i | 0 <= i < |ks| ensures Holds(c, ks[i].hash) {
        LeftHolds(c1, c, ks[i].hash);
      }
    }
  }

  /** Everything a node refers to, it holds; and a leaf's entries are valid. */
  lemma {:induction false} NodeHeld(c: seq<Cell>)
    requires DecodeNode(c).Some?
    ensures var body := DecodeNode(c).value.body;
            match body
            case Leaf(es) => AllValid(es) && forall i, h :: 0 <= i < |es| && h in EntryRefs(es[i]) ==> Holds(c, h)
            case Internal(ks) => Keyed(ks) && forall i :: 0 <= i < |ks| ==> Holds(c, ks[i].hash)
  {
    hide TakeEntries, TakeChildren, Holds, EntryRefs, UnLe, Low, AllValid;
    LeftSlice(c, 5);
    var n := UnLe(Low(c[1..5]));
    if ByteAt(c, 0) == 0 {
      EntriesHeld(c[5..], n);
      var es := TakeEntries(c[5..], n).value.0;
      forall i, h | 0 <= i < |es| && h in EntryRefs(es[i]) ensures Holds(c, h) {
        LeftHolds(c[5..], c, h);
      }
    } else {
      ChildrenHeld(c[5..], n);
      var ks := TakeChildren(c[5..], n).value.0;
      forall i | 0 <= i < |ks| ensures Holds(c, ks[i].hash) {
        LeftHolds(c[5..], c, ks[i].hash);
      }
    }
  }
}
