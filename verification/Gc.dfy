/** Which objects a tree needs, and the garbage collector's mark walk. A hash plays one of three parts:
    a tree node, a chunk list, or a content chunk; only the first two are ever parsed. */
module Gc {
  import opened Cells
  import opened FileChunks
  import opened Entries

  /** Hashes a node refers to as nodes: its children, or the directories its entries name. */
  function Below(h: Hash): set<Hash> {
    match DecodeNode(h.content)
    case None => {}
    case Some(node) =>
      match node.body
      case Leaf(es) => set i | 0 <= i < |es| && es[i].content.DirRoot? :: es[i].content.root
      case Internal(ks) => set i | 0 <= i < |ks| :: ks[i].hash
  }

  /** Hashes a node refers to as chunk lists. */
  function ListsOf(h: Hash): set<Hash> {
    match DecodeNode(h.content)
    case None => {}
    case Some(node) =>
      match node.body
      case Leaf(es) => set i | 0 <= i < |es| && es[i].content.ChunkList? :: es[i].content.list
      case Internal(_) => {}
  }

  /** Hashes a chunk list refers to. */
  function ChunksOf(l: Hash): set<Hash> {
    match DecodeList(l.content)
    case None => {}
    case Some(rs) => HashesOf(rs)
  }

  lemma {:induction false} BelowSmaller(h: Hash)
    ensures forall k :: k in Below(h) ==> k < h
  {
    hide DecodeNode;
    assert h == Of(h.content);
    if DecodeNode(h.content).Some? {
      NodeHeld(h.content);
      forall k | k in Below(h) ensures k < h {
        match DecodeNode(h.content).value.body
        case Leaf(es) =>
          var i :| 0 <= i < |es| && es[i].content.DirRoot? && es[i].content.root == k;
          assert k in EntryRefs(es[i]);
          HoldsSmaller(h.content, k);
        case Internal(ks) =>
          var i :| 0 <= i < |ks| && ks[i].hash == k;
          HoldsSmaller(h.content, k);
      }
    }
  }

  function ChildNodes(h: Hash): (r: set<Hash>)
    ensures forall k :: k in r ==> k < h
  {
    BelowSmaller(h);
    Below(h)
  }

  /** Every node reachable from a node. */
  function Nodes(h: Hash): set<Hash>
    decreases h
  {
    {h} + set k, x | k in ChildNodes(h) && x in Nodes(k) :: x
  }

  function Lists(h: Hash): set<Hash> {
    set n, l | n in Nodes(h) && l in ListsOf(n) :: l
  }

  function Chunks(h: Hash): set<Hash> {
    set l, c | l in Lists(h) && c in ChunksOf(l) :: c
  }

  /** Every object reachable from a root. */
  function Reach(h: Hash): set<Hash> {
    Nodes(h) + Lists(h) + Chunks(h)
  }

  /** Node set `t` and list set `l` are closed under reference. */
  ghost predicate Closed(t: set<Hash>, l: set<Hash>) {
    forall h :: h in t ==> ChildNodes(h) <= t && ListsOf(h) <= l
  }

  /** All of it, and the chunks, are in the store. */
  ghost predicate Sound(store: set<Hash>, t: set<Hash>, l: set<Hash>) {
    && t <= store && l <= store && Closed(t, l)
    && (forall h :: h in l ==> ChunksOf(h) <= store)
  }

  lemma {:induction false} ClosedNodes(t: set<Hash>, h: Hash)
    requires h in t && forall n :: n in t ==> ChildNodes(n) <= t
    ensures Nodes(h) <= t
    decreases h
  {
    hide ChildNodes;
    forall x | x in Nodes(h) ensures x in t {
      if x != h {
        var k :| k in ChildNodes(h) && x in Nodes(k);
        ClosedNodes(t, k);
      }
    }
  }

  lemma {:induction false} SoundReach(store: set<Hash>, t: set<Hash>, l: set<Hash>, h: Hash)
    requires Sound(store, t, l) && h in t
    ensures Nodes(h) <= t && Lists(h) <= l && Reach(h) <= store
  {
    hide Nodes, ChildNodes, ListsOf, ChunksOf;
    ClosedNodes(t, h);
  }

  lemma {:induction false} NodesClosed(h: Hash, n: Hash)
    requires n in Nodes(h)
    ensures ChildNodes(n) <= Nodes(h)
    decreases h
  {
    hide ChildNodes;
    if n == h {
      forall k | k in ChildNodes(h) ensures k in Nodes(h) {
        assert k in Nodes(k);
      }
    } else {
      var k :| k in ChildNodes(h) && n in Nodes(k);
      NodesClosed(k, n);
    }
  }

  lemma {:induction false} ReachSound(store: set<Hash>, h: Hash)
    requires Reach(h) <= store
    ensures Sound(store, Nodes(h), Lists(h)) && h in Nodes(h)
  {
    hide ChildNodes, ListsOf, ChunksOf;
    forall n | n in Nodes(h) ensures ChildNodes(n) <= Nodes(h) && ListsOf(n) <= Lists(h) {
      NodesClosed(h, n);
    }
    forall l | l in Lists(h) ensures ChunksOf(l) <= store {
      forall c | c in ChunksOf(l) ensures c in Chunks(h) {
      }
    }
  }

  /** What a node needs, the nodes above it need. */
  lemma {:induction false} ReachTrans(h: Hash, k: Hash)
    requires k in Nodes(h)
    ensures Nodes(k) <= Nodes(h) && Reach(k) <= Reach(h)
  {
    hide Nodes, Reach;
    ReachSound(Reach(h), h);
    SoundReach(Reach(h), Nodes(h), Lists(h), k);
  }

  // ── Mark ──

  /** The parts are told apart: no chunk is parsed as a node or as a list, and no list as a node. */
  ghost predicate Separated(h: Hash) {
    Chunks(h) !! (Nodes(h) + Lists(h)) && Nodes(h) !! Lists(h)
  }

  /** All the walk needs of that: an object met in two parts refers to nothing. */
  ghost predicate Harmless(h: Hash) {
    && (forall x :: x in Chunks(h) && x in Nodes(h) ==> ChildNodes(x) == {} && ListsOf(x) == {})
    && (forall x :: x in Chunks(h) && x in Lists(h) ==> ChunksOf(x) == {})
    && (forall x :: x in Lists(h) && x in Nodes(h) ==> ChildNodes(x) == {} && ListsOf(x) == {} && ChunksOf(x) == {})
  }

  lemma {:induction false} SeparatedHarmless(h: Hash)
    requires Separated(h)
    ensures Harmless(h)
  {
    hide Nodes, Lists, Chunks, ChildNodes, ListsOf, ChunksOf;
    forall x | x in Chunks(h)
      ensures x !in Nodes(h) && x !in Lists(h)
    {
      assert x !in Nodes(h) + Lists(h);
    }
  }

  /** A set that holds, with each node or list of the tree it has, everything that one refers to. */
  ghost predicate ClosedFor(live: set<Hash>, root: Hash) {
    && (forall n :: n in live && n in Nodes(root) ==> ChildNodes(n) <= live && ListsOf(n) <= live)
    && (forall l :: l in live && l in Lists(root) ==> ChunksOf(l) <= live)
  }

  predicate Readable(store: set<Hash>, h: Hash) {
    h in store && DecodeNode(h.content).Some?
  }

  /** Every object the walk reads is there and parses. */
  ghost predicate AllReadable(store: set<Hash>, root: Hash) {
    && (forall n :: n in Nodes(root) ==> Readable(store, n))
    && (forall l :: l in Lists(root) ==> l in store && DecodeList(l.content).Some?)
  }

  function SetOf(s: seq<Hash>): set<Hash> {
    set h | h in s
  }

  /** During the walk: `busy` nodes are marked, and every other marked node has had all it refers to
      marked; a marked list always has. */
  ghost predicate Walking(start: set<Hash>, live: set<Hash>, busy: set<Hash>, root: Hash) {
    && start <= live <= start + Reach(root) && root in live
    && busy <= live && busy <= Nodes(root)
    && (forall n :: n in live && n in Nodes(root) && n !in busy ==> ChildNodes(n) <= live && ListsOf(n) <= live)
    && (forall l :: l in live && l in Lists(root) ==> ChunksOf(l) <= live)
  }

  lemma {:induction false} NodeItself(h: Hash)
    ensures h in Nodes(h)
  {
  }

  lemma {:induction false} WalkStart(start: set<Hash>, root: Hash)
    requires ClosedFor(start, root) && Harmless(root)
    ensures root in start ==> Walking(start, start, {}, root)
    ensures root !in start ==> Walking(start, start + {root}, {root}, root)
  {
    hide Nodes, ChildNodes, ListsOf, ChunksOf, Lists, Chunks;
    NodeItself(root);
  }

  lemma {:induction false} WalkNode(start: set<Hash>, live: set<Hash>, busy: set<Hash>, root: Hash, c: Hash)
    requires Walking(start, live, busy, root) && Harmless(root) && c in Nodes(root)
    ensures Walking(start, live + {c}, if c in live then busy else busy + {c}, root)
  {
    hide Nodes, ChildNodes, ListsOf, ChunksOf, Lists, Chunks;
    if c in live {
      assert live + {c} == live;
    }
  }

  lemma {:induction false} WalkList(start: set<Hash>, live: set<Hash>, busy: set<Hash>, root: Hash, l: Hash)
    requires Walking(start, live, busy, root) && Harmless(root) && l in Lists(root)
    ensures Walking(start, live + {l} + ChunksOf(l), busy, root)
    ensures ChunksOf(l) <= Chunks(root)
  {
    hide Nodes, ChildNodes, ListsOf, ChunksOf, Lists;
    forall c | c in ChunksOf(l) ensures c in Chunks(root) {
    }
  }

  lemma {:induction false} WalkDone(start: set<Hash>, live: set<Hash>, busy: set<Hash>, root: Hash, h: Hash)
    requires Walking(start, live, busy + {h}, root) && ChildNodes(h) <= live && ListsOf(h) <= live
    ensures Walking(start, live, busy, root)
  {
    hide Nodes, ChildNodes, ListsOf, ChunksOf, Lists, Reach;
  }

  lemma {:induction false} WalkedNodes(live: set<Hash>, root: Hash, h: Hash)
    requires h in live && h in Nodes(root)
    requires forall n :: n in live && n in Nodes(root) ==> ChildNodes(n) <= live
    ensures Nodes(h) <= live
    decreases h
  {
    hide ChildNodes;
    forall x | x in Nodes(h) ensures x in live {
      if x != h {
        var k :| k in ChildNodes(h) && x in Nodes(k);
        NodesClosed(root, h);
        WalkedNodes(live, root, k);
      }
    }
  }

  lemma {:induction false} WalkedAll(start: set<Hash>, live: set<Hash>, root: Hash)
    requires Walking(start, live, {}, root)
    ensures live == start + Reach(root)
  {
    hide Nodes, ChildNodes, ListsOf, ChunksOf;
    NodeItself(root);
    WalkedNodes(live, root, root);
    forall l | l in Lists(root) ensures l in live {
      var n :| n in Nodes(root) && l in ListsOf(n);
    }
    forall c | c in Chunks(root) ensures c in live {
      var l :| l in Lists(root) && c in ChunksOf(l);
    }
  }

  lemma {:induction false} SetPush(s: seq<Hash>, h: Hash)
    ensures SetOf(s + [h]) == SetOf(s) + {h}
  {
  }

  method MarkChildren(ks: seq<Child>, live0: set<Hash>, stack0: seq<Hash>,
                      ghost start: set<Hash>, ghost root: Hash, ghost h: Hash)
    returns (live: set<Hash>, stack: seq<Hash>)
    requires Walking(start, live0, SetOf(stack0) + {h}, root) && Harmless(root)
    requires forall i :: 0 <= i < |ks| ==> ks[i].hash in Nodes(root)
    ensures Walking(start, live, SetOf(stack) + {h}, root)
    ensures forall i :: 0 <= i < |ks| ==> ks[i].hash in live
    ensures live0 <= live && (live == live0 ==> stack == stack0)
  {
    hide Walking, Harmless, Nodes, SetOf;
    live, stack := live0, stack0;
    for i := 0 to |ks|
      invariant Walking(start, live, SetOf(stack) + {h}, root)
      invariant forall j :: 0 <= j < i ==> ks[j].hash in live
      invariant live0 <= live && (live == live0 ==> stack == stack0)
    {
      var c := ks[i].hash;
      WalkNode(start, live, SetOf(stack) + {h}, root, c);
      if c !in live {
        SetPush(stack, c);
        assert SetOf(stack) + {h} + {c} == SetOf(stack) + {c} + {h};
        live := live + {c};
        stack := stack + [c];
      }
    }
  }

  method MarkEntries(store: set<Hash>, es: seq<Entry>, live0: set<Hash>, stack0: seq<Hash>,
                     ghost start: set<Hash>, ghost root: Hash, ghost h: Hash)
    returns (ok: bool, live: set<Hash>, stack: seq<Hash>)
    requires Walking(start, live0, SetOf(stack0) + {h}, root) && Harmless(root)
    requires forall i :: 0 <= i < |es| && es[i].content.DirRoot? ==> es[i].content.root in Nodes(root)
    requires forall i :: 0 <= i < |es| && es[i].content.ChunkList? ==> es[i].content.list in Lists(root)
    ensures ok ==> Walking(start, live, SetOf(stack) + {h}, root)
    ensures ok ==> forall i :: 0 <= i < |es| && es[i].content.DirRoot? ==> es[i].content.root in live
    ensures ok ==> forall i :: 0 <= i < |es| && es[i].content.ChunkList? ==> es[i].content.list in live
    ensures ok ==> live0 <= live && (live == live0 ==> stack == stack0)
    ensures AllReadable(store, root) ==> ok
  {
    hide Walking, Harmless, Nodes, Lists, SetOf, DecodeList;
    live, stack := live0, stack0;
    for i := 0 to |es|
      invariant Walking(start, live, SetOf(stack) + {h}, root)
      invariant forall j :: 0 <= j < i && es[j].content.DirRoot? ==> es[j].content.root in live
      invariant forall j :: 0 <= j < i && es[j].content.ChunkList? ==> es[j].content.list in live
      invariant live0 <= live && (live == live0 ==> stack == stack0)
    {
      match es[i].content {
        case Inline(_) =>
        case ChunkList(l) =>
          if l !in live {
            if l !in store || DecodeList(l.content).None? {
              return false, live, stack;
            }
            WalkList(start, live, SetOf(stack) + {h}, root, l);
            live := live + {l} + HashesOf(DecodeList(l.content).value);
          }
        case DirRoot(c) =>
          WalkNode(start, live, SetOf(stack) + {h}, root, c);
          if c !in live {
            SetPush(stack, c);
            assert SetOf(stack) + {h} + {c} == SetOf(stack) + {c} + {h};
            live := live + {c};
            stack := stack + [c];
          }
      }
    }
    ok := true;
  }

  lemma {:induction false} InternalRefs(h: Hash, root: Hash)
    requires h in Nodes(root) && DecodeNode(h.content).Some? && DecodeNode(h.content).value.body.Internal?
    ensures var ks := DecodeNode(h.content).value.body.children;
            && (forall i :: 0 <= i < |ks| ==> ks[i].hash in Nodes(root))
            && ListsOf(h) == {} && ChildNodes(h) == set i | 0 <= i < |ks| :: ks[i].hash
  {
    hide DecodeNode;
    NodesClosed(root, h);
    var ks := DecodeNode(h.content).value.body.children;
    forall i | 0 <= i < |ks| ensures ks[i].hash in Nodes(root) {
      assert ks[i].hash in ChildNodes(h);
    }
  }

  lemma {:induction false} LeafRefs(h: Hash, root: Hash)
    requires h in Nodes(root) && DecodeNode(h.content).Some? && DecodeNode(h.content).value.body.Leaf?
    ensures var es := DecodeNode(h.content).value.body.entries;
            && (forall i :: 0 <= i < |es| && es[i].content.DirRoot? ==> es[i].content.root in Nodes(root))
            && (forall i :: 0 <= i < |es| && es[i].content.ChunkList? ==> es[i].content.list in Lists(root))
            && ChildNodes(h) == (set i | 0 <= i < |es| && es[i].content.DirRoot? :: es[i].content.root)
            && ListsOf(h) == (set i | 0 <= i < |es| && es[i].content.ChunkList? :: es[i].content.list)
  {
    hide DecodeNode, Nodes;
    NodesClosed(root, h);
    var es := DecodeNode(h.content).value.body.entries;
    forall i | 0 <= i < |es| && es[i].content.DirRoot? ensures es[i].content.root in Nodes(root) {
      assert es[i].content.root in ChildNodes(h);
    }
    forall i | 0 <= i < |es| && es[i].content.ChunkList? ensures es[i].content.list in Lists(root) {
      assert es[i].content.list in ListsOf(h);
    }
  }

  /** One node taken off the stack. */
  method MarkOne(store: set<Hash>, h: Hash, live0: set<Hash>, stack0: seq<Hash>,
                 ghost start: set<Hash>, ghost root: Hash)
    returns (ok: bool, live: set<Hash>, stack: seq<Hash>)
    requires Walking(start, live0, SetOf(stack0) + {h}, root) && Harmless(root) && h in Nodes(root)
    ensures ok ==> Walking(start, live, SetOf(stack), root)
    ensures ok ==> live0 <= live && (live == live0 ==> stack == stack0)
    ensures AllReadable(store, root) ==> ok
  {
    hide Walking, Harmless, Nodes, Lists, SetOf, DecodeNode, ChildNodes, ListsOf;
    if !Readable(store, h) {
      return false, live0, stack0;
    }
    match DecodeNode(h.content).value.body {
      case Internal(ks) =>
        InternalRefs(h, root);
        live, stack := MarkChildren(ks, live0, stack0, start, root, h);
        ok := true;
      case Leaf(es) =>
        LeafRefs(h, root);
        ok, live, stack := MarkEntries(store, es, live0, stack0, start, root, h);
        if !ok {
          return;
        }
    }
    WalkDone(start, live, SetOf(stack), root, h);
  }

  /** The mark walk terminates with exactly the start and everything reachable from the root. It fails
      only when an object is missing or malformed. */
  method Mark(store: set<Hash>, root: Hash, start: set<Hash>) returns (ok: bool, live: set<Hash>)
    requires ClosedFor(start, root) && Harmless(root)
    ensures ok ==> live == start + Reach(root)
    ensures AllReadable(store, root) ==> ok
  {
    hide Harmless, Nodes, Lists, ChildNodes, ListsOf, ChunksOf, AllReadable, Reach;
    live := start;
    var stack: seq<Hash> := [];
    WalkStart(start, root);
    if root !in live {
      live := live + {root};
      stack := [root];
      assert SetOf(stack) == {root};
    } else {
      assert SetOf(stack) == {};
    }
    while stack != []
      invariant Walking(start, live, SetOf(stack), root)
      decreases start + Reach(root) - live, |stack|
    {
      var h := stack[|stack| - 1];
      var rest := stack[..|stack| - 1];
      SetPush(rest, h);
      assert stack == rest + [h];
      ghost var live0 := live;
      ok, live, stack := MarkOne(store, h, live, rest, start, root);
      if !ok {
        return;
      }
      assert live != live0 ==> start + Reach(root) - live < start + Reach(root) - live0 by {
        Shrinks(start + Reach(root), live0, live);
      }
    }
    assert SetOf(stack) == {};
    WalkedAll(start, live, root);
    ok := true;
  }

  lemma {:induction false} Shrinks(all: set<Hash>, a: set<Hash>, b: set<Hash>)
    requires a <= b <= all
    ensures a != b ==> all - b < all - a
  {
    if a != b {
      var x :| x in b && x !in a;
      assert x in all - a && x !in all - b;
    }
  }

  // ── Trees the engine builds ──

  predicate AllRaw(c: seq<Cell>) {
    forall i :: 0 <= i < |c| ==> c[i].Raw?
  }

  /** Every node and list of the tree parses, and content chunks are plain bytes. */
  ghost predicate Sane(root: Hash) {
    && (forall n :: n in Nodes(root) ==> DecodeNode(n.content).Some?)
    && (forall l :: l in Lists(root) ==> DecodeList(l.content).Some?)
    && (forall c :: c in Chunks(root) ==> AllRaw(c.content))
  }

  lemma {:induction false} RawHoldsNone(c: seq<Cell>, h: Hash)
    requires AllRaw(c)
    ensures !Holds(c, h)
  {
  }

  lemma {:induction false} RawRefersToNothing(h: Hash)
    requires AllRaw(h.content)
    ensures ChildNodes(h) == {} && ListsOf(h) == {} && ChunksOf(h) == {}
  {
    hide DecodeNode, DecodeList, Holds, AllRaw;
    if DecodeNode(h.content).Some? {
      NodeHeld(h.content);
      forall k ensures k !in ChildNodes(h) && k !in ListsOf(h) {
        RawHoldsNone(h.content, k);
        match DecodeNode(h.content).value.body
        case Leaf(es) =>
          forall i | 0 <= i < |es| ensures k !in EntryRefs(es[i]) {
          }
          assert forall i :: 0 <= i < |es| && es[i].content.DirRoot? ==> es[i].content.root in EntryRefs(es[i]);
          assert forall i :: 0 <= i < |es| && es[i].content.ChunkList? ==> es[i].content.list in EntryRefs(es[i]);
        case Internal(ks) =>
      }
    }
    if DecodeList(h.content).Some? {
      RawList(h.content);
    }
  }

  lemma {:induction false} RawList(c: seq<Cell>)
    requires AllRaw(c) && DecodeList(c).Some?
    ensures DecodeList(c).value == []
  {
    hide UnLe, Low;
  }

  /** No object is both a node and a list that refers to something. */
  lemma {:induction false} NodeOrList(h: Hash)
    requires DecodeNode(h.content).Some? && DecodeList(h.content).Some?
    ensures ChildNodes(h) == {} && ListsOf(h) == {} && ChunksOf(h) == {}
  {
    hide UnLe, Low, TakeEntries;
  }

  /** Closed under reference, whatever part an object plays. */
  ghost predicate LiveClosed(live: set<Hash>) {
    forall h :: h in live ==>
      && (DecodeNode(h.content).Some? ==> ChildNodes(h) <= live && ListsOf(h) <= live)
      && (DecodeList(h.content).Some? ==> ChunksOf(h) <= live)
  }

  lemma {:induction false} ReachLiveClosed(live: set<Hash>, root: Hash)
    requires LiveClosed(live) && Sane(root)
    ensures LiveClosed(live + Reach(root))
  {
    hide Nodes, DecodeNode, DecodeList, ChildNodes, ListsOf, ChunksOf, AllRaw;
    forall h | h in Reach(root)
      ensures DecodeNode(h.content).Some? ==> ChildNodes(h) <= Reach(root) && ListsOf(h) <= Reach(root)
      ensures DecodeList(h.content).Some? ==> ChunksOf(h) <= Reach(root)
    {
      if h in Chunks(root) {
        RawRefersToNothing(h);
      } else {
        if DecodeNode(h.content).Some? && DecodeList(h.content).Some? {
          NodeOrList(h);
        }
        if h in Nodes(root) {
          ReachSound(Reach(root), root);
        }
      }
    }
  }

  /** So the walk over several sane trees is exact. */
  lemma {:induction false} SaneMark(live: set<Hash>, root: Hash, store: set<Hash>)
    requires LiveClosed(live) && Sane(root)
    ensures ClosedFor(live, root) && Harmless(root)
    ensures Reach(root) <= store ==> AllReadable(store, root)
  {
    hide Nodes, Lists, Chunks, DecodeNode, DecodeList, ChildNodes, ListsOf, ChunksOf, AllRaw;
    forall x | x in Chunks(root)
      ensures ChildNodes(x) == {} && ListsOf(x) == {} && ChunksOf(x) == {}
    {
      RawRefersToNothing(x);
    }
    forall x | x in Lists(root) && x in Nodes(root)
      ensures ChildNodes(x) == {} && ListsOf(x) == {} && ChunksOf(x) == {}
    {
      NodeOrList(x);
    }
  }
}
