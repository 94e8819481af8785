/** A directory's tree as it is stored: its nodes level by level, read back from their cells, and where nodes end. */
module NodeLevels {
  import opened Cells
  import opened Entries

  function EntryImages(d: seq<Entry>): (cs: seq<seq<Cell>>)
    requires Named(d)
    ensures |cs| == |d|
  {
    seq(|d|, i requires 0 <= i < |d| => EntryCells(d[i]))
  }

  function ChildImages(ks: seq<Child>): (cs: seq<seq<Cell>>)
    requires Keyed(ks)
    ensures |cs| == |ks|
  {
    seq(|ks|, i requires 0 <= i < |ks| => ChildCells(ks[i]))
  }

  /** The stored forms of a node's entries or children. */
  function Items(h: Hash): seq<seq<Cell>> {
    match DecodeNode(h.content)
    case None => []
    case Some(Node(_, Leaf(es))) => if Named(es) then EntryImages(es) else []
    case Some(Node(_, Internal(ks))) => if Keyed(ks) then ChildImages(ks) else []
  }

  function HashSeq(ks: seq<Child>): (hs: seq<Hash>)
    ensures |hs| == |ks|
  {
    seq(|ks|, i requires 0 <= i < |ks| => ks[i].hash)
  }

  function Kids(h: Hash): seq<Hash> {
    match DecodeNode(h.content)
    case Some(Node(_, Internal(ks))) => HashSeq(ks)
    case _ => []
  }

  function Below(hs: seq<Hash>): seq<Hash> {
    if hs == [] then [] else Kids(hs[0]) + Below(hs[1..])
  }

  /** The nodes `k` steps below the root, in order. */
  function Depth(root: Hash, k: nat): seq<Hash> {
    if k == 0 then [root] else Below(Depth(root, k - 1))
  }

  function LevelOf(h: Hash): Option<nat> {
    var node :- DecodeNode(h.content); Some(node.level)
  }

  predicate IsLast(blocks: seq<seq<seq<Cell>>>, i: nat, j: nat) {
    i < |blocks| && i == |blocks| - 1 && j == |blocks[i]| - 1
  }

  /** An item that is not the level's last ends its node if and only if the split test holds of it or it is the 128th of
      the node. */
  ghost predicate EndsRight(blocks: seq<seq<seq<Cell>>>, cut: seq<Cell> -> bool) {
    && (forall i :: 0 <= i < |blocks| ==> 0 < |blocks[i]| <= MAX_NODE_ENTRIES)
    && (forall i, j :: 0 <= i < |blocks| && 0 <= j < |blocks[i]| && !IsLast(blocks, i, j) ==>
          (j == |blocks[i]| - 1 <==> cut(blocks[i][j]) || j == MAX_NODE_ENTRIES - 1))
  }

  function ItemsOf(hs: seq<Hash>): (bs: seq<seq<seq<Cell>>>)
    ensures |bs| == |hs|
  {
    seq(|hs|, i requires 0 <= i < |hs| => Items(hs[i]))
  }

  /** One level of the tree: stored, numbered, and cut by the split test. */
  ghost predicate LevelRight(store: set<Hash>, hs: seq<Hash>, level: nat, cut: seq<Cell> -> bool) {
    && (forall i :: 0 <= i < |hs| ==> hs[i] in store && LevelOf(hs[i]) == Some(level))
    && EndsRight(ItemsOf(hs), cut)
  }

  /** The whole tree: every level down to the leaves is so, and only the top one is a single node. */
  ghost predicate WellCut(store: set<Hash>, root: Hash, top: nat, cut: seq<Cell> -> bool) {
    && LevelOf(root) == Some(top)
    && (forall k :: 0 <= k <= top ==> LevelRight(store, Depth(root, k), top - k, cut))
    && (forall k :: 0 < k <= top ==> |Depth(root, k)| > 1)
  }
}
