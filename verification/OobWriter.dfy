/** The writer side of out-of-band data: pieces of a large transaction are appended as nodes of a
    forest of perfect binary trees, with savepoints to roll back to. What the reader's post-order
    traversal of the result gives is the pieces in the order they were appended.
  */
module OobWriting {
  import opened BinlogFormat
  import opened OobForest
  import opened OobReading
  import C = CompressedInt

  /** The root of one tree of the forest. */
  datatype NodeInfo = NodeInfo(at: Addr, index: nat, height: nat)

  /** Nodes of a perfect binary tree. */
  function PerfectSize(height: nat): nat {
    if height == 0 then 0 else 2 * PerfectSize(height - 1) + 1
  }

  function Join(pieces: seq<seq<Byte>>): seq<Byte> {
    if pieces == [] then [] else Join(pieces[..|pieces| - 1]) + pieces[|pieces| - 1]
  }

  lemma {:induction false} JoinConcat(a: seq<seq<Byte>>, b: seq<seq<Byte>>)
    ensures Join(a + b) == Join(a) + Join(b)
  {
    if b == [] {
      assert a + b == a;
    } else {
      var b' := b[..|b| - 1];
      assert (a + b)[..|a + b| - 1] == a + b';
      JoinConcat(a, b');
    }
  }

  lemma JoinOne(pieces: seq<seq<Byte>>, d: seq<Byte>)
    ensures Join(pieces + [d]) == Join(pieces) + d
  {
    assert (pieces + [d])[..|pieces|] == pieces;
  }

  // ----- the heap only grows -----

  ghost predicate Extends(h: Heap, h': Heap) {
    forall a :: a in h ==> a in h' && h'[a] == h[a]
  }

  lemma {:induction false} SameInExtension(h: Heap, h': Heap, a: Addr, leftmost: bool, t: Tree)
    requires Extends(h, h') && Unfolds(h, a, leftmost, t)
    ensures Unfolds(h', a, leftmost, t) && PostOrder(h', a, leftmost, t) == PostOrder(h, a, leftmost, t)
    decreases t
  {
    match t
    case LeafAfter(prior) => SameInExtension(h, h', h[a].right, true, prior);
    case Branch(l, r) =>
      SameInExtension(h, h', h[a].left, leftmost, l);
      SameInExtension(h, h', h[a].right, false, r);
    case _ =>
  }

  /** What was readable stays readable, with the same contents. */
  lemma ContentsKept(h: Heap, h': Heap, a: Addr, leftmost: bool)
    requires Extends(h, h') && Contents(h, a, leftmost).end == Done
    ensures Finite(h', a, leftmost) && Contents(h', a, leftmost) == Contents(h, a, leftmost)
  {
    var t := TreeAt(h, a, leftmost);
    SameInExtension(h, h', a, leftmost, t);
    ContentsAre(h', a, leftmost, t);
  }

  // ----- the forest -----

  /** The last tree holds the last pieces, and through its left-most leaf the pieces before. */
  ghost predicate LastHolds(h: Heap, nodes: seq<NodeInfo>, pieces: seq<seq<Byte>>)
    requires nodes != []
  {
    var n := nodes[|nodes| - 1];
    var size := PerfectSize(n.height);
    && n.at != NIL && n.height > 0 && n.index + 1 == |pieces| && size <= |pieces|
    && Contents(h, n.at, true) == Flow(Join(pieces), Done)
    && Contents(h, n.at, false) == Flow(Join(pieces[|pieces| - size..]), Done)
  }

  /** The trees hold the pieces, in order. */
  ghost predicate Holds(h: Heap, nodes: seq<NodeInfo>, pieces: seq<seq<Byte>>)
    decreases |nodes|
  {
    if nodes == [] then pieces == []
    else
      && LastHolds(h, nodes, pieces)
      && Holds(h, nodes[..|nodes| - 1], pieces[..|pieces| - PerfectSize(nodes[|nodes| - 1].height)])
  }

  lemma {:induction false} HoldsKept(h: Heap, h': Heap, nodes: seq<NodeInfo>, pieces: seq<seq<Byte>>)
    requires Extends(h, h') && Holds(h, nodes, pieces)
    ensures Holds(h', nodes, pieces)
    decreases |nodes|
  {
    if nodes != [] {
      var n := nodes[|nodes| - 1];
      ContentsKept(h, h', n.at, true);
      ContentsKept(h, h', n.at, false);
      HoldsKept(h, h', nodes[..|nodes| - 1], pieces[..|pieces| - PerfectSize(n.height)]);
    }
  }

  /** Whether the last two trees have the same height and are merged by the next node. */
  predicate Merges(nodes: seq<NodeInfo>) {
    |nodes| >= 2 && nodes[|nodes| - 2].height == nodes[|nodes| - 1].height
  }

  /** The node record for the next piece. */
  function NewNode(nodes: seq<NodeInfo>, data: seq<Byte>): Node {
    var i := |nodes|;
    if Merges(nodes) then Node(nodes[i - 2].at, nodes[i - 1].at, data)
    else if i > 0 then Node(NIL, nodes[i - 1].at, data)
    else Node(NIL, NIL, data)
  }

  /** The forest after the next piece, whose record was written at `at`. */
  function Appended(nodes: seq<NodeInfo>, at: Addr): seq<NodeInfo> {
    var i := |nodes|;
    var index := if i == 0 then 0 else nodes[i - 1].index + 1;
    if Merges(nodes) then nodes[..i - 2] + [NodeInfo(at, index, 1 + nodes[i - 2].height)]
    else nodes + [NodeInfo(at, index, 1)]
  }

  lemma LeafAlone(h: Heap, a: Addr, leftmost: bool)
    requires a in h && h[a].Node? && h[a].left == NIL && !(leftmost && h[a].right != NIL)
    ensures Contents(h, a, leftmost) == Flow(h[a].data, Done)
  {
    ContentsAre(h, a, leftmost, Leaf);
  }

  lemma LeafAfterTrees(h: Heap, a: Addr, bytes: seq<Byte>)
    requires a in h && h[a].Node? && h[a].left == NIL && h[a].right != NIL
    requires Contents(h, h[a].right, true) == Flow(bytes, Done)
    ensures Contents(h, a, true) == Flow(bytes + h[a].data, Done)
  {
    var prior := TreeAt(h, h[a].right, true);
    assert Unfolds(h, a, true, LeafAfter(prior));
    ContentsAre(h, a, true, LeafAfter(prior));
  }

  lemma AppendedLeaf(h: Heap, nodes: seq<NodeInfo>, pieces: seq<seq<Byte>>, at: Addr, data: seq<Byte>)
    requires Holds(h, nodes, pieces) && !Merges(nodes) && at !in h && at != NIL
    ensures var h' := h[at := NewNode(nodes, data)]; Holds(h', Appended(nodes, at), pieces + [data])
  {
    hide Contents, Join;
    var h' := h[at := NewNode(nodes, data)];
    var all := pieces + [data];
    HoldsKept(h, h', nodes, pieces);
    JoinOne(pieces, data);
    JoinOne([], data);
    JoinNone();
    LeafAlone(h', at, false);
    assert all[|all| - 1..] == [] + [data] && all[..|all| - 1] == pieces;
    assert Appended(nodes, at)[..|nodes|] == nodes;
    if nodes == [] {
      LeafAlone(h', at, true);
    } else {
      LeafAfterTrees(h', at, Join(pieces));
    }
  }

  lemma JoinNone()
    ensures Join([]) == []
  {
  }

  /** The last two trees of a forest: what each holds. */
  lemma LastTwo(h: Heap, nodes: seq<NodeInfo>, pieces: seq<seq<Byte>>)
    requires Holds(h, nodes, pieces) && Merges(nodes)
    ensures var i := |nodes|; var size := PerfectSize(nodes[i - 1].height);
            && 2 * size <= |pieces| && nodes[i - 1].index + 1 == |pieces| && nodes[i - 1].height > 0
            && var base, l, r := pieces[..|pieces| - 2 * size], pieces[|pieces| - 2 * size..|pieces| - size], pieces[|pieces| - size..];
               && Holds(h, nodes[..i - 2], base)
               && pieces == base + l + r
               && nodes[i - 2].at != NIL
               && Contents(h, nodes[i - 2].at, true) == Flow(Join(base + l), Done)
               && Contents(h, nodes[i - 2].at, false) == Flow(Join(l), Done)
               && Contents(h, nodes[i - 1].at, false) == Flow(Join(r), Done)
  {
    hide Contents, Join, PerfectSize;
    var i := |nodes|;
    var size := PerfectSize(nodes[i - 1].height);
    var before := pieces[..|pieces| - size];
    assert LastHolds(h, nodes, pieces);
    assert Holds(h, nodes[..i - 1], before) && LastHolds(h, nodes[..i - 1], before);
    assert nodes[..i - 1][..i - 2] == nodes[..i - 2];
    var base := pieces[..|pieces| - 2 * size];
    assert before[..|before| - size] == base;
    assert before[|before| - size..] == pieces[|pieces| - 2 * size..|pieces| - size];
    assert base + pieces[|pieces| - 2 * size..|pieces| - size] == before;
  }

  lemma AppendedBranch(h: Heap, nodes: seq<NodeInfo>, pieces: seq<seq<Byte>>, at: Addr, data: seq<Byte>)
    requires Holds(h, nodes, pieces) && Merges(nodes) && at !in h && at != NIL
    ensures var h' := h[at := NewNode(nodes, data)]; Holds(h', Appended(nodes, at), pieces + [data])
  {
    hide Contents, Join;
    var h' := h[at := NewNode(nodes, data)];
    var i := |nodes|;
    HoldsKept(h, h', nodes, pieces);
    LastTwo(h', nodes, pieces);
    var size := PerfectSize(nodes[i - 1].height);
    var base, l, r := pieces[..|pieces| - 2 * size], pieces[|pieces| - 2 * size..|pieces| - size], pieces[|pieces| - size..];
    BranchContents(h', at, true, data, Join(base + l), Join(r));
    BranchContents(h', at, false, data, Join(l), Join(r));
    JoinConcat(base + l, r);
    JoinConcat(l, r);
    JoinOne(pieces, data);
    JoinOne(l + r, data);
    var all := pieces + [data];
    assert PerfectSize(1 + nodes[i - 2].height) == 2 * size + 1;
    assert all[|base|..] == l + r + [data] && all[..|base|] == base;
    var nodes' := Appended(nodes, at);
    assert nodes'[..|nodes'| - 1] == nodes[..i - 2];
    assert LastHolds(h', nodes', all);
  }

  lemma BranchContents(h: Heap, a: Addr, leftmost: bool, data: seq<Byte>, left: seq<Byte>, right: seq<Byte>)
    requires a in h && h[a].Node? && h[a].left != NIL && h[a].data == data
    requires Contents(h, h[a].left, leftmost) == Flow(left, Done) && Contents(h, h[a].right, false) == Flow(right, Done)
    ensures Contents(h, a, leftmost) == Flow(left + right + data, Done)
  {
    var t := Branch(TreeAt(h, h[a].left, leftmost), TreeAt(h, h[a].right, false));
    assert Unfolds(h, a, leftmost, t);
    ContentsAre(h, a, leftmost, t);
  }

  // ----- the number of trees is logarithmic -----

  /** Heights decrease strictly from tree to tree, except that the last two may be equal. */
  ghost predicate Decreasing(nodes: seq<NodeInfo>) {
    && (forall i :: 0 <= i < |nodes| ==> nodes[i].height > 0)
    && (forall i :: 0 <= i < |nodes| - 1 ==> nodes[i].height >= nodes[i + 1].height)
    && (forall i :: 0 <= i < |nodes| - 2 ==> nodes[i].height > nodes[i + 1].height)
  }

  lemma AppendedDecreasing(nodes: seq<NodeInfo>, at: Addr)
    requires Decreasing(nodes)
    ensures Decreasing(Appended(nodes, at))
  {
    var nodes' := Appended(nodes, at);
    forall i | 0 <= i < |nodes'| - 1
      ensures nodes'[i].height >= nodes'[i + 1].height
      ensures i < |nodes'| - 2 ==> nodes'[i].height > nodes'[i + 1].height
    {
      if Merges(nodes) {
        assert nodes[i].height > nodes[i + 1].height;
      } else if i < |nodes| - 1 {
        assert nodes[i].height >= nodes[i + 1].height;
      }
    }
  }

  lemma {:induction false} FirstIsTall(nodes: seq<NodeInfo>)
    requires Decreasing(nodes) && nodes != []
    ensures nodes[0].height + 1 >= |nodes|
  {
    if |nodes| >= 3 {
      var rest := nodes[1..];
      assert nodes[0].height > nodes[1].height;
      forall i | 0 <= i < |rest| - 1
        ensures rest[i].height >= rest[i + 1].height
        ensures i < |rest| - 2 ==> rest[i].height > rest[i + 1].height
      {
        assert rest[i] == nodes[i + 1] && rest[i + 1] == nodes[i + 1 + 1];
        assert nodes[i + 1].height >= nodes[i + 1 + 1].height;
      }
      FirstIsTall(rest);
    }
  }

  lemma {:induction false} FirstIsFull(h: Heap, nodes: seq<NodeInfo>, pieces: seq<seq<Byte>>)
    requires Holds(h, nodes, pieces) && nodes != []
    ensures PerfectSize(nodes[0].height) <= |pieces|
    decreases |nodes|
  {
    if |nodes| > 1 {
      FirstIsFull(h, nodes[..|nodes| - 1], pieces[..|pieces| - PerfectSize(nodes[|nodes| - 1].height)]);
    }
  }

  lemma {:induction false} PerfectGrows(a: nat, b: nat)
    requires a <= b
    ensures PerfectSize(a) <= PerfectSize(b)
  {
    if a < b {
      PerfectGrows(a, b - 1);
    }
  }

  /** With `n` trees, at least 2^(n-1) - 1 pieces have been written. */
  lemma FewTrees(h: Heap, nodes: seq<NodeInfo>, pieces: seq<seq<Byte>>)
    requires Holds(h, nodes, pieces) && Decreasing(nodes) && nodes != []
    ensures PerfectSize(|nodes| - 1) <= |pieces|
  {
    FirstIsTall(nodes);
    FirstIsFull(h, nodes, pieces);
    PerfectGrows(|nodes| - 1, nodes[0].height);
  }

  // ----- the context of a transaction -----

  ghost predicate Good(h: Heap, nodes: seq<NodeInfo>, pieces: seq<seq<Byte>>) {
    Holds(h, nodes, pieces) && Decreasing(nodes)
  }

  lemma GoodAppended(h: Heap, grown: Heap, nodes: seq<NodeInfo>, pieces: seq<seq<Byte>>, at: Addr, data: seq<Byte>)
    requires Good(h, nodes, pieces) && Extends(h, grown) && at !in grown && at != NIL
    ensures Good(grown[at := NewNode(nodes, data)], Appended(nodes, at), pieces + [data])
  {
    hide Holds, Decreasing, NewNode, Appended;
    HoldsKept(h, grown, nodes, pieces);
    AppendedDecreasing(nodes, at);
    if Merges(nodes) {
      AppendedBranch(grown, nodes, pieces, at, data);
    } else {
      AppendedLeaf(grown, nodes, pieces, at, data);
    }
  }

  lemma AllGoodKept(h: Heap, grown: Heap, at: Addr, n: Node, saved: seq<seq<NodeInfo>>, savedPieces: seq<seq<seq<Byte>>>)
    requires Extends(h, grown) && at !in grown && |saved| == |savedPieces|
    requires forall i :: 0 <= i < |saved| ==> Good(h, saved[i], savedPieces[i])
    ensures forall i :: 0 <= i < |saved| ==> Good(grown[at := n], saved[i], savedPieces[i])
  {
    hide Holds, Decreasing;
    var h' := grown[at := n];
    assert Extends(h, h');
    forall i | 0 <= i < |saved|
      ensures Good(h', saved[i], savedPieces[i])
    {
      HoldsKept(h, h', saved[i], savedPieces[i]);
    }
  }

  class OobContext {
    var nodes: seq<NodeInfo>
    var savepoints: seq<seq<NodeInfo>>
    ghost var heap: Heap
    ghost var pieces: seq<seq<Byte>>
    ghost var savedPieces: seq<seq<seq<Byte>>>

    /** The forest holds the pieces written and not rolled back; every savepoint holds the pieces
        that were current when it was made. */
    ghost predicate Valid()
      reads this
    {
      && Good(heap, nodes, pieces)
      && |savedPieces| == |savepoints|
      && forall i :: 0 <= i < |savepoints| ==> Good(heap, savepoints[i], savedPieces[i])
    }

    constructor ()
      ensures Valid() && pieces == [] && savepoints == []
    {
      nodes, savepoints := [], [];
      heap := imap[];
      pieces, savedPieces := [], [];
    }

    /** Appends a piece, whose record was written at the new address `at`. Other transactions may
        have written to the log in between. */
    method Append(data: seq<Byte>, at: Addr, ghost grown: Heap)
      requires Valid() && Extends(heap, grown) && at !in grown && at != NIL
      modifies this
      ensures Valid() && nodes == Appended(old(nodes), at) && heap == grown[at := NewNode(old(nodes), data)]
      ensures pieces == old(pieces) + [data]
      ensures savepoints == old(savepoints) && savedPieces == old(savedPieces)
    {
      hide Good, NewNode;
      ghost var h' := grown[at := NewNode(nodes, data)];
      GoodAppended(heap, grown, nodes, pieces, at, data);
      AllGoodKept(heap, grown, at, NewNode(nodes, data), savepoints, savedPieces);
      var i := |nodes|;
      var index := if i == 0 then 0 else nodes[i - 1].index + 1;
      if i >= 2 && nodes[i - 2].height == nodes[i - 1].height {
        nodes := nodes[..i - 2] + [NodeInfo(at, index, 1 + nodes[i - 2].height)];
      } else {
        nodes := nodes + [NodeInfo(at, index, 1)];
      }
      heap := h';
      pieces := pieces + [data];
    }

    method CreateSavepoint()
      requires Valid()
      modifies this
      ensures Valid() && nodes == old(nodes) && pieces == old(pieces) && heap == old(heap)
      ensures savepoints == old(savepoints) + [old(nodes)] && savedPieces == old(savedPieces) + [old(pieces)]
    {
      savepoints := savepoints + [nodes];
      savedPieces := savedPieces + [pieces];
    }

    /** Forgets everything appended after savepoint `k`, and the later savepoints. */
    method RollbackTo(k: nat)
      requires Valid() && k < |savepoints|
      modifies this
      ensures Valid() && heap == old(heap)
      ensures nodes == old(savepoints)[k] && pieces == old(savedPieces)[k]
      ensures savepoints == old(savepoints)[..k + 1] && savedPieces == old(savedPieces)[..k + 1]
    {
      nodes := savepoints[k];
      pieces := savedPieces[k];
      while |savepoints| > k + 1
        invariant k + 1 <= |savepoints| <= |old(savepoints)| && Valid() && heap == old(heap)
        invariant savepoints == old(savepoints)[..|savepoints|] && savedPieces == old(savedPieces)[..|savepoints|]
        invariant nodes == old(savepoints)[k] && pieces == old(savedPieces)[k]
      {
        savepoints := savepoints[..|savepoints| - 1];
        savedPieces := savedPieces[..|savedPieces| - 1];
      }
    }

    /** What the commit record links to reads back as the pieces, in order. */
    lemma ReadsBack()
      requires Valid() && nodes != []
      ensures Contents(heap, nodes[|nodes| - 1].at, true) == Flow(Join(pieces), Done)
      ensures nodes[|nodes| - 1].index + 1 == |pieces|
      ensures PerfectSize(|nodes| - 1) <= |pieces|
    {
      FewTrees(heap, nodes, pieces);
    }

    /** In any log that holds these records, and whatever others, the traversal from the last root delivers the pieces
        in order. */
    lemma ReadsBackFromLog(log: Log)
      requires Valid() && nodes != [] && Extends(heap, HeapOf(log))
      ensures var root := nodes[|nodes| - 1].at;
        Finite(HeapOf(log), root, true) && Contents(HeapOf(log), root, true) == Flow(Join(pieces), Done)
    {
      ReadsBack();
      ContentsKept(heap, HeapOf(log), nodes[|nodes| - 1].at, true);
    }
  }

  // ----- the records on disk -----

  ghost predicate Fits64(a: Addr) {
    a.file < C.TWO_TO_THE_64 && a.offset < C.TWO_TO_THE_64
  }

  function WriteAddr(a: Addr): seq<Byte> {
    C.Write(a.file) + C.Write(a.offset)
  }

  /** The bytes of a node record: five integers, then the data. */
  function NodeRecord(index: nat, n: Node): seq<Byte>
    requires n.Node?
  {
    C.Write(index) + WriteAddr(n.left) + WriteAddr(n.right) + n.data
  }

  /** The reader parses a node record back to the node. */
  lemma NodeRoundTrip(index: nat, n: Node, end: Pos)
    requires n.Node? && index < C.TWO_TO_THE_64 && Fits64(n.left) && Fits64(n.right)
    ensures var r := Whole(TYPE_OOB_DATA, NodeRecord(index, n), end); IsNode(r) && NodeOf(r) == n
  {
    hide C.Write, C.Read;
    var i, lf, lo, rf, ro := C.Write(index), C.Write(n.left.file), C.Write(n.left.offset), C.Write(n.right.file), C.Write(n.right.offset);
    var b := NodeRecord(index, n);
    C.ReadWrite([], index, lf + lo + rf + ro + n.data);
    C.ReadWrite(i, n.left.file, lo + rf + ro + n.data);
    C.ReadWrite(i + lf, n.left.offset, rf + ro + n.data);
    C.ReadWrite(i + lf + lo, n.right.file, ro + n.data);
    C.ReadWrite(i + lf + lo + rf, n.right.offset, n.data);
    assert b == [] + i + (lf + lo + rf + ro + n.data);
    assert b == i + lf + (lo + rf + ro + n.data);
    assert b == i + lf + lo + (rf + ro + n.data);
    assert b == i + lf + lo + rf + (ro + n.data);
    assert b == i + lf + lo + rf + ro + n.data;
    assert b[|i + lf + lo + rf + ro|..] == n.data;
  }
}
