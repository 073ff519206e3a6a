/** Out-of-band event data: a forest of binary trees of records, each linked to earlier
    records by address. This module gives the meaning of an address as the bytes of a recursive
    post-order traversal, over an abstract heap of nodes.
  */
module OobForest {
  import opened BinlogFormat

  datatype Addr = Addr(file: nat, offset: nat)

  /** No record is at file 0, offset 0: that is a file header. */
  const NIL := Addr(0, 0)

  /** A leaf has no left child; its right link leads to the root of the tree before it. */
  datatype Node =
    | Node(left: Addr, right: Addr, data: seq<Byte>)
    | Faulty   // a record that is not an out-of-band record, or with a short header, or none

  /** Addresses outside the domain hold torn records. */
  type Heap = imap<Addr, Node>

  /** How an output stream goes on: some bytes, then a clean end or a reported fault. `Torn` stands
      for a log with incomplete or cyclic data, about which nothing is claimed. */
  datatype Ending = Done | Fault | Torn

  datatype Flow = Flow(bytes: seq<Byte>, end: Ending) {
    /** This stream, and `next` after its clean end. */
    function Then(next: Flow): Flow {
      if end == Done then Flow(bytes + next.bytes, next.end) else this
    }
  }

  lemma ThenAssociates(f: Flow, g: Flow, h: Flow)
    ensures f.Then(g).Then(h) == f.Then(g.Then(h))
  {
    if f.end == Done && g.end == Done {
      assert f.bytes + g.bytes + h.bytes == f.bytes + (g.bytes + h.bytes);
    }
  }

  /** The unfolding of the links below an address. */
  datatype Tree =
    | Leaf
    | LeafAfter(prior: Tree)            // the left-most leaf, with the trees before it
    | Branch(left: Tree, right: Tree)
    | Bad

  /** `t` is what the links at `a` unfold to. The prior-tree link of a leaf counts only when the
      leaf was reached through left links alone. */
  ghost predicate Unfolds(h: Heap, a: Addr, leftmost: bool, t: Tree)
    decreases t
  {
    a in h &&
    match t
    case Bad => h[a].Faulty?
    case Leaf => h[a].Node? && h[a].left == NIL && !(leftmost && h[a].right != NIL)
    case LeafAfter(prior) =>
      h[a].Node? && h[a].left == NIL && leftmost && h[a].right != NIL && Unfolds(h, h[a].right, true, prior)
    case Branch(l, r) =>
      h[a].Node? && h[a].left != NIL && Unfolds(h, h[a].left, leftmost, l) && Unfolds(h, h[a].right, false, r)
  }

  lemma {:induction false} UnfoldsToOne(h: Heap, a: Addr, leftmost: bool, t: Tree, u: Tree)
    requires Unfolds(h, a, leftmost, t) && Unfolds(h, a, leftmost, u)
    ensures t == u
    decreases t
  {
    match t
    case LeafAfter(prior) => UnfoldsToOne(h, h[a].right, true, prior, u.prior);
    case Branch(l, r) =>
      UnfoldsToOne(h, h[a].left, leftmost, l, u.left);
      UnfoldsToOne(h, h[a].right, false, r, u.right);
    case _ =>
  }

  /** The post-order traversal: prior trees, left, right, self. */
  ghost function PostOrder(h: Heap, a: Addr, leftmost: bool, t: Tree): Flow
    requires Unfolds(h, a, leftmost, t)
    decreases t
  {
    match t
    case Bad => Flow([], Fault)
    case Leaf => Flow(h[a].data, Done)
    case LeafAfter(prior) => PostOrder(h, h[a].right, true, prior).Then(Flow(h[a].data, Done))
    case Branch(l, r) =>
      PostOrder(h, h[a].left, leftmost, l).Then(PostOrder(h, h[a].right, false, r)).Then(Flow(h[a].data, Done))
  }

  /** The links below `a` unfold to a finite tree. */
  ghost predicate Finite(h: Heap, a: Addr, leftmost: bool) {
    exists t :: Unfolds(h, a, leftmost, t)
  }

  ghost function TreeAt(h: Heap, a: Addr, leftmost: bool): (t: Tree)
    requires Finite(h, a, leftmost)
    ensures Unfolds(h, a, leftmost, t)
  {
    var t :| Unfolds(h, a, leftmost, t);
    t
  }

  /** The bytes that an address stands for. */
  ghost function Contents(h: Heap, a: Addr, leftmost: bool): Flow {
    if Finite(h, a, leftmost) then PostOrder(h, a, leftmost, TreeAt(h, a, leftmost)) else Flow([], Torn)
  }

  lemma ContentsAre(h: Heap, a: Addr, leftmost: bool, t: Tree)
    requires Unfolds(h, a, leftmost, t)
    ensures Finite(h, a, leftmost) && TreeAt(h, a, leftmost) == t
    ensures Contents(h, a, leftmost) == PostOrder(h, a, leftmost, t)
  {
    UnfoldsToOne(h, a, leftmost, t, TreeAt(h, a, leftmost));
  }

  /** The equations of the traversal, without the unfolded tree. */
  lemma Visit(h: Heap, a: Addr, leftmost: bool)
    requires Finite(h, a, leftmost)
    ensures a in h
    ensures h[a].Faulty? ==> Contents(h, a, leftmost) == Flow([], Fault)
    ensures h[a].Node? ==>
      var self := Flow(h[a].data, Done);
      if h[a].left != NIL then
        && Finite(h, h[a].left, leftmost) && Finite(h, h[a].right, false)
        && Contents(h, a, leftmost)
           == Contents(h, h[a].left, leftmost).Then(Contents(h, h[a].right, false)).Then(self)
        && Turns(h, a, leftmost) == Turns(h, h[a].left, leftmost) + Turns(h, h[a].right, false) + 3
        && First(h, a, leftmost) == First(h, h[a].left, leftmost)
      else if leftmost && h[a].right != NIL then
        && Finite(h, h[a].right, true)
        && Contents(h, a, leftmost) == Contents(h, h[a].right, true).Then(self)
        && Turns(h, a, leftmost) == Turns(h, h[a].right, true) + 3
        && First(h, a, leftmost) == First(h, h[a].right, true)
      else Contents(h, a, leftmost) == self && Turns(h, a, leftmost) == 3 && First(h, a, leftmost) == a
  {
    var t := TreeAt(h, a, leftmost);
    match t
    case LeafAfter(prior) => ContentsAre(h, h[a].right, true, prior);
    case Branch(l, r) =>
      ContentsAre(h, h[a].left, leftmost, l);
      ContentsAre(h, h[a].right, false, r);
    case _ =>
  }

  ghost function Size(t: Tree): nat {
    match t
    case LeafAfter(prior) => Size(prior) + 3
    case Branch(l, r) => Size(l) + Size(r) + 3
    case _ => 3
  }

  /** A bound on the turns of the traversal below `a`, for termination. */
  ghost function Turns(h: Heap, a: Addr, leftmost: bool): nat {
    if Finite(h, a, leftmost) then Size(TreeAt(h, a, leftmost)) else 0
  }

  ghost function FirstIn(h: Heap, a: Addr, leftmost: bool, t: Tree): Addr
    requires Unfolds(h, a, leftmost, t)
    decreases t
  {
    match t
    case LeafAfter(prior) => FirstIn(h, h[a].right, true, prior)
    case Branch(l, r) => FirstIn(h, h[a].left, leftmost, l)
    case _ => a
  }

  /** The node that a traversal from `a` reaches first. */
  ghost function First(h: Heap, a: Addr, leftmost: bool): Addr {
    if Finite(h, a, leftmost) then FirstIn(h, a, leftmost, TreeAt(h, a, leftmost)) else a
  }
}
