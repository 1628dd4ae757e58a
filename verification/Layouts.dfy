/** The heap side of a transaction tree: nodes with parent, left and right
    links, a ghost description of how they hang together, and the context
    ("zipper") around the node at which a traversal stands. */
module Layouts {
  import opened Words
  import opened Transactions
  import T = CoinTree

  /** A tree node. Only its two child links are ever assigned after the node
      has been made. */
  class TransTree {
    const walletID: Id
    const amount: Word
    const transaction: Option<Transaction>
    const parent: TransTree?
    ghost const coin: int  // the coin this node was made for
    var left: TransTree?
    var right: TransTree?

    constructor (wallet: Id, amnt: Word, trans: Option<Transaction>, par: TransTree?, ghost coinID: int)
      ensures walletID == wallet && amount == amnt && transaction == trans && parent == par && coin == coinID
      ensures left == null && right == null
    {
      walletID, amount, transaction, parent, coin := wallet, amnt, trans, par, coinID;
      left, right := null, null;
    }
  }

  /** Which nodes make up a tree, and how. */
  datatype Layout =
    | Leaf(node: TransTree)
    | One(node: TransTree, right: Layout)
    | Two(node: TransTree, left: Layout, right: Layout)

  ghost function Nodes(l: Layout): set<TransTree> {
    match l
    case Leaf(n) => {n}
    case One(n, r) => {n} + Nodes(r)
    case Two(n, a, r) => {n} + Nodes(a) + Nodes(r)
  }

  /** The tree that a layout stands for. */
  ghost function Value(l: Layout): T.Tree {
    match l
    case Leaf(n) => T.Leaf(n.walletID, n.amount, n.transaction)
    case One(n, r) => T.One(n.walletID, n.amount, n.transaction, Value(r))
    case Two(n, a, r) => T.Two(n.walletID, n.amount, n.transaction, Value(a), Value(r))
  }

  /** The links in the heap are those of the layout, and no node occurs twice. */
  ghost predicate Linked(l: Layout, p: TransTree?)
    reads Nodes(l)
  {
    l.node.parent == p &&
    match l
    case Leaf(n) => n.left == null && n.right == null
    case One(n, r) =>
      n.left == null && n.right == r.node && n !in Nodes(r) && Linked(r, n)
    case Two(n, a, r) =>
      n.left == a.node && n.right == r.node && n !in Nodes(a) && n !in Nodes(r) && Nodes(a) !! Nodes(r)
      && Linked(a, n) && Linked(r, n)
  }

  /** The leaves, from left to right. */
  ghost function LeafNodes(l: Layout): seq<TransTree> {
    match l
    case Leaf(n) => [n]
    case One(_, r) => LeafNodes(r)
    case Two(_, a, r) => LeafNodes(a) + LeafNodes(r)
  }

  ghost function Size(l: Layout): nat
    ensures Size(l) > 0
  {
    match l
    case Leaf(_) => 1
    case One(_, r) => 1 + Size(r)
    case Two(_, a, r) => 1 + Size(a) + Size(r)
  }

  // ----- contexts

  /** The part of a tree around one of its subtrees, from that subtree up. */
  datatype Context =
    | Top
    | InLeft(parent: TransTree, right: Layout, up: Context)
    | InOnly(parent: TransTree, up: Context)
    | InRight(parent: TransTree, left: Layout, up: Context)

  ghost function ContextNodes(c: Context): set<TransTree> {
    match c
    case Top => {}
    case InLeft(p, r, up) => {p} + Nodes(r) + ContextNodes(up)
    case InOnly(p, up) => {p} + ContextNodes(up)
    case InRight(p, a, up) => {p} + Nodes(a) + ContextNodes(up)
  }

  ghost function HoleParent(c: Context): TransTree? {
    if c.Top? then null else c.parent
  }

  ghost predicate ContextLinked(c: Context, hole: TransTree)
    reads ContextNodes(c)
  {
    match c
    case Top => true
    case InLeft(p, r, up) =>
      p.parent == HoleParent(up) && p.left == hole && p.right == r.node
      && p !in Nodes(r) && p !in ContextNodes(up) && Nodes(r) !! ContextNodes(up)
      && Linked(r, p) && ContextLinked(up, p)
    case InOnly(p, up) =>
      p.parent == HoleParent(up) && p.left == null && p.right == hole
      && p !in ContextNodes(up) && ContextLinked(up, p)
    case InRight(p, a, up) =>
      p.parent == HoleParent(up) && p.left == a.node && p.right == hole
      && p !in Nodes(a) && p !in ContextNodes(up) && Nodes(a) !! ContextNodes(up)
      && Linked(a, p) && ContextLinked(up, p)
  }

  /** A traversal stands at subtree `l` inside context `c`. */
  ghost predicate Standing(l: Layout, c: Context)
    reads Nodes(l), ContextNodes(c)
  {
    Nodes(l) !! ContextNodes(c) && Linked(l, HoleParent(c)) && ContextLinked(c, l.node)
  }

  ghost function Plug(l: Layout, c: Context): Layout
    decreases c
  {
    match c
    case Top => l
    case InLeft(p, r, up) => Plug(Two(p, l, r), up)
    case InOnly(p, up) => Plug(One(p, l), up)
    case InRight(p, a, up) => Plug(Two(p, a, l), up)
  }

  ghost function RootOf(hole: TransTree, c: Context): TransTree
    decreases c
  {
    if c.Top? then hole else RootOf(c.parent, c.up)
  }

  lemma {:induction false} PlugNodes(l: Layout, c: Context)
    ensures Nodes(Plug(l, c)) == Nodes(l) + ContextNodes(c)
    ensures Plug(l, c).node == RootOf(l.node, c)
    decreases c
  {
    match c
    case Top =>
    case InLeft(p, r, up) => PlugNodes(Two(p, l, r), up);
    case InOnly(p, up) => PlugNodes(One(p, l), up);
    case InRight(p, a, up) => PlugNodes(Two(p, a, l), up);
  }

  lemma {:induction false} PlugLinked(l: Layout, c: Context)
    requires Standing(l, c)
    ensures (PlugNodes(l, c); Linked(Plug(l, c), null))
    decreases c
  {
    PlugNodes(l, c);
    match c
    case Top =>
    case InLeft(p, r, up) => PlugLinked(Two(p, l, r), up);
    case InOnly(p, up) => PlugLinked(One(p, l), up);
    case InRight(p, a, up) => PlugLinked(Two(p, a, l), up);
  }

  /** Below the top, the root of the tree is one of the context's nodes. */
  lemma {:induction false} RootAbove(hole: TransTree, c: Context)
    requires !c.Top?
    ensures RootOf(hole, c) in ContextNodes(c)
  {
    if !c.up.Top? {
      RootAbove(c.parent, c.up);
    }
  }

  // ----- what a left-to-right traversal has still to do

  ghost function TodoLeaves(c: Context): seq<TransTree> {
    match c
    case Top => []
    case InLeft(_, r, up) => LeafNodes(r) + TodoLeaves(up)
    case InOnly(_, up) => TodoLeaves(up)
    case InRight(_, _, up) => TodoLeaves(up)
  }

  ghost function TodoSize(c: Context): nat {
    match c
    case Top => 0
    case InLeft(_, r, up) => Size(r) + TodoSize(up)
    case InOnly(_, up) => TodoSize(up)
    case InRight(_, _, up) => TodoSize(up)
  }
}
