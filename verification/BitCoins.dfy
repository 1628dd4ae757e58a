/** A coin with its transaction tree in the heap: the parent-pointer walk that
    spends leaves. */
module BitCoins {
  import opened Words
  import opened Transactions
  import opened Layouts
  import T = CoinTree

  /** What remains of a search when the subtree in the hole has become `t` and
      `need` is still to be found: the whole tree, and what is found above. */
  ghost function Finish(t: T.Tree, c: Context, need: nat, p: T.Payment): (r: (T.Tree, nat))
    ensures r.1 <= need
    decreases c
  {
    match c
    case Top => (t, 0)
    case InLeft(n, right, up) =>
      var (right', got) := T.Spend(Value(right), need, p);
      var (whole, more) := Finish(T.Two(n.walletID, n.amount, n.transaction, t, right'), up, need - got, p);
      (whole, got + more)
    case InOnly(n, up) =>
      Finish(T.One(n.walletID, n.amount, n.transaction, t), up, need, p)
    case InRight(n, left, up) =>
      Finish(T.Two(n.walletID, n.amount, n.transaction, Value(left), t), up, need, p)
  }

  lemma {:induction false} FinishNothing(l: Layout, c: Context, p: T.Payment)
    ensures Finish(Value(l), c, 0, p) == (Value(Plug(l, c)), 0)
    decreases c
  {
    match c
    case Top =>
    case InLeft(n, r, up) => FinishNothing(Two(n, l, r), up, p);
    case InOnly(n, up) => FinishNothing(One(n, l), up, p);
    case InRight(n, a, up) => FinishNothing(Two(n, a, l), up, p);
  }

  /** The search from subtree `l` on, in context `c`. */
  ghost function Resume(l: Layout, c: Context, need: nat, p: T.Payment): (T.Tree, nat) {
    var (t, got) := T.Spend(Value(l), need, p);
    Found(got, Finish(t, c, need - got, p))
  }

  ghost function Found(got: nat, r: (T.Tree, nat)): (T.Tree, nat) {
    (r.0, got + r.1)
  }

  /** What a whole search from `l` in `c` gives; at the top nothing is left to
      search. */
  ghost function Rest(l: Layout, c: Context, need: nat, p: T.Payment): (T.Tree, nat) {
    if c.Top? then (Value(l), 0) else Resume(l, c, need, p)
  }

  ghost function RestLeaves(l: Layout, c: Context): seq<TransTree> {
    if c.Top? then [] else LeafNodes(l) + TodoLeaves(c)
  }

  ghost function RestSize(l: Layout, c: Context): nat {
    if c.Top? then 0 else Size(l) + TodoSize(c)
  }

  lemma StandLeft(l: Layout, c: Context)
    requires l.Two? && Standing(l, c)
    ensures Standing(l.left, InLeft(l.node, l.right, c)) && l.node.left == l.left.node
    ensures Nodes(l.left) + ContextNodes(InLeft(l.node, l.right, c)) == Nodes(l) + ContextNodes(c)
    ensures RootOf(l.left.node, InLeft(l.node, l.right, c)) == RootOf(l.node, c)
  {
  }

  lemma StandOnly(l: Layout, c: Context)
    requires l.One? && Standing(l, c)
    ensures Standing(l.right, InOnly(l.node, c)) && l.node.right == l.right.node
    ensures Nodes(l.right) + ContextNodes(InOnly(l.node, c)) == Nodes(l) + ContextNodes(c)
    ensures RootOf(l.right.node, InOnly(l.node, c)) == RootOf(l.node, c)
  {
  }

  lemma EnterLeft(n: TransTree, a: Layout, r: Layout, c: Context, need: nat, p: T.Payment)
    ensures Resume(Two(n, a, r), c, need, p) == Rest(a, InLeft(n, r, c), need, p)
    ensures LeafNodes(Two(n, a, r)) + TodoLeaves(c) == RestLeaves(a, InLeft(n, r, c))
    ensures RestSize(a, InLeft(n, r, c)) < Size(Two(n, a, r)) + TodoSize(c)
  {
    if need == 0 {
      FinishNothing(Two(n, a, r), c, p);
      FinishNothing(a, InLeft(n, r, c), p);
    }
  }

  lemma EnterOnly(n: TransTree, r: Layout, c: Context, need: nat, p: T.Payment)
    ensures Resume(One(n, r), c, need, p) == Rest(r, InOnly(n, c), need, p)
    ensures LeafNodes(One(n, r)) + TodoLeaves(c) == RestLeaves(r, InOnly(n, c))
    ensures RestSize(r, InOnly(n, c)) < Size(One(n, r)) + TodoSize(c)
  {
    if need == 0 {
      FinishNothing(One(n, r), c, p);
      FinishNothing(r, InOnly(n, c), p);
    }
  }

  /** How far a search has come: the tree it will end with, and the leaves it
      has visited. */
  ghost predicate OnCourse(whole: Layout, l: Layout, c: Context, visited: seq<TransTree>,
                           amount: nat, sofar: nat, p: T.Payment)
  {
    && sofar <= amount
    && Found(sofar, Rest(l, c, amount - sofar, p)) == T.Spend(Value(whole), amount, p)
    && visited + RestLeaves(l, c) == LeafNodes(whole)
  }

  /** The search starts below the root, in the leftmost of its subtrees. */
  ghost function Start(whole: Layout): (Layout, Context)
    requires !whole.Leaf?
  {
    if whole.One? then (whole.right, InOnly(whole.node, Top))
    else (whole.left, InLeft(whole.node, whole.right, Top))
  }

  lemma StartOnCourse(whole: Layout, amount: nat, p: T.Payment)
    requires !whole.Leaf? && Linked(whole, null)
    ensures var (l, c) := Start(whole);
      && OnCourse(whole, l, c, [], amount, 0, p)
      && Standing(l, c) && Nodes(l) + ContextNodes(c) == Nodes(whole) && RootOf(l.node, c) == whole.node
      && l.node == if whole.node.left != null then whole.node.left else whole.node.right
  {
    assert LeafNodes(whole) + TodoLeaves(Top) == LeafNodes(whole);
    match whole
    case One(n, r) => EnterOnly(n, r, Top, amount, p); StandOnly(whole, Top);
    case Two(n, a, r) => EnterLeft(n, a, r, Top, amount, p); StandLeft(whole, Top);
  }

  lemma EndOfCourse(whole: Layout, l: Layout, c: Context, visited: seq<TransTree>, amount: nat, sofar: nat, p: T.Payment)
    requires OnCourse(whole, l, c, visited, amount, sofar, p) && Standing(l, c)
    requires c.Top? || sofar == amount
    ensures (Value(Plug(l, c)), sofar) == T.Spend(Value(whole), amount, p)
    ensures visited <= LeafNodes(whole)
    ensures Nodes(Plug(l, c)) == Nodes(l) + ContextNodes(c) && Plug(l, c).node == RootOf(l.node, c)
    ensures Linked(Plug(l, c), null)
  {
    FinishNothing(l, c, p);
    PlugNodes(l, c);
    PlugLinked(l, c);
  }

  /** A step after which the same search and the same leaves remain. */
  lemma KeepCourse(whole: Layout, l: Layout, c: Context, visited: seq<TransTree>, l': Layout, c': Context,
                   amount: nat, sofar: nat, p: T.Payment)
    requires OnCourse(whole, l, c, visited, amount, sofar, p)
    requires Rest(l', c', amount - sofar, p) == Rest(l, c, amount - sofar, p) && RestLeaves(l', c') == RestLeaves(l, c)
    ensures OnCourse(whole, l', c', visited, amount, sofar, p)
  {
  }

  lemma TurnLeft(whole: Layout, l: Layout, c: Context, visited: seq<TransTree>, amount: nat, sofar: nat, p: T.Payment)
    requires OnCourse(whole, l, c, visited, amount, sofar, p) && !c.Top? && l.Two?
    ensures OnCourse(whole, l.left, InLeft(l.node, l.right, c), visited, amount, sofar, p)
    ensures RestSize(l.left, InLeft(l.node, l.right, c)) < RestSize(l, c)
  {
    EnterLeft(l.node, l.left, l.right, c, amount - sofar, p);
    KeepCourse(whole, l, c, visited, l.left, InLeft(l.node, l.right, c), amount, sofar, p);
  }

  lemma TurnOnly(whole: Layout, l: Layout, c: Context, visited: seq<TransTree>, amount: nat, sofar: nat, p: T.Payment)
    requires OnCourse(whole, l, c, visited, amount, sofar, p) && !c.Top? && l.One?
    ensures OnCourse(whole, l.right, InOnly(l.node, c), visited, amount, sofar, p)
    ensures RestSize(l.right, InOnly(l.node, c)) < RestSize(l, c)
  {
    EnterOnly(l.node, l.right, c, amount - sofar, p);
    KeepCourse(whole, l, c, visited, l.right, InOnly(l.node, c), amount, sofar, p);
  }

  /** The search that stood at leaf `n` having found `sofar` now stands at `l'`
      having found `got`. */
  ghost predicate Continues(n: TransTree, c: Context, l': Layout, c': Context, amount: nat, sofar: nat, got: nat, p: T.Payment)
  {
    && sofar <= got <= amount
    && Resume(Leaf(n), c, amount - sofar, p) == Found(got - sofar, Rest(l', c', amount - got, p))
    && RestLeaves(l', c') == TodoLeaves(c)
  }

  lemma Regroup(a: seq<TransTree>, n: TransTree, b: seq<TransTree>)
    ensures a + [n] + b == a + ([n] + b)
  {
  }

  lemma StayOnCourse(whole: Layout, n: TransTree, c: Context, visited: seq<TransTree>,
                     l': Layout, c': Context, amount: nat, sofar: nat, got: nat, p: T.Payment)
    requires OnCourse(whole, Leaf(n), c, visited, amount, sofar, p) && !c.Top?
    requires Continues(n, c, l', c', amount, sofar, got, p)
    ensures OnCourse(whole, l', c', visited + [n], amount, got, p)
  {
    Regroup(visited, n, TodoLeaves(c));
  }

  /** Hangs the receiver's part (and, if the leaf is worth more, the rest) under
      a leaf. */
  method Divide(node: TransTree, part: Word, rest: Word, p: T.Payment) returns (ghost l: Layout)
    requires node.left == null && node.right == null
    requires node.amount > part ==> rest == node.amount - part
    modifies node
    ensures l.node == node && Linked(l, node.parent)
    ensures Value(l) == T.Split(node.walletID, node.amount, node.transaction, part, p)
    ensures fresh(Nodes(l) - {node}) && forall n :: n in Nodes(l) ==> n.coin == node.coin
  {
    var r := new TransTree(p.receiver, part, Some(p.transaction), node, node.coin);
    node.right := r;
    if node.amount > part {
      var a := new TransTree(node.walletID, rest, Some(p.transaction), node, node.coin);
      node.left := a;
      l := Two(node, Leaf(a), Leaf(r));
    } else {
      l := One(node, Leaf(r));
    }
  }

  /** Spends one leaf, if it is the sender's. */
  method SpendLeaf(node: TransTree, amount: Word, sofar: Word, p: T.Payment)
      returns (amountTransferred: Word, ghost l: Layout)
    requires node.left == null && node.right == null
    requires sofar < amount
    modifies node
    ensures l.node == node && Linked(l, node.parent)
    ensures fresh(Nodes(l) - {node}) && forall n :: n in Nodes(l) ==> n.coin == node.coin
    ensures sofar <= amountTransferred <= amount
    ensures (Value(l), amountTransferred - sofar) == T.Spend(Value(Leaf(node)), amount - sofar, p)
  {
    amountTransferred, l := sofar, Leaf(node);
    if node.walletID == p.sender {
      if Sub(amount, amountTransferred) > node.amount {
        l := Divide(node, node.amount, 0, p);
        amountTransferred := Add(amountTransferred, node.amount);
      } else {
        l := Divide(node, Sub(amount, amountTransferred),
                    Add(Sub(node.amount, amount), amountTransferred), p);
        amountTransferred := Add(amountTransferred, Sub(amount, amountTransferred));
      }
    }
  }

  /** One step up from a subtree that is the last of its parent's. */
  ghost function Closed(l: Layout, c: Context): Layout
    requires c.InOnly? || c.InRight?
  {
    if c.InOnly? then One(c.parent, l) else Two(c.parent, c.left, l)
  }

  lemma Close(l: Layout, c: Context, need: nat, p: T.Payment)
    requires (c.InOnly? || c.InRight?) && Standing(l, c)
    ensures Standing(Closed(l, c), c.up) && RootOf(c.parent, c.up) == RootOf(l.node, c)
    ensures Nodes(Closed(l, c)) + ContextNodes(c.up) == Nodes(l) + ContextNodes(c)
    ensures TodoLeaves(c.up) == TodoLeaves(c) && TodoSize(c.up) == TodoSize(c)
    ensures Finish(Value(Closed(l, c)), c.up, need, p) == Finish(Value(l), c, need, p)
  {
  }

  /** The step to the subtree on the right. */
  lemma StepRight(l: Layout, c: Context, need: nat, p: T.Payment)
    requires c.InLeft? && Standing(l, c)
    ensures var c' := InRight(c.parent, l, c.up);
      && Standing(c.right, c') && RootOf(c.right.node, c') == RootOf(l.node, c) != c.right.node
      && Nodes(c.right) + ContextNodes(c') == Nodes(l) + ContextNodes(c)
      && Rest(c.right, c', need, p) == Finish(Value(l), c, need, p)
      && RestLeaves(c.right, c') == TodoLeaves(c) && RestSize(c.right, c') == TodoSize(c)
  {
    RootAbove(c.right.node, InRight(c.parent, l, c.up));
  }

  /** Leaves every subtree of which `node` is the last: climbs while `node` is a
      right child, up to the root. */
  method Climb(start: TransTree, root: TransTree, ghost l: Layout, ghost c: Context, ghost need: nat, ghost p: T.Payment)
      returns (node: TransTree, ghost l': Layout, ghost c': Context)
    requires start == l.node && Standing(l, c) && !c.Top? && RootOf(start, c) == root
    ensures node == l'.node && Standing(l', c') && RootOf(node, c') == root
    ensures c'.Top? || c'.InLeft?
    ensures c'.Top? <==> node == root
    ensures Nodes(l') + ContextNodes(c') == Nodes(l) + ContextNodes(c)
    ensures TodoLeaves(c') == TodoLeaves(c) && TodoSize(c') == TodoSize(c)
    ensures Finish(Value(l'), c', need, p) == Finish(Value(l), c, need, p)
  {
    node, l', c' := start, l, c;
    RootAbove(node, c');
    while node.parent.right == node
      invariant node == l'.node && Standing(l', c') && !c'.Top? && RootOf(node, c') == root
      invariant node != root
      invariant Nodes(l') + ContextNodes(c') == Nodes(l) + ContextNodes(c)
      invariant TodoLeaves(c') == TodoLeaves(c) && TodoSize(c') == TodoSize(c)
      invariant Finish(Value(l'), c', need, p) == Finish(Value(l), c, need, p)
      decreases c'
    {
      node := node.parent;
      Close(l', c', need, p);
      l', c' := Closed(l', c'), c'.up;
      if node == root {
        if !c'.Top? { RootAbove(node, c'); }
        break;
      }
    }
  }

  /** Moves from a finished subtree to the nearest one on its right, or to the
      root when there is none. */
  method NextSubtree(start: TransTree, root: TransTree, ghost l: Layout, ghost c: Context, ghost need: nat, ghost p: T.Payment)
      returns (node: TransTree, ghost l': Layout, ghost c': Context)
    requires start == l.node && Standing(l, c) && !c.Top? && RootOf(start, c) == root
    ensures node == l'.node && Standing(l', c') && RootOf(node, c') == root && (c'.Top? <==> node == root)
    ensures Nodes(l') + ContextNodes(c') == Nodes(l) + ContextNodes(c)
    ensures Rest(l', c', need, p) == Finish(Value(l), c, need, p)
    ensures RestLeaves(l', c') == TodoLeaves(c) && RestSize(l', c') == TodoSize(c)
  {
    node, l', c' := Climb(start, root, l, c, need, p);
    if node != root {
      node := node.parent.right;
      StepRight(l', c', need, p);
      c', l' := InRight(c'.parent, l', c'.up), c'.right;
    }
  }

  lemma SpentLeaf(leaf: TransTree, l: Layout, c: Context, l': Layout, c': Context,
                  amount: nat, sofar: nat, got: nat, p: T.Payment)
    requires sofar <= got <= amount
    requires (Value(l), got - sofar) == T.Spend(Value(Leaf(leaf)), amount - sofar, p)
    requires Rest(l', c', amount - got, p) == Finish(Value(l), c, amount - got, p)
    requires RestLeaves(l', c') == TodoLeaves(c)
    ensures Continues(leaf, c, l', c', amount, sofar, got, p)
  {
    assert amount - sofar - (got - sofar) == amount - got;
    assert Resume(Leaf(leaf), c, amount - sofar, p) == Found(got - sofar, Finish(Value(l), c, amount - got, p));
    assert RestLeaves(l', c') == TodoLeaves(c);
  }

  /** Spends the leaf at which the search stands; its surroundings stay as they
      are. */
  method SpendHere(leaf: TransTree, amount: Word, sofar: Word, p: T.Payment, ghost c: Context,
                   ghost around: set<TransTree>)
      returns (amountTransferred: Word, ghost l: Layout, ghost made: set<TransTree>)
    requires Standing(Leaf(leaf), c) && sofar < amount && around == ContextNodes(c)
    modifies leaf
    ensures l.node == leaf && Standing(l, c)
    ensures fresh(made) && Nodes(l) == {leaf} + made && forall n :: n in made ==> n.coin == leaf.coin
    ensures sofar <= amountTransferred <= amount
    ensures (Value(l), amountTransferred - sofar) == T.Spend(Value(Leaf(leaf)), amount - sofar, p)
  {
    amountTransferred, l := SpendLeaf(leaf, amount, sofar, p);
    made := Nodes(l) - {leaf};
    assert Nodes(l) !! around;
  }

  /** Spends the leaf at which the search stands and moves on. */
  method LeaveLeaf(leaf: TransTree, root: TransTree, amount: Word, sofar: Word, p: T.Payment, ghost c: Context,
                   ghost around: set<TransTree>)
      returns (amountTransferred: Word, node: TransTree, ghost l': Layout, ghost c': Context, ghost made: set<TransTree>)
    requires Standing(Leaf(leaf), c) && !c.Top? && RootOf(leaf, c) == root
    requires sofar < amount && around == ContextNodes(c)
    modifies leaf
    ensures sofar <= amountTransferred <= amount
    ensures node == l'.node && Standing(l', c') && RootOf(node, c') == root && (c'.Top? <==> node == root)
    ensures fresh(made) && Nodes(l') + ContextNodes(c') == {leaf} + around + made
    ensures forall n :: n in made ==> n.coin == leaf.coin
    ensures Continues(leaf, c, l', c', amount, sofar, amountTransferred, p) && RestSize(l', c') == TodoSize(c)
  {
    ghost var l;
    amountTransferred, l, made := SpendHere(leaf, amount, sofar, p, c, around);
    node, l', c' := NextSubtree(leaf, root, l, c, amount - amountTransferred, p);
    SpentLeaf(leaf, l, c, l', c', amount, sofar, amountTransferred, p);
  }

  /** The left-to-right search for the sender's leaves in a coin that has been
      transferred before. */
  method SearchLeaves(root: TransTree, amount: Word, p: T.Payment, ghost whole: Layout)
      returns (amountTransferred: Word, ghost visited: seq<TransTree>, ghost l: Layout)
    requires whole.node == root && Linked(whole, null) && root.right != null
    requires forall n :: n in Nodes(whole) ==> n.coin == root.coin
    modifies Nodes(whole)
    ensures l.node == root && Linked(l, null)
    ensures fresh(Nodes(l) - Nodes(whole)) && Nodes(whole) <= Nodes(l)
    ensures forall n :: n in Nodes(l) ==> n.coin == root.coin
    ensures (Value(l), amountTransferred as nat) == T.Spend(Value(whole), amount, p)
    ensures visited <= LeafNodes(whole)
  {
    amountTransferred := 0;
    visited := [];
    ghost var start := Start(whole);
    ghost var focus, c := start.0, start.1;
    ghost var made: set<TransTree> := {};
    var node: TransTree := if root.left != null then root.left else root.right;
    StartOnCourse(whole, amount, p);
    while amountTransferred < amount
      invariant Standing(focus, c) && node == focus.node && RootOf(node, c) == root && !c.Top?
      invariant fresh(made) && Nodes(focus) + ContextNodes(c) == Nodes(whole) + made
      invariant forall n :: n in made ==> n.coin == root.coin
      invariant OnCourse(whole, focus, c, visited, amount, amountTransferred, p)
      decreases RestSize(focus, c)
    {
      if node.left != null {
        node := node.left;
        StandLeft(focus, c);
        TurnLeft(whole, focus, c, visited, amount, amountTransferred, p);
        c, focus := InLeft(focus.node, focus.right, c), focus.left;
      } else if node.right != null {
        node := node.right;
        StandOnly(focus, c);
        TurnOnly(whole, focus, c, visited, amount, amountTransferred, p);
        c, focus := InOnly(focus.node, c), focus.right;
      } else {
        ghost var n, d, sofar := node, c, amountTransferred;
        ghost var more;
        assert focus == Leaf(n);
        amountTransferred, node, focus, c, more := LeaveLeaf(node, root, amount, amountTransferred, p, c, ContextNodes(c));
        StayOnCourse(whole, n, d, visited, focus, c, amount, sofar, amountTransferred, p);
        visited, made := visited + [n], made + more;
        if node == root { break; }
      }
    }
    EndOfCourse(whole, focus, c, visited, amount, amountTransferred, p);
    l := Plug(focus, c);
  }

  class BitCoin {
    const ID: int
    const root: TransTree
    ghost var layout: Layout

    ghost predicate Valid()
      reads this, Nodes(layout)
    {
      layout.node == root && Linked(layout, null) && forall n :: n in Nodes(layout) ==> n.coin == ID
    }

    ghost function Tree(): T.Tree
      reads this
    {
      Value(layout)
    }

    constructor (id: int, wallet: Id, value: Word)
      ensures Valid() && fresh(Nodes(layout)) && ID == id
      ensures Tree() == T.Leaf(wallet, value, None)
    {
      ID := id;
      var r := new TransTree(wallet, value, None, null, id);
      root := r;
      layout := Leaf(r);
    }

    /** Transfers up to `amount` of this coin. `visited` lists the leaves the
        walk has stood at, in order. */
    method MakeBCTransaction(amount: Word, p: T.Payment)
        returns (amountTransferred: Word, ghost visited: seq<TransTree>)
      requires Valid()
      modifies this`layout, Nodes(layout)
      ensures Valid() && fresh(Nodes(layout) - old(Nodes(layout))) && old(Nodes(layout)) <= Nodes(layout)
      ensures (Tree(), amountTransferred as nat) == T.Transfer(old(Tree()), amount, p)
      ensures visited <= LeafNodes(old(layout))
    {
      amountTransferred := 0;
      visited := [];
      if root.right == null {
        visited := [root];
        layout := Divide(root, amount, Sub(root.amount, amount), p);
        amountTransferred := Add(amountTransferred, amount);
        return;
      }
      ghost var l;
      amountTransferred, visited, l := SearchLeaves(root, amount, p, layout);
      layout := l;
    }
  }
}
