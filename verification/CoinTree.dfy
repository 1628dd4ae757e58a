/** The transaction tree of one coin as a value: who owns which part of the
    coin, and what a transfer does to it. */
module CoinTree {
  import opened Words
  import opened Transactions

  /** A leaf is a part of the coin that somebody owns now. An inner node was
      spent: its right child is what the receiver got, its left child (if any)
      what the owner kept. `tag` is the transaction that created the node. */
  datatype Tree =
    | Leaf(owner: Id, amount: nat, tag: Option<Transaction>)
    | One(owner: Id, amount: nat, tag: Option<Transaction>, right: Tree)
    | Two(owner: Id, amount: nat, tag: Option<Transaction>, left: Tree, right: Tree)

  datatype Payment = Payment(sender: Id, receiver: Id, transaction: Transaction)

  // ----- what a transfer does

  /** Spends `part` of a leaf: the receiver's share hangs on the right, what is
      left to the owner (if anything) on the left. */
  function Split(owner: Id, amount: nat, tag: Option<Transaction>, part: nat, p: Payment): Tree {
    var got := Leaf(p.receiver, part, Some(p.transaction));
    if amount > part then Two(owner, amount, tag, Leaf(owner, amount - part, Some(p.transaction)), got)
    else One(owner, amount, tag, got)
  }

  /** Spends up to `need` from the sender's leaves, from left to right. */
  function Spend(t: Tree, need: nat, p: Payment): (r: (Tree, nat))
    ensures r.1 <= need
  {
    if need == 0 then (t, 0)
    else
      match t
      case Leaf(owner, amount, tag) =>
        if owner != p.sender then (t, 0)
        else (Split(owner, amount, tag, Min(need, amount), p), Min(need, amount))
      case One(owner, amount, tag, right) =>
        var (right', got) := Spend(right, need, p);
        (One(owner, amount, tag, right'), got)
      case Two(owner, amount, tag, left, right) =>
        var (left', fromLeft) := Spend(left, need, p);
        var (right', fromRight) := Spend(right, need - fromLeft, p);
        (Two(owner, amount, tag, left', right'), fromLeft + fromRight)
  }

  /** A transfer. The first one of a coin splits the root, whatever the amount
      and whoever the sender is; later ones search the leaves. */
  function Transfer(t: Tree, amount: nat, p: Payment): (r: (Tree, nat))
    ensures r.1 <= amount
  {
    if t.Leaf? then (Split(t.owner, t.amount, t.tag, amount, p), amount)
    else Spend(t, amount, p)
  }

  // ----- what the tree says

  function Owned(t: Tree, w: Id): nat {
    match t
    case Leaf(owner, amount, _) => if owner == w then amount else 0
    case One(_, _, _, right) => Owned(right, w)
    case Two(_, _, _, left, right) => Owned(left, w) + Owned(right, w)
  }

  function Owners(t: Tree): set<Id> {
    match t
    case Leaf(owner, _, _) => {owner}
    case One(_, _, _, right) => Owners(right)
    case Two(_, _, _, left, right) => Owners(left) + Owners(right)
  }

  /** The shape that every transfer keeps: all amounts are positive, an inner
      amount is the sum of its children's, and a left child keeps its
      parent's owner. */
  predicate Sound(t: Tree) {
    t.amount > 0 &&
    match t
    case Leaf(_, _, _) => true
    case One(_, amount, _, right) => Sound(right) && amount == right.amount
    case Two(owner, amount, _, left, right) =>
      Sound(left) && Sound(right) && amount == left.amount + right.amount && left.owner == owner
  }

  // ----- the guarantees of a transfer

  /** Tree `t` has become `t'`, which is as sound: exactly what the sender owns, up
      to `need`, has gone to the receiver, and nothing else has changed hands. */
  ghost predicate Moves(t: Tree, t': Tree, got: nat, need: nat, p: Payment) {
    && got == Min(need, Owned(t, p.sender))
    && Sound(t') && t'.amount == t.amount && t'.owner == t.owner
    && Owned(t', p.sender) == Owned(t, p.sender) - got
    && Owned(t', p.receiver) == Owned(t, p.receiver) + got
    && (forall w :: w != p.sender && w != p.receiver ==> Owned(t', w) == Owned(t, w))
    && (forall w :: w in Owners(t') ==> w in Owners(t) || w == p.receiver)
  }

  lemma MovesOne(t: Tree, right': Tree, got: nat, need: nat, p: Payment)
    requires t.One? && Sound(t) && Moves(t.right, right', got, need, p)
    ensures Moves(t, One(t.owner, t.amount, t.tag, right'), got, need, p)
  {
    var t' := One(t.owner, t.amount, t.tag, right');
    assert Owners(t) == Owners(t.right) && Owners(t') == Owners(right');
  }

  lemma MovesTwo(t: Tree, left': Tree, a: nat, right': Tree, b: nat, rest: nat, need: nat, p: Payment)
    requires t.Two? && Sound(t) && Moves(t.left, left', a, need, p) && Moves(t.right, right', b, rest, p)
    requires rest == need - a
    ensures Moves(t, Two(t.owner, t.amount, t.tag, left', right'), a + b, need, p)
  {
    var t' := Two(t.owner, t.amount, t.tag, left', right');
    assert Owners(t) == Owners(t.left) + Owners(t.right) && Owners(t') == Owners(left') + Owners(right');
  }

  lemma MovesLeaf(t: Tree, need: nat, p: Payment)
    requires t.Leaf? && Sound(t) && t.owner == p.sender && p.sender != p.receiver && need > 0
    ensures Moves(t, Split(t.owner, t.amount, t.tag, Min(need, t.amount), p), Min(need, t.amount), need, p)
  {
    var t' := Split(t.owner, t.amount, t.tag, Min(need, t.amount), p);
    assert Owners(t) == {t.owner} && Owners(t'.right) == {p.receiver};
    if t'.Two? {
      assert Owners(t'.left) == {t.owner} && Owners(t') == Owners(t'.left) + Owners(t'.right);
    } else {
      assert Owners(t') == Owners(t'.right);
    }
  }

  lemma MovesNothing(t: Tree, p: Payment)
    requires Sound(t)
    ensures Moves(t, t, 0, 0, p)
  {
  }

  /** The search spends exactly what the sender owns, up to `need`, moves it to
      the receiver, keeps the shape and leaves everybody else alone. */
  lemma {:induction false} SpendMoves(t: Tree, need: nat, p: Payment)
    requires Sound(t) && p.sender != p.receiver
    ensures Moves(t, Spend(t, need, p).0, Spend(t, need, p).1, need, p)
  {
    if need == 0 {
      MovesNothing(t, p);
    } else {
      match t
      case Leaf(owner, amount, tag) =>
        if owner == p.sender { MovesLeaf(t, need, p); }
      case One(_, _, _, right) =>
        SpendMoves(right, need, p);
        MovesOne(t, Spend(right, need, p).0, Spend(right, need, p).1, need, p);
      case Two(_, _, _, left, right) =>
        var a := Spend(left, need, p);
        var rest := need - a.1;
        var b := Spend(right, rest, p);
        SpendMoves(left, need, p);
        SpendMoves(right, rest, p);
        MovesTwo(t, a.0, a.1, b.0, b.1, rest, need, p);
    }
  }

  /** When may the first transfer of a coin be called at all? Its guard does not
      compare the amount with the root: the tree stays sound exactly when the
      amount is positive and not more than the coin. */
  lemma FirstTransferSoundIff(t: Tree, amount: nat, p: Payment)
    requires Sound(t) && t.Leaf?
    ensures Sound(Transfer(t, amount, p).0) <==> 0 < amount <= t.amount
  {
    if amount > t.amount {
      assert Transfer(t, amount, p).0.One?;
    }
  }

  /** The first transfer never looks at the sender's name: it takes the coin
      from its owner, so it charges the sender exactly when the sender owns it. */
  lemma FirstTransferChargesSenderIff(t: Tree, amount: nat, p: Payment)
    requires Sound(t) && t.Leaf? && 0 < amount <= t.amount && p.sender != p.receiver
    ensures Owned(Transfer(t, amount, p).0, p.sender) == Owned(t, p.sender) - amount <==> t.owner == p.sender
  {
    if t.owner != p.sender {
      assert Owned(t, p.sender) == 0;
      assert Owned(Transfer(t, amount, p).0, p.sender) == 0;
    }
  }

  /** The condition under which callers may make a transfer. */
  predicate MayTransfer(t: Tree, amount: nat, sender: Id) {
    t.Leaf? ==> t.owner == sender && 0 < amount <= t.amount
  }

  lemma TransferMoves(t: Tree, amount: nat, p: Payment)
    requires Sound(t) && p.sender != p.receiver && MayTransfer(t, amount, p.sender)
    ensures Moves(t, Transfer(t, amount, p).0, Transfer(t, amount, p).1, amount, p)
    ensures !Transfer(t, amount, p).0.Leaf?
  {
    if t.Leaf? {
      MovesLeaf(t, amount, p);
    } else {
      SpendMoves(t, amount, p);
    }
  }

  // ----- what a transfer leaves in place

  /** `t'` is `t` with some of its leaves split: every node that was there is in
      its place, with the owner, the amount and the tag it had. */
  predicate GrownFrom(t: Tree, t': Tree) {
    t'.owner == t.owner && t'.amount == t.amount && t'.tag == t.tag &&
    match t
    case Leaf(_, _, _) => true
    case One(_, _, _, right) => t'.One? && GrownFrom(right, t'.right)
    case Two(_, _, _, left, right) => t'.Two? && GrownFrom(left, t'.left) && GrownFrom(right, t'.right)
  }

  lemma {:induction false} GrownFromSelf(t: Tree)
    ensures GrownFrom(t, t)
  {
    match t
    case Leaf(_, _, _) =>
    case One(_, _, _, right) => GrownFromSelf(right);
    case Two(_, _, _, left, right) =>
      GrownFromSelf(left);
      GrownFromSelf(right);
  }

  lemma {:induction false} GrownFromAll(t: Tree, u: Tree, v: Tree)
    requires GrownFrom(t, u) && GrownFrom(u, v)
    ensures GrownFrom(t, v)
  {
    match t
    case Leaf(_, _, _) =>
    case One(_, _, _, right) => GrownFromAll(right, u.right, v.right);
    case Two(_, _, _, left, right) =>
      GrownFromAll(left, u.left, v.left);
      GrownFromAll(right, u.right, v.right);
  }

  lemma {:induction false} SpendGrows(t: Tree, need: nat, p: Payment)
    ensures GrownFrom(t, Spend(t, need, p).0)
  {
    if need == 0 {
      GrownFromSelf(t);
    } else {
      match t
      case Leaf(_, _, _) =>
      case One(_, _, _, right) => SpendGrows(right, need, p);
      case Two(_, _, _, left, right) =>
        SpendGrows(left, need, p);
        SpendGrows(right, need - Spend(left, need, p).1, p);
    }
  }

  /** A transfer only adds to a coin's history. */
  lemma TransferGrows(t: Tree, amount: nat, p: Payment)
    ensures GrownFrom(t, Transfer(t, amount, p).0)
  {
    SpendGrows(t, amount, p);
  }

  // ----- the order in which leaves are spent

  datatype Part = Part(owner: Id, amount: nat, tag: Option<Transaction>)

  /** The parts of the coin, from left to right. */
  function Parts(t: Tree): seq<Part> {
    match t
    case Leaf(owner, amount, tag) => [Part(owner, amount, tag)]
    case One(_, _, _, right) => Parts(right)
    case Two(_, _, _, left, right) => Parts(left) + Parts(right)
  }

  /** What the sender holds in a list of parts. */
  function Held(s: seq<Part>, w: Id): nat {
    if s == [] then 0 else (if s[0].owner == w then s[0].amount else 0) + Held(s[1..], w)
  }

  lemma {:induction false} HeldConcat(a: seq<Part>, b: seq<Part>, w: Id)
    ensures Held(a + b, w) == Held(a, w) + Held(b, w)
  {
    if a == [] {
      assert a + b == b;
    } else {
      assert (a + b)[1..] == a[1..] + b;
      HeldConcat(a[1..], b, w);
    }
  }

  lemma {:induction false} HeldIsOwned(t: Tree, w: Id)
    ensures Held(Parts(t), w) == Owned(t, w)
  {
    match t
    case Leaf(_, _, _) =>
    case One(_, _, _, right) => HeldIsOwned(right, w);
    case Two(_, _, _, left, right) =>
      HeldIsOwned(left, w);
      HeldIsOwned(right, w);
      HeldConcat(Parts(left), Parts(right), w);
  }

  /** Every part of the sender handed over whole. */
  function HandOver(s: seq<Part>, p: Payment): seq<Part> {
    if s == [] then []
    else [if s[0].owner == p.sender then Part(p.receiver, s[0].amount, Some(p.transaction)) else s[0]]
         + HandOver(s[1..], p)
  }

  lemma {:induction false} HandOverConcat(a: seq<Part>, b: seq<Part>, p: Payment)
    ensures HandOver(a + b, p) == HandOver(a, p) + HandOver(b, p)
  {
    if a == [] {
      assert a + b == b;
    } else {
      assert (a + b)[1..] == a[1..] + b;
      HandOverConcat(a[1..], b, p);
    }
  }

  /** One part of the sender handed over up to `part`. */
  function HandOverPart(x: Part, part: nat, p: Payment): seq<Part> {
    (if x.amount > part then [Part(x.owner, x.amount - part, Some(p.transaction))] else [])
    + [Part(p.receiver, part, Some(p.transaction))]
  }

  /** `i` splits the parts of the old tree into those the search has exhausted,
      the one where it stops, and those it never reaches. */
  ghost predicate StopsAt(s: seq<Part>, s': seq<Part>, need: nat, p: Payment, i: nat) {
    && i < |s|
    && s[i].owner == p.sender
    && Held(s[..i], p.sender) < need <= Held(s[..i], p.sender) + s[i].amount
    && s' == HandOver(s[..i], p) + HandOverPart(s[i], need - Held(s[..i], p.sender), p) + s[i + 1..]
  }

  /** A search that fails to find `need` hands over all the sender has. */
  lemma {:induction false} SpendAll(t: Tree, need: nat, p: Payment)
    requires Sound(t) && Owned(t, p.sender) < need && p.sender != p.receiver
    ensures Parts(Spend(t, need, p).0) == HandOver(Parts(t), p)
  {
    match t
    case Leaf(_, _, _) =>
    case One(_, _, _, right) => SpendAll(right, need, p);
    case Two(_, _, _, left, right) =>
      SpendMoves(left, need, p);
      SpendAll(left, need, p);
      SpendAll(right, need - Owned(left, p.sender), p);
      HandOverConcat(Parts(left), Parts(right), p);
  }

  lemma StopsInLeft(a: seq<Part>, a': seq<Part>, b: seq<Part>, need: nat, p: Payment, i: nat)
    requires StopsAt(a, a', need, p, i)
    ensures StopsAt(a + b, a' + b, need, p, i)
  {
    assert (a + b)[..i] == a[..i];
    assert (a + b)[i + 1..] == a[i + 1..] + b;
  }

  lemma StopsInRight(a: seq<Part>, b: seq<Part>, b': seq<Part>, need: nat, p: Payment, j: nat)
    requires StopsAt(b, b', need, p, j)
    ensures StopsAt(a + b, HandOver(a, p) + b', Held(a, p.sender) + need, p, |a| + j)
  {
    assert (a + b)[..|a| + j] == a + b[..j];
    assert (a + b)[|a| + j + 1..] == b[j + 1..];
    HandOverConcat(a, b[..j], p);
    HeldConcat(a, b[..j], p.sender);
  }

  /** A search that finds `need` goes left to right: every part of the sender
      before the last one it touches is handed over whole, only that last one
      may be divided, and nothing to the right of it changes. */
  lemma {:induction false} SpendInOrder(t: Tree, need: nat, p: Payment) returns (i: nat)
    requires Sound(t) && 0 < need <= Owned(t, p.sender) && p.sender != p.receiver
    ensures StopsAt(Parts(t), Parts(Spend(t, need, p).0), need, p, i)
  {
    match t
    case Leaf(owner, amount, tag) =>
      i := 0;
      StopsInLeaf(t, need, p);
    case One(_, _, _, right) =>
      i := SpendInOrder(right, need, p);
      assert Parts(Spend(t, need, p).0) == Parts(Spend(right, need, p).0);
    case Two(_, _, _, left, right) =>
      if need <= Owned(left, p.sender) {
        i := SpendInOrder(left, need, p);
        SpendStopsLeft(t, need, p, i);
      } else {
        var j := SpendInOrder(right, need - Owned(left, p.sender), p);
        i := |Parts(left)| + j;
        SpendStopsRight(t, need, need - Owned(left, p.sender), p, j);
      }
  }

  lemma SpendStopsLeft(t: Tree, need: nat, p: Payment, i: nat)
    requires Sound(t) && t.Two? && 0 < need <= Owned(t.left, p.sender) && p.sender != p.receiver
    requires StopsAt(Parts(t.left), Parts(Spend(t.left, need, p).0), need, p, i)
    ensures StopsAt(Parts(t), Parts(Spend(t, need, p).0), need, p, i)
  {
    SpendMoves(t.left, need, p);
    SpendParts(t, need, 0, p);
    StopsInLeft(Parts(t.left), Parts(Spend(t.left, need, p).0), Parts(t.right), need, p, i);
  }

  lemma SpendStopsRight(t: Tree, need: nat, rest: nat, p: Payment, j: nat)
    requires Sound(t) && t.Two? && p.sender != p.receiver && Owned(t.left, p.sender) + rest == need && rest > 0
    requires StopsAt(Parts(t.right), Parts(Spend(t.right, rest, p).0), rest, p, j)
    ensures StopsAt(Parts(t), Parts(Spend(t, need, p).0), need, p, |Parts(t.left)| + j)
  {
    SpendMoves(t.left, need, p);
    SpendParts(t, need, rest, p);
    SpendAll(t.left, need, p);
    HeldIsOwned(t.left, p.sender);
    StopsInRight(Parts(t.left), Parts(t.right), Parts(Spend(t.right, rest, p).0), rest, p, j);
  }

  lemma StopsInLeaf(t: Tree, need: nat, p: Payment)
    requires t.Leaf? && t.owner == p.sender && 0 < need <= t.amount
    ensures StopsAt(Parts(t), Parts(Spend(t, need, p).0), need, p, 0)
  {
    assert Parts(t)[..0] == [] && Parts(t)[1..] == [];
  }

  lemma SpendParts(t: Tree, need: nat, rest: nat, p: Payment)
    requires t.Two? && need > 0 && rest == need - Spend(t.left, need, p).1
    ensures Parts(Spend(t, need, p).0) == Parts(Spend(t.left, need, p).0) + Parts(Spend(t.right, rest, p).0)
    ensures rest == 0 ==> Spend(t.right, rest, p).0 == t.right
  {
  }
}
