/** The trail of a transaction through the coins' trees: every node is tagged
    with the transaction that made it. */
module Trails {
  import opened Words
  import opened Transactions
  import opened CoinTree
  import opened LedgerSpec
  import opened LedgerLaws

  // ----- one tree

  function Tags(t: Tree): set<Transaction> {
    (if t.tag.Some? then {t.tag.value} else {}) +
    match t
    case Leaf(_, _, _) => {}
    case One(_, _, _, right) => Tags(right)
    case Two(_, _, _, left, right) => Tags(left) + Tags(right)
  }

  function AmountIfTagged(t: Tree, x: Transaction): nat {
    if t.tag == Some(x) then t.amount else 0
  }

  /** What transaction `x` has given away of the coin: its right children. */
  function Given(t: Tree, x: Transaction): nat {
    match t
    case Leaf(_, _, _) => 0
    case One(_, _, _, right) => AmountIfTagged(right, x) + Given(right, x)
    case Two(_, _, _, left, right) => AmountIfTagged(right, x) + Given(left, x) + Given(right, x)
  }

  /** Whatever transaction `x` gave away went to `r`, and whatever it left stayed
      with `s`. */
  predicate Between(t: Tree, x: Transaction, s: Id, r: Id) {
    match t
    case Leaf(_, _, _) => true
    case One(_, _, _, right) => (right.tag == Some(x) ==> right.owner == r) && Between(right, x, s, r)
    case Two(_, _, _, left, right) =>
      && (right.tag == Some(x) ==> right.owner == r) && (left.tag == Some(x) ==> left.owner == s)
      && Between(left, x, s, r) && Between(right, x, s, r)
  }

  /** A transaction without a tag in the tree has given nothing away. */
  lemma {:induction false} NoTag(t: Tree, x: Transaction, s: Id, r: Id)
    requires x !in Tags(t)
    ensures Given(t, x) == 0 && Between(t, x, s, r)
  {
    match t
    case Leaf(_, _, _) =>
    case One(_, _, _, right) =>
      assert right.tag == Some(x) ==> x in Tags(right);
      NoTag(right, x, s, r);
    case Two(_, _, _, left, right) =>
      assert (right.tag == Some(x) ==> x in Tags(right)) && (left.tag == Some(x) ==> x in Tags(left));
      NoTag(left, x, s, r);
      NoTag(right, x, s, r);
  }

  /** Payment `p` has given `got` of the coin away, and no other transaction any
      more or to anybody else than before; seen for transaction `x`. */
  ghost predicate Trail(t: Tree, t': Tree, got: nat, p: Payment, x: Transaction, s: Id, r: Id) {
    && t'.tag == t.tag && t'.owner == t.owner && t'.amount == t.amount
    && Tags(t') <= Tags(t) + {p.transaction}
    && Given(t', x) == Given(t, x) + (if x == p.transaction then got else 0)
    && (Between(t, x, s, r) ==> Between(t', x, s, r))
  }

  /** `x` is another transaction, or between the same parties. */
  predicate Matches(p: Payment, x: Transaction, s: Id, r: Id) {
    x == p.transaction ==> s == p.sender && r == p.receiver
  }

  lemma SplitTrail(t: Tree, part: nat, p: Payment, x: Transaction, s: Id, r: Id)
    requires t.Leaf? && Matches(p, x, s, r) && t.owner == p.sender
    ensures Trail(t, Split(t.owner, t.amount, t.tag, part, p), part, p, x, s, r)
  {
    var t' := Split(t.owner, t.amount, t.tag, part, p);
    assert Tags(t'.right) == {p.transaction};
    if t'.Two? {
      assert Tags(t'.left) == {p.transaction};
    }
  }

  lemma OneTrail(t: Tree, right': Tree, got: nat, p: Payment, x: Transaction, s: Id, r: Id)
    requires t.One? && Trail(t.right, right', got, p, x, s, r)
    ensures Trail(t, One(t.owner, t.amount, t.tag, right'), got, p, x, s, r)
  {
    var t' := One(t.owner, t.amount, t.tag, right');
    assert Tags(t') <= Tags(t) + {p.transaction};
  }

  lemma TwoTrail(t: Tree, left': Tree, a: nat, right': Tree, b: nat, p: Payment, x: Transaction, s: Id, r: Id)
    requires t.Two? && Trail(t.left, left', a, p, x, s, r) && Trail(t.right, right', b, p, x, s, r)
    ensures Trail(t, Two(t.owner, t.amount, t.tag, left', right'), a + b, p, x, s, r)
  {
    var t' := Two(t.owner, t.amount, t.tag, left', right');
    assert Tags(t') <= Tags(t) + {p.transaction};
  }

  lemma {:induction false} SpendTrail(t: Tree, need: nat, p: Payment, x: Transaction, s: Id, r: Id)
    requires Matches(p, x, s, r)
    ensures Trail(t, Spend(t, need, p).0, Spend(t, need, p).1, p, x, s, r)
  {
    if need > 0 {
      match t
      case Leaf(owner, amount, _) =>
        if owner == p.sender { SplitTrail(t, Min(need, amount), p, x, s, r); }
      case One(_, _, _, right) =>
        SpendTrail(right, need, p, x, s, r);
        OneTrail(t, Spend(right, need, p).0, Spend(right, need, p).1, p, x, s, r);
      case Two(_, _, _, left, right) =>
        var a := Spend(left, need, p);
        var b := Spend(right, need - a.1, p);
        SpendTrail(left, need, p, x, s, r);
        SpendTrail(right, need - a.1, p, x, s, r);
        TwoTrail(t, a.0, a.1, b.0, b.1, p, x, s, r);
    }
  }

  lemma TransferTrail(t: Tree, amount: nat, p: Payment, x: Transaction, s: Id, r: Id)
    requires Matches(p, x, s, r) && MayTransfer(t, amount, p.sender)
    ensures Trail(t, Transfer(t, amount, p).0, Transfer(t, amount, p).1, p, x, s, r)
  {
    if t.Leaf? {
      SplitTrail(t, amount, p, x, s, r);
    } else {
      SpendTrail(t, amount, p, x, s, r);
    }
  }

  // ----- all trees

  /** What transaction `x` has given away of the coins `cs`. */
  function AllGiven(trees: map<int, Tree>, cs: seq<int>, x: Transaction): nat
    requires forall i :: 0 <= i < |cs| ==> cs[i] in trees
  {
    if cs == [] then 0
    else
      var c := cs[0];
      Given(trees[c], x) + AllGiven(trees, cs[1..], x)
  }

  /** The same for all coins. */
  ghost predicate Trails(ts: map<int, Tree>, ts': map<int, Tree>, cs: seq<int>, got: nat, p: Payment, x: Transaction, s: Id, r: Id)
    requires Names(cs, ts.Keys)
  {
    && ts'.Keys == ts.Keys
    && (forall c :: c in ts ==> Tags(ts'[c]) <= Tags(ts[c]) + {p.transaction})
    && (forall c :: c in ts && Between(ts[c], x, s, r) ==> Between(ts'[c], x, s, r))
    && AllGiven(ts', cs, x) == AllGiven(ts, cs, x) + (if x == p.transaction then got else 0)
  }

  lemma {:induction false} GivenElsewhere(ts: map<int, Tree>, cs: seq<int>, c: int, t: Tree, x: Transaction)
    requires (forall i :: 0 <= i < |cs| ==> cs[i] in ts) && c !in cs
    ensures AllGiven(ts[c := t], cs, x) == AllGiven(ts, cs, x)
  {
    if cs != [] {
      GivenElsewhere(ts, cs[1..], c, t, x);
    }
  }

  lemma {:induction false} GivenHere(ts: map<int, Tree>, cs: seq<int>, c: int, t: Tree, x: Transaction, more: nat)
    requires (forall i :: 0 <= i < |cs| ==> cs[i] in ts) && c in cs && c in ts
    requires forall i, j :: 0 <= i < j < |cs| ==> cs[i] != cs[j]
    requires Given(t, x) == Given(ts[c], x) + more
    ensures AllGiven(ts[c := t], cs, x) == AllGiven(ts, cs, x) + more
  {
    if cs[0] == c {
      GivenElsewhere(ts, cs[1..], c, t, x);
    } else {
      GivenHere(ts, cs[1..], c, t, x, more);
    }
  }

  lemma DrawTrail(st: State, part: nat, p: Payment, cs: seq<int>, x: Transaction, s: Id, r: Id)
    requires Agree(st) && CanDraw(st, part, p) && Names(cs, st.trees.Keys) && Matches(p, x, s, r)
    requires part > 0 || part == st.purses[p.sender].entries[0].amount
    ensures Trails(st.trees, Draw(st, part, p).trees, cs, part, p, x, s, r)
  {
    var c := st.purses[p.sender].entries[0].coin;
    DrawGives(st, part, p);
    TransferTrail(st.trees[c], part, p, x, s, r);
    GivenHere(st.trees, cs, c, Transfer(st.trees[c], part, p).0, x, if x == p.transaction then part else 0);
  }

  lemma TrailsTwice(a: map<int, Tree>, b: map<int, Tree>, c: map<int, Tree>, cs: seq<int>, m: nat, n: nat, need: nat,
                    p: Payment, x: Transaction, s: Id, r: Id)
    requires Names(cs, a.Keys) && Trails(a, b, cs, m, p, x, s, r) && Trails(b, c, cs, n, p, x, s, r) && need == m + n
    ensures Trails(a, c, cs, need, p, x, s, r)
  {
  }

  /** The payment loop gives away exactly `need`, over all the coins it uses. */
  lemma {:induction false} PayFromListTrail(st: State, need: nat, p: Payment, cs: seq<int>, x: Transaction, s: Id, r: Id)
    requires Agree(st) && Parties(st, p) && need <= Sum(st.purses[p.sender].entries)
    requires Names(cs, st.trees.Keys) && Matches(p, x, s, r)
    ensures Trails(st.trees, PayFromList(st, need, p).trees, cs, need, p, x, s, r)
    decreases |st.purses[p.sender].entries|
  {
    var es := st.purses[p.sender].entries;
    if need > 0 {
      assert ListOK(st, p.sender) && Lists(es, es[0].coin);
      if es[0].amount >= need {
        DrawTrail(st, need, p, cs, x, s, r);
      } else {
        var rest, mid := need - es[0].amount, UseUp(st, p);
        DrawTrail(st, es[0].amount, p, cs, x, s, r);
        UseUpPays(st, p);
        PayFromListTrail(mid, rest, p, cs, x, s, r);
        PayFromListStep(st, need, rest, p);
        TrailsTwice(st.trees, mid.trees, PayFromList(st, need, p).trees, cs, es[0].amount, rest, need, p, x, s, r);
      }
    }
  }

  lemma PayTrail(st: State, amount: nat, p: Payment, cs: seq<int>, x: Transaction, s: Id, r: Id)
    requires Agree(st) && TotalsAgree(st) && Parties(st, p) && amount <= st.purses[p.sender].total
    requires Names(cs, st.trees.Keys) && Matches(p, x, s, r)
    ensures Trails(st.trees, Pay(st, amount, p).trees, cs, amount, p, x, s, r)
  {
    assert TotalOK(st, p.sender);
    PayFromListTrail(st, amount, p, cs, x, s, r);
  }

  lemma {:induction false} NoneGiven(ts: map<int, Tree>, cs: seq<int>, x: Transaction)
    requires forall i :: 0 <= i < |cs| ==> cs[i] in ts
    requires forall c :: c in ts ==> x !in Tags(ts[c])
    ensures AllGiven(ts, cs, x) == 0
  {
    if cs != [] {
      var c := cs[0];
      assert c in ts;
      NoTag(ts[c], x, "", "");
      NoneGiven(ts, cs[1..], x);
    }
  }

  // ----- nothing is rewritten

  /** All coins have grown: what was there is in its place. */
  ghost predicate TreesGrown(ts: map<int, Tree>, ts': map<int, Tree>) {
    ts'.Keys == ts.Keys && forall c :: c in ts ==> GrownFrom(ts[c], ts'[c])
  }

  lemma TreesGrownSelf(ts: map<int, Tree>)
    ensures TreesGrown(ts, ts)
  {
    forall c | c in ts ensures GrownFrom(ts[c], ts[c]) {
      GrownFromSelf(ts[c]);
    }
  }

  lemma TreesGrownAll(a: map<int, Tree>, b: map<int, Tree>, c: map<int, Tree>)
    requires TreesGrown(a, b) && TreesGrown(b, c)
    ensures TreesGrown(a, c)
  {
    forall k | k in a ensures GrownFrom(a[k], c[k]) {
      GrownFromAll(a[k], b[k], c[k]);
    }
  }

  lemma DrawGrows(st: State, part: nat, p: Payment)
    requires CanDraw(st, part, p)
    ensures TreesGrown(st.trees, Draw(st, part, p).trees)
  {
    var c := st.purses[p.sender].entries[0].coin;
    TreesGrownSelf(st.trees);
    TransferGrows(st.trees[c], part, p);
  }

  lemma {:induction false} PayFromListGrows(st: State, need: nat, p: Payment)
    requires Parties(st, p)
    ensures TreesGrown(st.trees, PayFromList(st, need, p).trees)
    decreases |st.purses[p.sender].entries|
  {
    var es := st.purses[p.sender].entries;
    if need == 0 || es == [] || es[0].coin !in st.trees {
      TreesGrownSelf(st.trees);
    } else if es[0].amount >= need {
      DrawGrows(st, need, p);
    } else {
      var mid, rest := UseUp(st, p), need - Drawn(st, es[0].amount, p);
      DrawGrows(st, es[0].amount, p);
      PayFromListGrows(mid, rest, p);
      TreesGrownAll(st.trees, mid.trees, PayFromList(mid, rest, p).trees);
    }
  }
}
