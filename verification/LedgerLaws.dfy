/** What the agreement of the three records implies: which entries a payment
    touches, and that no money is made or lost. */
module LedgerLaws {
  import opened Words
  import opened Transactions
  import opened CoinTree
  import opened LedgerSpec

  // ----- which entries a payment uses

  function AddAll(s: seq<Entry>, gifts: seq<Entry>): seq<Entry>
    decreases gifts
  {
    if gifts == [] then s else AddAll(AddEntry(s, gifts[0].coin, gifts[0].amount), gifts[1..])
  }

  /** Entry `i` is the last one a payment of `need` uses: those before it are
      gone, it stays with what is left of it, those behind it are untouched,
      and the receiver has got each used amount in this order. */
  ghost predicate UsesUpTo(s: seq<Entry>, s': seq<Entry>, r: seq<Entry>, r': seq<Entry>, need: nat, i: nat) {
    && i < |s|
    && Sum(s[..i]) < need <= Sum(s[..i]) + s[i].amount
    && var last := need - Sum(s[..i]);
       s' == [Entry(s[i].coin, s[i].amount - last)] + s[i + 1..]
       && r' == AddAll(r, s[..i] + [Entry(s[i].coin, last)])
  }

  lemma UsesOneMore(s: seq<Entry>, s': seq<Entry>, r: seq<Entry>, r': seq<Entry>, need: nat, rest: nat, i: nat)
    requires s != [] && need == s[0].amount + rest
    requires UsesUpTo(s[1..], s', AddEntry(r, s[0].coin, s[0].amount), r', rest, i)
    ensures UsesUpTo(s, s', r, r', need, i + 1)
  {
    assert s[..i + 1][0] == s[0] && s[..i + 1][1..] == s[1..][..i];
    assert s[1..][i] == s[i + 1] && s[1..][i + 1..] == s[i + 2..];
    var gifts := s[..i + 1] + [Entry(s[i + 1].coin, need - Sum(s[..i + 1]))];
    assert gifts[0] == s[0] && gifts[1..] == s[1..][..i] + [Entry(s[i + 1].coin, need - Sum(s[..i + 1]))];
  }

  lemma UseUpLists(st: State, p: Payment)
    requires CanDraw(st, 0, p)
    requires Drawn(st, st.purses[p.sender].entries[0].amount, p) == st.purses[p.sender].entries[0].amount
    ensures var st', e := UseUp(st, p), st.purses[p.sender].entries[0];
      && p.sender in st'.purses && p.receiver in st'.purses
      && st'.purses[p.sender].entries == st.purses[p.sender].entries[1..]
      && st'.purses[p.receiver].entries == AddEntry(st.purses[p.receiver].entries, e.coin, e.amount)
  {
  }

  lemma {:induction false} PayFromListUses(st: State, need: nat, p: Payment) returns (i: nat)
    requires Agree(st) && Parties(st, p) && 0 < need <= Sum(st.purses[p.sender].entries)
    ensures var st' := PayFromList(st, need, p);
      UsesUpTo(st.purses[p.sender].entries, st'.purses[p.sender].entries,
               st.purses[p.receiver].entries, st'.purses[p.receiver].entries, need, i)
    decreases |st.purses[p.sender].entries|
  {
    var s := st.purses[p.sender].entries;
    assert ListOK(st, p.sender) && Lists(s, s[0].coin);
    if s[0].amount >= need {
      DrawGives(st, need, p);
      i := 0;
      assert s[..0] == [];
      assert AddAll(st.purses[p.receiver].entries, [Entry(s[0].coin, need)])
          == AddEntry(st.purses[p.receiver].entries, s[0].coin, need);
    } else {
      var rest := need - s[0].amount;
      UseUpPays(st, p);
      UseUpLists(st, p);
      PayFromListStep(st, need, rest, p);
      i := PayFromListUses(UseUp(st, p), rest, p);
      var st' := PayFromList(st, need, p);
      UsesOneMore(s, st'.purses[p.sender].entries,
                  st.purses[p.receiver].entries, st'.purses[p.receiver].entries, need, rest, i);
      i := i + 1;
    }
  }

  /** The last entry used stays in the sender's list even when nothing is left
      of it: a payment leaves a zero entry at the head exactly when it ends on
      an entry's last unit. */
  lemma DrainedHeadStaysIff(st: State, need: nat, p: Payment)
    requires Agree(st) && Parties(st, p) && 0 < need <= Sum(st.purses[p.sender].entries)
    ensures var s, s' := st.purses[p.sender].entries, PayFromList(st, need, p).purses[p.sender].entries;
      s' != [] && (s'[0].amount == 0 <==> exists i :: 0 <= i < |s| && s[i].amount > 0 && need == Sum(s[..i + 1]))
  {
    var s := st.purses[p.sender].entries;
    var i := PayFromListUses(st, need, p);
    LastUsedUnique(s, need, i);
  }

  /** Whether a list can be cut right behind a used entry at `need` depends on
      the entry at which `need` falls only. */
  lemma LastUsedUnique(s: seq<Entry>, need: nat, i: nat)
    requires i < |s| && Sum(s[..i]) < need <= Sum(s[..i]) + s[i].amount
    ensures need == Sum(s[..i]) + s[i].amount
       <==> exists k :: 0 <= k < |s| && s[k].amount > 0 && need == Sum(s[..k + 1])
  {
    SumTake(s, i);
    forall k | 0 <= k < |s| && s[k].amount > 0 && need == Sum(s[..k + 1]) ensures k == i {
      SumTake(s, k);
      if k < i { SumMonotone(s, k + 1, i); }
      if i < k { SumMonotone(s, i + 1, k); }
    }
  }

  lemma {:induction false} SumTake(s: seq<Entry>, i: nat)
    requires i < |s|
    ensures Sum(s[..i + 1]) == Sum(s[..i]) + s[i].amount
  {
    if i == 0 {
      assert s[..1][1..] == [] && s[..0] == [];
    } else {
      assert s[..i + 1][1..] == s[1..][..i] && s[..i][1..] == s[1..][..i - 1];
      SumTake(s[1..], i - 1);
    }
  }

  lemma {:induction false} SumMonotone(s: seq<Entry>, i: nat, j: nat)
    requires i <= j <= |s|
    ensures Sum(s[..i]) <= Sum(s[..j])
    decreases j
  {
    if i < j {
      SumTake(s, j - 1);
      SumMonotone(s, i, j - 1);
    }
  }

  // ----- conservation

  /** `s` names the members of `keys`, each once. */
  ghost predicate Names<K(!new)>(s: seq<K>, keys: set<K>) {
    && (forall i :: 0 <= i < |s| ==> s[i] in keys)
    && (forall k :: k in keys ==> k in s)
    && (forall i, j :: 0 <= i < j < |s| ==> s[i] != s[j])
  }

  ghost function AllTotals(st: State, ws: seq<Id>): nat
    requires forall w :: w in ws ==> w in st.purses
  {
    if ws == [] then 0 else st.purses[ws[0]].total + AllTotals(st, ws[1..])
  }

  ghost function AllValues(st: State, cs: seq<int>): nat
    requires forall i :: 0 <= i < |cs| ==> cs[i] in st.trees
  {
    if cs == [] then 0 else st.trees[cs[0]].amount + AllValues(st, cs[1..])
  }

  /** What wallet `w` owns of the coins `cs`. */
  function OwnedOf(st: State, w: Id, cs: seq<int>): nat
    requires forall i :: 0 <= i < |cs| ==> cs[i] in st.trees
  {
    if cs == [] then 0 else Owned(st.trees[cs[0]], w) + OwnedOf(st, w, cs[1..])
  }

  /** What the wallets `ws` own of the coins `cs`. */
  function OwnedBy(st: State, ws: seq<Id>, cs: seq<int>): nat
    requires forall i :: 0 <= i < |cs| ==> cs[i] in st.trees
  {
    if ws == [] then 0 else OwnedOf(st, ws[0], cs) + OwnedBy(st, ws[1..], cs)
  }

  /** What the wallets `ws` own of one tree. */
  function Shares(t: Tree, ws: seq<Id>): nat {
    if ws == [] then 0 else Owned(t, ws[0]) + Shares(t, ws[1..])
  }

  lemma {:induction false} SharesOfLeaf(t: Tree, ws: seq<Id>)
    requires t.Leaf? && forall i, j :: 0 <= i < j < |ws| ==> ws[i] != ws[j]
    ensures Shares(t, ws) == if t.owner in ws then t.amount else 0
  {
    if ws != [] {
      SharesOfLeaf(t, ws[1..]);
    }
  }

  lemma {:induction false} SharesOfTwo(t: Tree, ws: seq<Id>)
    requires t.Two?
    ensures Shares(t, ws) == Shares(t.left, ws) + Shares(t.right, ws)
  {
    if ws != [] {
      SharesOfTwo(t, ws[1..]);
    }
  }

  lemma {:induction false} SharesOfOne(t: Tree, ws: seq<Id>)
    requires t.One?
    ensures Shares(t, ws) == Shares(t.right, ws)
  {
    if ws != [] {
      SharesOfOne(t, ws[1..]);
    }
  }

  /** A sound tree divides exactly its amount among its owners. */
  lemma {:induction false} SharesAddUp(t: Tree, ws: seq<Id>)
    requires Sound(t) && (forall w :: w in Owners(t) ==> w in ws)
    requires forall i, j :: 0 <= i < j < |ws| ==> ws[i] != ws[j]
    ensures Shares(t, ws) == t.amount
  {
    match t
    case Leaf(_, _, _) => SharesOfLeaf(t, ws);
    case One(_, _, _, right) => SharesAddUp(right, ws); SharesOfOne(t, ws);
    case Two(_, _, _, left, right) => SharesAddUp(left, ws); SharesAddUp(right, ws); SharesOfTwo(t, ws);
  }

  lemma {:induction false} OwnedByOneMore(st: State, ws: seq<Id>, cs: seq<int>)
    requires cs != [] && forall i :: 0 <= i < |cs| ==> cs[i] in st.trees
    ensures OwnedBy(st, ws, cs) == Shares(st.trees[cs[0]], ws) + OwnedBy(st, ws, cs[1..])
  {
    if ws != [] {
      OwnedByOneMore(st, ws[1..], cs);
    }
  }

  /** Counted coin by coin, what everybody owns is what the coins are worth. */
  lemma {:induction false} OwnedIsValue(st: State, ws: seq<Id>, cs: seq<int>)
    requires Agree(st) && Names(ws, st.purses.Keys) && forall i :: 0 <= i < |cs| ==> cs[i] in st.trees
    ensures OwnedBy(st, ws, cs) == AllValues(st, cs)
  {
    if cs == [] {
      OwnedNothing(st, ws);
    } else {
      OwnedIsValue(st, ws, cs[1..]);
      OwnedByOneMore(st, ws, cs);
      assert TreeOK(st, cs[0]);
      SharesAddUp(st.trees[cs[0]], ws);
    }
  }

  lemma {:induction false} OwnedNothing(st: State, ws: seq<Id>)
    ensures OwnedBy(st, ws, []) == 0
  {
    if ws != [] {
      OwnedNothing(st, ws[1..]);
    }
  }

  /** The amounts a list gives for the coins `cs`. */
  function AmountsIn(s: seq<Entry>, cs: seq<int>): nat {
    if cs == [] then 0 else AmountIn(s, cs[0]) + AmountsIn(s, cs[1..])
  }

  lemma {:induction false} AmountsInNone(cs: seq<int>)
    ensures AmountsIn([], cs) == 0
  {
    if cs != [] {
      AmountsInNone(cs[1..]);
    }
  }

  lemma {:induction false} AmountsInFirst(s: seq<Entry>, cs: seq<int>)
    requires s != [] && !Lists(s[1..], s[0].coin)
    requires forall i, j :: 0 <= i < j < |cs| ==> cs[i] != cs[j]
    ensures AmountsIn(s, cs) == AmountsIn(s[1..], cs) + if s[0].coin in cs then s[0].amount else 0
  {
    if cs != [] {
      AmountsInFirst(s, cs[1..]);
      NotListed(s[1..], s[0].coin);
    }
  }

  lemma {:induction false} AmountsAreSum(s: seq<Entry>, cs: seq<int>)
    requires NoRepeats(s) && (forall c :: Lists(s, c) ==> c in cs)
    requires forall i, j :: 0 <= i < j < |cs| ==> cs[i] != cs[j]
    ensures AmountsIn(s, cs) == Sum(s)
  {
    if s == [] {
      AmountsInNone(cs);
    } else {
      assert Lists(s, s[0].coin);
      AmountsAreSum(s[1..], cs);
      AmountsInFirst(s, cs);
    }
  }

  lemma {:induction false} AmountsAreOwned(st: State, w: Id, cs: seq<int>)
    requires Agree(st) && w in st.purses && forall i :: 0 <= i < |cs| ==> cs[i] in st.trees
    ensures AmountsIn(st.purses[w].entries, cs) == OwnedOf(st, w, cs)
  {
    if cs != [] {
      assert SameShare(st, w, cs[0]);
      AmountsAreOwned(st, w, cs[1..]);
    }
  }

  /** A wallet's cached total is what the coins' leaves say it owns. */
  lemma TotalIsOwned(st: State, w: Id, cs: seq<int>)
    requires Agree(st) && TotalsAgree(st) && w in st.purses && Names(cs, st.trees.Keys)
    ensures st.purses[w].total == OwnedOf(st, w, cs)
  {
    assert TotalOK(st, w) && ListOK(st, w);
    AmountsAreSum(st.purses[w].entries, cs);
    AmountsAreOwned(st, w, cs);
  }

  lemma {:induction false} TotalsAreOwned(st: State, ws: seq<Id>, cs: seq<int>)
    requires Agree(st) && TotalsAgree(st) && (forall w :: w in ws ==> w in st.purses) && Names(cs, st.trees.Keys)
    ensures AllTotals(st, ws) == OwnedBy(st, ws, cs)
  {
    if ws != [] {
      TotalIsOwned(st, ws[0], cs);
      TotalsAreOwned(st, ws[1..], cs);
    }
  }

  /** Conservation: whenever the three records agree, the wallets' totals add up
      to the value of all coins. */
  lemma TotalsAddUpToCoins(st: State, ws: seq<Id>, cs: seq<int>)
    requires Agree(st) && TotalsAgree(st) && Names(ws, st.purses.Keys) && Names(cs, st.trees.Keys)
    ensures AllTotals(st, ws) == AllValues(st, cs)
  {
    TotalsAreOwned(st, ws, cs);
    OwnedIsValue(st, ws, cs);
  }

  lemma {:induction false} TotalBounded(st: State, ws: seq<Id>, w: Id)
    requires (forall v :: v in ws ==> v in st.purses) && w in ws
    ensures st.purses[w].total <= AllTotals(st, ws)
  {
    if w != ws[0] {
      TotalBounded(st, ws[1..], w);
    }
  }

  lemma {:induction false} TwoTotalsBounded(st: State, ws: seq<Id>, v: Id, w: Id)
    requires (forall u :: u in ws ==> u in st.purses) && v in ws && w in ws && v != w
    ensures st.purses[v].total + st.purses[w].total <= AllTotals(st, ws)
  {
    if v == ws[0] {
      TotalBounded(st, ws[1..], w);
    } else if w == ws[0] {
      TotalBounded(st, ws[1..], v);
    } else {
      TwoTotalsBounded(st, ws[1..], v, w);
    }
  }

  /** If the supply fits a word, so does every sum a payment forms. */
  lemma NoOverflow(st: State, ws: seq<Id>, cs: seq<int>, amount: nat, p: Payment)
    requires Agree(st) && TotalsAgree(st) && Names(ws, st.purses.Keys) && Names(cs, st.trees.Keys)
    requires AllValues(st, cs) < WORD && Parties(st, p) && amount <= st.purses[p.sender].total
    ensures st.purses[p.receiver].total + amount < WORD
  {
    TotalsAddUpToCoins(st, ws, cs);
    TwoTotalsBounded(st, ws, p.sender, p.receiver);
  }

  lemma {:induction false} SameValuesSameSupply(st: State, st': State, cs: seq<int>)
    requires SameValues(st, st') && forall i :: 0 <= i < |cs| ==> cs[i] in st.trees
    ensures AllValues(st', cs) == AllValues(st, cs)
  {
    if cs != [] {
      var c := cs[0];
      assert c in st.trees && st'.trees[c].amount == st.trees[c].amount;
      SameValuesSameSupply(st, st', cs[1..]);
    }
  }
}
