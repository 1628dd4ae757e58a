/** Reading the balances file: makes the wallets, their coins and their lists. */
module Openings {
  import opened Words
  import opened Transactions
  import opened Layouts
  import opened BitCoins
  import opened Wallets
  import opened OpeningSpec
  import T = CoinTree
  import L = LedgerSpec

  /** The wallet is the one that a line gives. */
  ghost predicate IsWalletOf(w: Wallet, l: Line, value: Word)
    reads w, w.Repr()
  {
    && w.Valid() && w.walletID == l.walletID
    && w.amount == (|l.coins| * value) % WORD && w.Entries() == EntriesOf(l.coins, value)
  }

  /** The wallets are those of the lines, and `cells` has all their cells. */
  ghost predicate AreWalletsOf(ws: seq<Wallet>, lines: seq<Line>, value: Word, cells: set<BCList>)
    reads ws, cells
  {
    && |ws| == |lines|
    && forall k :: 0 <= k < |ws| ==> ws[k].Repr() <= cells && IsWalletOf(ws[k], lines[k], value)
  }

  /** A coin that has never been transferred. */
  ghost predicate IsNewCoin(c: BitCoin, id: int, owner: Id, value: Word)
    reads c, Nodes(c.layout)
  {
    c.ID == id && c.Valid() && c.Tree() == T.Leaf(owner, value, None)
  }

  /** The coins are those of one line, and `nodes` has all nodes of their trees. */
  ghost predicate AreCoinsOf(cs: seq<BitCoin>, ids: seq<int>, owner: Id, value: Word, nodes: set<TransTree>)
    reads cs, nodes
  {
    && |cs| == |ids|
    && forall k :: 0 <= k < |cs| ==> Nodes(cs[k].layout) <= nodes && IsNewCoin(cs[k], ids[k], owner, value)
  }

  method CheckIfBCExists(ws: seq<Wallet>, id: int, ghost lines: seq<Line>, ghost value: Word, ghost cells: set<BCList>)
      returns (found: bool)
    requires AreWalletsOf(ws, lines, value, cells)
    ensures found <==> HasCoin(lines, id)
  {
    for i := 0 to |ws|
      invariant forall k :: 0 <= k < i ==> id !in lines[k].coins
    {
      assert IsWalletOf(ws[i], lines[i], value);
      EntriesAre(lines[i].coins, value);
      var here := ws[i].HasBC(id);
      if here { return true; }
    }
    return false;
  }

  method CheckIfWalletExists(ws: seq<Wallet>, id: Id, ghost lines: seq<Line>, ghost value: Word, ghost cells: set<BCList>)
      returns (found: bool)
    requires AreWalletsOf(ws, lines, value, cells)
    ensures found <==> HasWallet(lines, id)
  {
    for i := 0 to |ws|
      invariant forall k :: 0 <= k < i ==> lines[k].walletID != id
    {
      assert IsWalletOf(ws[i], lines[i], value);
      if ws[i].walletID == id { return true; }
    }
    return false;
  }

  /** Makes one coin and lists it, unless an earlier wallet has it. */
  method NewEntry(w: Wallet, id: int, value: Word, earlier: seq<Wallet>, ghost lines: seq<Line>, ghost cells: set<BCList>)
      returns (tmpBC: BitCoin?)
    requires w.Valid() && AreWalletsOf(earlier, lines, value, cells) && w !in earlier && w.Repr() !! cells
    modifies w, w.Repr()
    ensures w.Valid() && w.amount == old(w.amount) && AreWalletsOf(earlier, lines, value, cells)
    ensures tmpBC == null <==> HasCoin(lines, id)
    ensures tmpBC != null ==>
      && fresh(tmpBC) && fresh(Nodes(tmpBC.layout)) && IsNewCoin(tmpBC, id, w.walletID, value)
      && w.Entries() == old(w.Entries()) + [L.Entry(id, value)]
    ensures forall b :: b in w.Repr() ==> b in old(w.Repr()) || (fresh(b) && b.thisBC == tmpBC)
  {
    tmpBC := null;
    var bitCoin := new BitCoin(id, w.walletID, value);
    var found := CheckIfBCExists(earlier, id, lines, value, cells);
    if !found {
      w.AppendBC(bitCoin, value);
      tmpBC := bitCoin;
    }
  }

  /** The wallet lists the coins made for it so far. */
  ghost predicate Filled(w: Wallet, cs: seq<BitCoin>, ids: seq<int>, value: Word, nodes: set<TransTree>)
    reads w, w.Repr(), cs, nodes
  {
    && w.Valid() && w.Entries() == EntriesOf(ids, value) && AreCoinsOf(cs, ids, w.walletID, value, nodes)
    && forall b :: b in w.Repr() ==> b.thisBC in cs
  }

  /** Makes and lists one more coin of a wallet, unless an earlier one has it. */
  method AddCoin(w: Wallet, cs: seq<BitCoin>, id: int, value: Word, earlier: seq<Wallet>, ghost ids: seq<int>,
                 ghost nodes: set<TransTree>, ghost lines: seq<Line>, ghost cells: set<BCList>)
      returns (more: seq<BitCoin>, ghost nodes': set<TransTree>)
    requires Filled(w, cs, ids, value, nodes)
    requires AreWalletsOf(earlier, lines, value, cells) && w !in earlier && w.Repr() !! cells
    modifies w, w.Repr()
    ensures w.amount == old(w.amount) && AreWalletsOf(earlier, lines, value, cells) && w.Valid()
    ensures more == [] <==> HasCoin(lines, id)
    ensures more != [] ==> Filled(w, cs + more, ids + [id], value, nodes + nodes')
    ensures fresh(more) && fresh(nodes') && forall b :: b in w.Repr() ==> b in old(w.Repr()) || fresh(b)
  {
    more, nodes' := [], {};
    var tmpBC := NewEntry(w, id, value, earlier, lines, cells);
    if tmpBC != null {
      more, nodes' := [tmpBC], Nodes(tmpBC.layout);
      assert (ids + [id])[..|ids|] == ids;
    }
  }

  /** Makes and lists the coins of a new wallet, unless an earlier wallet has one
      of them. */
  method FillWallet(w: Wallet, ids: seq<int>, value: Word, earlier: seq<Wallet>, ghost lines: seq<Line>, ghost cells: set<BCList>)
      returns (ok: bool, cs: seq<BitCoin>, ghost nodes: set<TransTree>)
    requires w.Valid() && w.cells == [] && AreWalletsOf(earlier, lines, value, cells) && w !in earlier
    modifies w
    ensures w.Valid() && w.amount == old(w.amount) && fresh(w.Repr()) && AreWalletsOf(earlier, lines, value, cells)
    ensures ok <==> forall c :: c in ids ==> !HasCoin(lines, c)
    ensures ok ==> Filled(w, cs, ids, value, nodes) && fresh(cs) && fresh(nodes)
  {
    cs, nodes := [], {};
    for i := 0 to |ids|
      invariant w.amount == old(w.amount) && AreWalletsOf(earlier, lines, value, cells)
      invariant forall c :: c in ids[..i] ==> !HasCoin(lines, c)
      invariant Filled(w, cs, ids[..i], value, nodes) && fresh(w.Repr()) && fresh(cs) && fresh(nodes)
    {
      assert ids[..i + 1] == ids[..i] + [ids[i]];
      var more;
      ghost var nodes';
      more, nodes' := AddCoin(w, cs, ids[i], value, earlier, ids[..i], nodes, lines, cells);
      if more == [] { return false, [], {}; }
      cs, nodes := cs + more, nodes + nodes';
    }
    assert ids[..|ids|] == ids;
    ok := true;
  }

  /** Makes the wallet of a line, unless it or one of its coins has come before. */
  method MakeWallet(l: Line, value: Word, earlier: seq<Wallet>, ghost lines: seq<Line>, ghost cells: set<BCList>)
      returns (w: Wallet?, cs: seq<BitCoin>, ghost nodes: set<TransTree>)
    requires AreWalletsOf(earlier, lines, value, cells)
    ensures w == null <==> HasWallet(lines, l.walletID) || exists c :: c in l.coins && HasCoin(lines, c)
    ensures w != null ==>
      && fresh(w) && fresh(w.Repr()) && IsWalletOf(w, l, value) && (forall b :: b in w.Repr() ==> b.thisBC in cs)
      && AreCoinsOf(cs, l.coins, l.walletID, value, nodes) && fresh(cs) && fresh(nodes)
  {
    w, cs, nodes := null, [], {};
    var known := CheckIfWalletExists(earlier, l.walletID, lines, value, cells);
    if known { return; }
    var wallet := new Wallet(l.walletID);
    wallet.amount := (|l.coins| * value) % WORD;
    var ok;
    ok, cs, nodes := FillWallet(wallet, l.coins, value, earlier, lines, cells);
    if ok { w := wallet; }
  }

  /** The coins are those of a map from their identifiers to their trees. */
  ghost predicate CoinsHold(cs: seq<BitCoin>, trees: map<int, T.Tree>, nodes: set<TransTree>)
    reads cs, nodes
  {
    && (forall c, d :: c in cs && d in cs && c != d ==> c.ID != d.ID)
    && (forall c :: c in cs ==>
          c.ID in trees && Nodes(c.layout) <= nodes && c.Valid() && c.Tree() == trees[c.ID])
    && (forall id :: id in trees ==> exists c :: c in cs && c.ID == id)
  }

  /** The coins are those of all lines, one object for every place on a line. */
  ghost predicate AreAllCoins(cs: seq<BitCoin>, lines: seq<Line>, value: Word, nodes: set<TransTree>)
    reads cs, nodes
  {
    && |cs| == |AllCoins(lines)|
    && forall k :: 0 <= k < |cs| ==>
         Nodes(cs[k].layout) <= nodes && IsNewCoin(cs[k], AllCoins(lines)[k], AllOwners(lines)[k], value)
  }

  lemma PlaceOfCoin(cs: seq<BitCoin>, lines: seq<Line>, value: Word, nodes: set<TransTree>, c: BitCoin) returns (k: nat)
    requires Accepted(lines) && AreAllCoins(cs, lines, value, nodes) && c in cs
    ensures k < |cs| && cs[k] == c && c.ID == AllCoins(lines)[k] && Nodes(c.layout) <= nodes && c.Valid()
    ensures c.ID in Opening(lines, value).trees && c.Tree() == Opening(lines, value).trees[c.ID]
  {
    k :| 0 <= k < |cs| && cs[k] == c;
    assert IsNewCoin(cs[k], AllCoins(lines)[k], AllOwners(lines)[k], value);
    OwnerInOpening(lines, value, k);
  }

  lemma CoinOfPlace(cs: seq<BitCoin>, lines: seq<Line>, value: Word, nodes: set<TransTree>, id: int)
    requires AreAllCoins(cs, lines, value, nodes) && id in AllCoins(lines)
    ensures exists c :: c in cs && c.ID == id
  {
    var k :| 0 <= k < |AllCoins(lines)| && AllCoins(lines)[k] == id;
    assert IsNewCoin(cs[k], AllCoins(lines)[k], AllOwners(lines)[k], value) && cs[k] in cs;
  }

  lemma CoinsDiffer(cs: seq<BitCoin>, lines: seq<Line>, value: Word, nodes: set<TransTree>, c: BitCoin, d: BitCoin)
    requires Accepted(lines) && AllDistinct(lines) && AreAllCoins(cs, lines, value, nodes)
    requires c in cs && d in cs && c != d
    ensures c.ID != d.ID
  {
    NamesOfOpening(lines, value);
    var j := PlaceOfCoin(cs, lines, value, nodes, c);
    var k := PlaceOfCoin(cs, lines, value, nodes, d);
  }

  /** If no line repeats a coin, every coin is one object. */
  lemma AllCoinsHold(cs: seq<BitCoin>, lines: seq<Line>, value: Word, nodes: set<TransTree>)
    requires Accepted(lines) && AllDistinct(lines) && AreAllCoins(cs, lines, value, nodes)
    ensures CoinsHold(cs, Opening(lines, value).trees, nodes)
  {
    var trees := Opening(lines, value).trees;
    NamesOfOpening(lines, value);
    forall c | c in cs ensures c.ID in trees && Nodes(c.layout) <= nodes && c.Valid() && c.Tree() == trees[c.ID] {
      var k := PlaceOfCoin(cs, lines, value, nodes, c);
    }
    forall c, d | c in cs && d in cs && c != d ensures c.ID != d.ID {
      CoinsDiffer(cs, lines, value, nodes, c, d);
    }
    forall id | id in trees ensures exists c :: c in cs && c.ID == id {
      CoinOfPlace(cs, lines, value, nodes, id);
    }
  }

  lemma WalletAdded(ws: seq<Wallet>, before: seq<Line>, value: Word, cells: set<BCList>, w: Wallet, l: Line)
    requires AreWalletsOf(ws, before, value, cells) && IsWalletOf(w, l, value)
    ensures AreWalletsOf(ws + [w], before + [l], value, cells + w.Repr())
  {
  }

  lemma CoinsAdded(cs: seq<BitCoin>, before: seq<Line>, value: Word, nodes: set<TransTree>,
                   l: Line, more: seq<BitCoin>, nodes': set<TransTree>)
    requires AreAllCoins(cs, before, value, nodes) && AreCoinsOf(more, l.coins, l.walletID, value, nodes')
    ensures AreAllCoins(cs + more, before + [l], value, nodes + nodes')
  {
    assert (before + [l])[..|before|] == before;
    var all, lines := cs + more, before + [l];
    forall k | 0 <= k < |all|
      ensures Nodes(all[k].layout) <= nodes + nodes' && IsNewCoin(all[k], AllCoins(lines)[k], AllOwners(lines)[k], value)
    {
      if k < |cs| {
        assert IsNewCoin(cs[k], AllCoins(before)[k], AllOwners(before)[k], value);
      } else {
        assert IsNewCoin(more[k - |cs|], l.coins[k - |cs|], l.walletID, value);
      }
    }
  }

  lemma AcceptedMore(before: seq<Line>, l: Line)
    requires Accepted(before)
    ensures Accepted(before + [l]) <==>
      !(HasWallet(before, l.walletID) || exists c :: c in l.coins && HasCoin(before, c))
  {
    assert (before + [l])[..|before|] == before;
  }

  /** What has been made for the lines so far. */
  ghost predicate Made(ws: seq<Wallet>, cs: seq<BitCoin>, lines: seq<Line>, value: Word,
                       cells: set<BCList>, nodes: set<TransTree>)
    reads ws, cells, cs, nodes
  {
    && Accepted(lines) && AreWalletsOf(ws, lines, value, cells) && (forall b :: b in cells ==> b.thisBC in cs)
    && AreAllCoins(cs, lines, value, nodes)
  }

  /** Makes the wallet and the coins of one more line, if it is accepted. */
  method AddLine(ws: seq<Wallet>, cs: seq<BitCoin>, l: Line, value: Word,
                 ghost before: seq<Line>, ghost cells: set<BCList>, ghost nodes: set<TransTree>)
      returns (ok: bool, w: seq<Wallet>, more: seq<BitCoin>, ghost cells': set<BCList>, ghost nodes': set<TransTree>)
    requires Made(ws, cs, before, value, cells, nodes)
    ensures ok <==> Accepted(before + [l])
    ensures ok ==> Made(ws + w, cs + more, before + [l], value, cells + cells', nodes + nodes')
    ensures fresh(w) && fresh(more) && fresh(cells') && fresh(nodes')
  {
    ok, w, cells' := false, [], {};
    AcceptedMore(before, l);
    var wallet;
    wallet, more, nodes' := MakeWallet(l, value, ws, before, cells);
    if wallet == null {
      more, nodes' := [], {};
    } else {
      ok, w, cells' := true, [wallet], wallet.Repr();
      WalletAdded(ws, before, value, cells, wallet, l);
      CoinsAdded(cs, before, value, nodes, l, more, nodes');
    }
  }

  lemma UpTo(lines: seq<Line>, i: nat)
    requires i < |lines|
    ensures lines[..i + 1] == lines[..i] + [lines[i]]
  {
  }

  /** The wallets, made line by line; none if a line is not accepted. */
  method WalletsInitialization(lines: seq<Line>, value: Word)
      returns (ok: bool, ws: seq<Wallet>, cs: seq<BitCoin>, ghost cells: set<BCList>, ghost nodes: set<TransTree>)
    ensures ok <==> Accepted(lines)
    ensures ok ==> Made(ws, cs, lines, value, cells, nodes)
    ensures fresh(ws) && fresh(cs) && fresh(cells) && fresh(nodes)
  {
    ws, cs, cells, nodes := [], [], {}, {};
    for i := 0 to |lines|
      invariant Made(ws, cs, lines[..i], value, cells, nodes)
      invariant fresh(ws) && fresh(cs) && fresh(cells) && fresh(nodes)
    {
      UpTo(lines, i);
      var w, more;
      ghost var cells', nodes';
      ok, w, more, cells', nodes' := AddLine(ws, cs, lines[i], value, lines[..i], cells, nodes);
      if !ok {
        NeverAccepted(lines, i);
        return;
      }
      ws, cs, cells, nodes := ws + w, cs + more, cells + cells', nodes + nodes';
    }
    assert lines[..|lines|] == lines;
    ok := true;
  }

  lemma {:induction false} NeverAccepted(lines: seq<Line>, i: nat)
    requires i < |lines| && !Accepted(lines[..i + 1])
    ensures !Accepted(lines)
    decreases |lines|
  {
    if i < |lines| - 1 {
      assert lines[..|lines| - 1][..i + 1] == lines[..i + 1];
      NeverAccepted(lines[..|lines| - 1], i);
    } else {
      assert lines[..i + 1] == lines;
    }
  }
}
