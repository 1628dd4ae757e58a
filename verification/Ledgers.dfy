/** All wallets and coins in the heap, and the payment between two wallets. */
module Ledgers {
  import opened Words
  import opened Transactions
  import opened Layouts
  import opened BitCoins
  import opened Wallets
  import T = CoinTree
  import opened LedgerSpec

  /** All coins. `pool` contains every node of every tree. */
  class CoinList {
    const coins: seq<BitCoin>
    ghost var trees: map<int, T.Tree>
    ghost var pool: set<TransTree>

    constructor (cs: seq<BitCoin>, ghost ts: map<int, T.Tree>, ghost nodes: set<TransTree>)
      ensures coins == cs && trees == ts && pool == nodes
    {
      coins, trees, pool := cs, ts, nodes;
    }

    ghost predicate Holds(c: BitCoin, t: T.Tree)
      reads c, Nodes(c.layout)
    {
      c.Valid() && t == c.Tree()
    }

    /** No two coins have the same ID, and these are the keys of `trees`. */
    ghost predicate KeysOK()
      reads this
    {
      && (forall c, d :: c in coins && d in coins && c != d ==> c.ID != d.ID)
      && (forall c :: c in coins ==> c.ID in trees)
      && (forall id :: id in trees ==> exists c :: c in coins && c.ID == id)
    }

    /** `trees` is what the heap holds. */
    ghost predicate Valid()
      reads this, coins, pool
    {
      KeysOK() && forall c :: c in coins ==> Nodes(c.layout) <= pool && Holds(c, trees[c.ID])
    }

    lemma TreesApart(c: BitCoin, d: BitCoin)
      requires Valid() && c in coins && d in coins && c != d
      ensures Nodes(c.layout) !! Nodes(d.layout)
    {
      assert Holds(c, trees[c.ID]) && Holds(d, trees[d.ID]);
      assert forall n :: n in Nodes(c.layout) ==> n.coin == c.ID;
      assert forall n :: n in Nodes(d.layout) ==> n.coin == d.ID;
    }

    method Transfer(coin: BitCoin, part: Word, p: T.Payment) returns (amountTransferred: Word)
      requires Valid() && coin in coins
      modifies this, coin, pool
      ensures Valid() && (forall x :: x in pool ==> x in old(pool) || fresh(x))
      ensures amountTransferred as nat == T.Transfer(old(trees)[coin.ID], part, p).1
      ensures trees == old(trees)[coin.ID := T.Transfer(old(trees)[coin.ID], part, p).0]
    {
      assert Holds(coin, trees[coin.ID]);
      forall c | c in coins && c != coin ensures Nodes(c.layout) !! Nodes(coin.layout) {
        TreesApart(c, coin);
      }
      ghost var visited;
      amountTransferred, visited := coin.MakeBCTransaction(part, p);
      trees, pool := trees[coin.ID := coin.Tree()], pool + Nodes(coin.layout);
      forall c | c in coins && c != coin ensures Holds(c, trees[c.ID]) {
        assert old(Holds(c, trees[c.ID]));
      }
    }
  }

  lemma RechargedBy(purses: map<Id, Purse>, s: Id, r: Id, amount: nat, less: nat, more: nat)
    requires s in purses && r in purses && s != r && amount <= purses[s].total
    requires less == purses[s].total - amount && more == purses[r].total + amount
    ensures Recharged(purses, s, r, amount) == WithTotal(WithTotal(purses, s, less), r, more)
  {
  }

  /** All wallets. `pool` contains every cell of every list, `known` every coin
      that may be listed. */
  class WalletArray {
    const wallets: seq<Wallet>
    ghost const known: set<BitCoin>
    ghost var purses: map<Id, Purse>
    ghost var pool: set<BCList>

    constructor (ws: seq<Wallet>, ghost cs: set<BitCoin>, ghost ps: map<Id, Purse>, ghost cells: set<BCList>)
      ensures wallets == ws && known == cs && purses == ps && pool == cells
    {
      wallets, known, purses, pool := ws, cs, ps, cells;
    }

    ghost predicate Holds(w: Wallet, purse: Purse)
      reads w, w.Repr()
    {
      && w.Valid() && purse == Purse(w.amount, w.Entries())
      && forall b :: b in w.Repr() ==> b.thisBC in known
    }

    /** No two wallets have the same ID, and these are the keys of `purses`. */
    ghost predicate KeysOK()
      reads this
    {
      && (forall v, w :: v in wallets && w in wallets && v != w ==> v.walletID != w.walletID)
      && (forall w :: w in wallets ==> w.walletID in purses)
      && (forall id :: id in purses ==> exists w :: w in wallets && w.walletID == id)
    }

    /** `purses` is what the heap holds. */
    ghost predicate Valid()
      reads this, wallets, pool
    {
      KeysOK() && forall w :: w in wallets ==> w.Repr() <= pool && Holds(w, purses[w.walletID])
    }

    lemma ListsApart(w: Wallet)
      requires Valid() && w in wallets
      ensures forall v :: v in wallets && v != w ==> v.Repr() !! w.Repr()
    {
      assert Holds(w, purses[w.walletID]);
      assert forall b :: b in w.Repr() ==> b.holder == w.walletID;
      forall v | v in wallets && v != w ensures v.Repr() !! w.Repr() {
        assert Holds(v, purses[v.walletID]);
        assert forall b :: b in v.Repr() ==> b.holder == v.walletID;
      }
    }

    /** Notes that wallet `w` has changed, when no other wallet has. */
    ghost method Note(w: Wallet, purse: Purse)
      requires KeysOK() && w in wallets && Holds(w, purse)
      requires forall v :: v in wallets ==> v.Repr() <= pool && (v != w ==> Holds(v, purses[v.walletID]))
      modifies this`purses
      ensures Valid() && purses == old(purses)[w.walletID := purse]
    {
      purses := purses[w.walletID := purse];
      forall v | v in wallets ensures Holds(v, purses[v.walletID]) {
        assert v != w ==> old(Holds(v, purses[v.walletID]));
      }
    }

    /** Adds an amount of a coin to a wallet's list. */
    method Credit(w: Wallet, coin: BitCoin, amount: Word)
      requires Valid() && w in wallets && coin in known
      requires AmountIn(purses[w.walletID].entries, coin.ID) + amount < WORD
      modifies this, w, pool
      ensures Valid() && (forall x :: x in pool ==> x in old(pool) || fresh(x))
      ensures purses == Credited(old(purses), w.walletID, coin.ID, amount)
    {
      assert Holds(w, purses[w.walletID]);
      ListsApart(w);
      ghost var purse := purses[w.walletID];
      w.AddToBCList(coin, amount);
      pool := pool + w.Repr();
      Note(w, purse.(entries := AddEntry(purse.entries, coin.ID, amount)));
    }

    /** Takes an amount out of the first entry of a wallet's list. */
    method DebitFirst(w: Wallet, amount: Word)
      requires Valid() && w in wallets && purses[w.walletID].entries != []
      requires amount <= purses[w.walletID].entries[0].amount
      modifies this`purses, pool
      ensures Valid()
      ensures purses == DebitedFirst(old(purses), w.walletID, amount)
    {
      assert Holds(w, purses[w.walletID]);
      ListsApart(w);
      ghost var purse := purses[w.walletID];
      ghost var left := purse.entries[0].amount - amount;
      w.firstBCL.amountOf := Sub(w.firstBCL.amountOf, amount);
      ghost var entries := purse.entries[0 := Entry(purse.entries[0].coin, left)];
      assert w.Entries() == entries;
      assert DebitedFirst(purses, w.walletID, amount) == purses[w.walletID := purse.(entries := entries)];
      Note(w, purse.(entries := entries));
    }

    /** Gives part of the coin of the sender's first entry to the receiver: the
        receiver's list first, then the sender's entry. */
    method MovePart(sndr: Wallet, rcvr: Wallet, amount: Word)
      requires Valid() && sndr in wallets && rcvr in wallets && sndr.walletID != rcvr.walletID
      requires sndr.firstBCL != null && sndr.firstBCL.thisBC in known && amount <= sndr.firstBCL.amountOf
      requires AmountIn(purses[rcvr.walletID].entries, sndr.firstBCL.thisBC.ID) + amount < WORD
      modifies this, rcvr, pool
      ensures Valid() && (forall x :: x in pool ==> x in old(pool) || fresh(x))
      ensures old(purses)[sndr.walletID].entries != []
      ensures purses == DebitedFirst(Credited(old(purses), rcvr.walletID, old(purses)[sndr.walletID].entries[0].coin, amount),
                                     sndr.walletID, amount)
    {
      assert Holds(sndr, purses[sndr.walletID]);
      Credit(rcvr, sndr.firstBCL.thisBC, amount);
      DebitFirst(sndr, amount);
    }

    /** Drops the first entry of a wallet's list. */
    method DropFirst(w: Wallet, cell: BCList)
      requires Valid() && w in wallets && w.firstBCL == cell
      modifies this`purses, w, pool
      ensures Valid() && |old(purses)[w.walletID].entries| > 0
      ensures var purse := old(purses)[w.walletID];
        purses == old(purses)[w.walletID := purse.(entries := purse.entries[1..])]
      ensures w.firstBCL == old(cell.next)
    {
      assert Holds(w, purses[w.walletID]);
      ListsApart(w);
      ghost var purse := purses[w.walletID];
      w.RemoveFromBCList(cell, 0);
      assert w.Entries() == purse.entries[1..];
      Note(w, purse.(entries := purse.entries[1..]));
    }

    /** Moves an amount between two cached totals. */
    method ChangeAmounts(sender: Wallet, receiver: Wallet, amount: Word)
      requires Valid() && sender in wallets && receiver in wallets && sender.walletID != receiver.walletID
      requires amount <= purses[sender.walletID].total && purses[receiver.walletID].total + amount < WORD
      modifies this`purses, sender`amount, receiver`amount
      ensures Valid() && purses == Recharged(old(purses), sender.walletID, receiver.walletID, amount)
    {
      assert Holds(sender, purses[sender.walletID]) && Holds(receiver, purses[receiver.walletID]);
      ghost var s, r := purses[sender.walletID].total - amount, purses[receiver.walletID].total + amount;
      RechargedBy(purses, sender.walletID, receiver.walletID, amount, s, r);
      var less := Sub(sender.amount, amount);
      assert less == s;
      SetAmount(sender, less);
      var more := Add(receiver.amount, amount);
      assert more == r;
      SetAmount(receiver, more);
    }

    method SetAmount(w: Wallet, amount: Word)
      requires Valid() && w in wallets
      modifies this`purses, w`amount
      ensures Valid() && purses == WithTotal(old(purses), w.walletID, amount)
    {
      assert Holds(w, purses[w.walletID]);
      ghost var purse := purses[w.walletID];
      w.amount := amount;
      Note(w, purse.(total := amount));
    }
  }

  lemma {:induction false} OwnedBound(t: T.Tree, w: Id)
    requires T.Sound(t)
    ensures T.Owned(t, w) <= t.amount
  {
    match t
    case Leaf(_, _, _) =>
    case One(_, _, _, right) => OwnedBound(right, w);
    case Two(_, _, _, left, right) => OwnedBound(left, w); OwnedBound(right, w);
  }

  class Ledger {
    const walletArray: WalletArray
    const coinList: CoinList

    constructor (w: WalletArray, c: CoinList)
      ensures walletArray == w && coinList == c
    {
      walletArray, coinList := w, c;
    }

    ghost function State(): State
      reads walletArray, coinList
    {
      LedgerSpec.State(coinList.trees, walletArray.purses)
    }

    ghost predicate Valid()
      reads walletArray, walletArray.wallets, walletArray.pool
      reads coinList, coinList.coins, coinList.pool
    {
      && walletArray.Valid() && coinList.Valid()
      && forall c :: c in walletArray.known ==> c in coinList.coins
    }

    /** New cells and nodes are newly allocated. */
    twostate predicate Grown()
      reads walletArray, coinList
    {
      && (forall b :: b in walletArray.pool ==> b in old(walletArray.pool) || fresh(b))
      && (forall n :: n in coinList.pool ==> n in old(coinList.pool) || fresh(n))
    }

    /** The sender and the receiver of a payment, as objects. */
    ghost predicate Between(sndr: Wallet, rcvr: Wallet, p: T.Payment) {
      && sndr in walletArray.wallets && rcvr in walletArray.wallets
      && p.sender == sndr.walletID && p.receiver == rcvr.walletID && p.sender != p.receiver
    }

    /** `cell` is the head of the sender's list, and the ghost state's first
        entry says what it says. */
    ghost predicate AtHead(sndr: Wallet, cell: BCList, p: T.Payment)
      reads walletArray, coinList, sndr, cell
    {
      && Parties(State(), p) && sndr.firstBCL == cell && cell.previous == null
      && State().purses[p.sender].entries != []
      && State().purses[p.sender].entries[0] == Entry(cell.thisBC.ID, cell.amountOf)
      && cell.thisBC in walletArray.known && cell.thisBC in coinList.coins && cell.thisBC.ID in State().trees
    }

    lemma FirstCell(sndr: Wallet, rcvr: Wallet, p: T.Payment)
      requires Valid() && Between(sndr, rcvr, p)
      ensures Parties(State(), p)
      ensures State().purses[p.sender].entries != [] ==> sndr.firstBCL != null && AtHead(sndr, sndr.firstBCL, p)
    {
      assert walletArray.Holds(sndr, walletArray.purses[sndr.walletID]);
      if sndr.cells != [] {
        assert sndr.cells[0] in sndr.Repr();
      }
    }

    lemma SecondCell(sndr: Wallet)
      requires walletArray.Valid() && sndr in walletArray.wallets
      requires |walletArray.purses[sndr.walletID].entries| > 1
      ensures sndr.firstBCL != null && sndr.firstBCL.next != null && sndr.firstBCL.next.previous == sndr.firstBCL
    {
      assert walletArray.Holds(sndr, walletArray.purses[sndr.walletID]);
      assert sndr.cells[1].previous == sndr.cells[0] && sndr.cells[0].next == sndr.cells[1];
    }

    /** The receiver's list can take a part of the coin without wrapping. */
    predicate Fits(st: State, part: nat, p: T.Payment)
      requires CanDraw(st, part, p)
    {
      AmountIn(st.purses[p.receiver].entries, st.purses[p.sender].entries[0].coin) + part < WORD
    }

    lemma CreditFits(st: State, part: nat, p: T.Payment)
      requires coinList.Valid() && st.trees == coinList.trees && Agree(st) && CanDraw(st, part, p)
      requires part > 0 || part == st.purses[p.sender].entries[0].amount
      ensures Fits(st, part, p) && Drawn(st, part, p) == part
    {
      var id := st.purses[p.sender].entries[0].coin;
      var coin :| coin in coinList.coins && coin.ID == id;
      assert coinList.Holds(coin, st.trees[coin.ID]);
      assert SameShare(st, p.receiver, coin.ID) && TreeOK(st, coin.ID);
      DrawGives(st, part, p);
      T.TransferMoves(st.trees[coin.ID], part, p);
      OwnedBound(T.Transfer(st.trees[coin.ID], part, p).0, p.receiver);
    }

    // The four steps of a payment, each with what it leaves alone.

    method TransferCoin(coin: BitCoin, part: Word, p: T.Payment) returns (amountTransferred: Word)
      requires Valid() && coin in coinList.coins && coin.ID in State().trees
      modifies coinList, coinList.coins, coinList.pool
      ensures Valid() && Grown()
      ensures var t := T.Transfer(old(State()).trees[coin.ID], part, p);
        amountTransferred as nat == t.1 && State() == old(State()).(trees := old(State()).trees[coin.ID := t.0])
    {
      amountTransferred := coinList.Transfer(coin, part, p);
    }

    method MovePart(sndr: Wallet, rcvr: Wallet, cell: BCList, amount: Word, p: T.Payment)
      requires Valid() && Between(sndr, rcvr, p) && AtHead(sndr, cell, p) && amount <= cell.amountOf
      requires AmountIn(State().purses[p.receiver].entries, cell.thisBC.ID) + amount < WORD
      modifies walletArray, rcvr, walletArray.pool
      ensures Valid() && Grown()
      ensures State() == old(State()).(purses :=
        DebitedFirst(Credited(old(State()).purses, p.receiver, old(State()).purses[p.sender].entries[0].coin, amount),
                     p.sender, amount))
    {
      walletArray.MovePart(sndr, rcvr, amount);
    }

    method DropFirst(sndr: Wallet, cell: BCList)
      requires Valid() && sndr in walletArray.wallets && sndr.firstBCL == cell
      modifies walletArray`purses, sndr, walletArray.pool
      ensures Valid() && Grown() && sndr.firstBCL == old(cell.next)
      ensures sndr.walletID in old(State()).purses && old(State()).purses[sndr.walletID].entries != []
      ensures State() == LedgerSpec.DropFirst(old(State()), sndr.walletID)
    {
      walletArray.DropFirst(sndr, cell);
    }

    method ChangeAmounts(sndr: Wallet, rcvr: Wallet, amount: Word, p: T.Payment)
      requires Valid() && Between(sndr, rcvr, p) && Parties(State(), p)
      requires amount <= State().purses[p.sender].total && State().purses[p.receiver].total + amount < WORD
      modifies walletArray`purses, sndr`amount, rcvr`amount
      ensures Valid() && Grown()
      ensures State() == old(State()).(purses := Recharged(old(State()).purses, p.sender, p.receiver, amount))
    {
      walletArray.ChangeAmounts(sndr, rcvr, amount);
    }

    /** One round of the payment loop: takes `part` of the coin of the sender's
        first entry, in the coin's tree, in the receiver's list and in the entry. */
    method UseEntry(sndr: Wallet, rcvr: Wallet, bitCoin: BCList, part: Word, p: T.Payment)
        returns (amountTransferred: Word)
      requires Valid() && Between(sndr, rcvr, p) && AtHead(sndr, bitCoin, p)
      requires CanDraw(State(), part, p) && Fits(State(), part, p)
      modifies walletArray, rcvr, walletArray.pool, coinList, coinList.coins, coinList.pool
      ensures Valid() && Grown()
      ensures amountTransferred == Drawn(old(State()), part, p) && State() == Draw(old(State()), part, p)
    {
      amountTransferred := TransferCoin(bitCoin.thisBC, part, p);
      MovePart(sndr, rcvr, bitCoin, amountTransferred, p);
    }

    /** An entry that cannot cover what is still needed: all of it is spent, and
        its cell is removed once the walk has moved on. */
    method UseUpEntry(sndr: Wallet, rcvr: Wallet, cell: BCList, p: T.Payment)
        returns (amountTransferred: Word, bitCoin: BCList?)
      requires Valid() && Between(sndr, rcvr, p) && AtHead(sndr, cell, p)
      requires CanDraw(State(), cell.amountOf, p) && Fits(State(), cell.amountOf, p)
      requires |State().purses[p.sender].entries| > 1
      modifies walletArray, sndr, rcvr, walletArray.pool, coinList, coinList.coins, coinList.pool
      ensures Valid() && Grown() && bitCoin == sndr.firstBCL
      ensures amountTransferred == Drawn(old(State()), old(cell.amountOf), p) && State() == UseUp(old(State()), p)
    {
      amountTransferred := UseEntry(sndr, rcvr, cell, cell.amountOf, p);
      SecondCell(sndr);
      bitCoin := cell.next;
      DropFirst(sndr, bitCoin.previous);
    }

    /** The entry that covers what is still needed: part of it is spent, and it
        stays in the list. */
    method UseLastEntry(sndr: Wallet, rcvr: Wallet, bitCoin: BCList, part: Word, p: T.Payment)
        returns (amountTransferred: Word)
      requires Valid() && Between(sndr, rcvr, p) && AtHead(sndr, bitCoin, p)
      requires CanDraw(State(), part, p) && Fits(State(), part, p)
      modifies walletArray, rcvr, walletArray.pool, coinList, coinList.coins, coinList.pool
      ensures Valid() && Grown() && sndr.firstBCL == bitCoin
      ensures amountTransferred == Drawn(old(State()), part, p) && State() == Draw(old(State()), part, p)
    {
      amountTransferred := UseEntry(sndr, rcvr, bitCoin, part, p);
      FirstCell(sndr, rcvr, p);
      if bitCoin.previous != null {
        // The removal of an entry that follows a drained one is never reached:
        // the walk always stands at the head of the list.
        assert false;
      }
    }

    /** One round of the loop of a payment, at the head of the sender's list. */
    method PayRound(sndr: Wallet, rcvr: Wallet, bitCoin: BCList, tmpAmount: Word, p: T.Payment,
                    ghost st: State, ghost amount: Word)
        returns (tmpAmount': Word, bitCoin': BCList?)
      requires Valid() && Between(sndr, rcvr, p) && AtHead(sndr, bitCoin, p) && tmpAmount > 0
      requires InLoop(st, State(), amount, tmpAmount, p)
      modifies walletArray, sndr, rcvr, walletArray.pool, coinList, coinList.coins, coinList.pool
      ensures Valid() && Grown() && bitCoin' == sndr.firstBCL
      ensures InLoop(st, State(), amount, tmpAmount', p)
      ensures EntriesLeft(State(), p) < old(EntriesLeft(State(), p)) || tmpAmount' == 0
      ensures EntriesLeft(State(), p) <= old(EntriesLeft(State(), p))
    {
      ghost var cur := State();
      if bitCoin.amountOf >= tmpAmount {
        LastStep(st, cur, amount, tmpAmount, p);
        CreditFits(cur, tmpAmount, p);
        var amountTransferred := UseLastEntry(sndr, rcvr, bitCoin, tmpAmount, p);
        tmpAmount', bitCoin' := Sub(tmpAmount, amountTransferred), bitCoin;
      } else {
        ghost var rest := tmpAmount - bitCoin.amountOf;
        UseUpStep(st, cur, amount, tmpAmount, rest, p);
        CreditFits(cur, bitCoin.amountOf, p);
        var amountTransferred;
        amountTransferred, bitCoin' := UseUpEntry(sndr, rcvr, bitCoin, p);
        tmpAmount' := Sub(tmpAmount, amountTransferred);
        assert tmpAmount' == rest;
      }
    }

    /** The loop of a payment: walks the sender's list from its head. */
    method PayLoop(sndr: Wallet, rcvr: Wallet, amount: Word, p: T.Payment)
      requires Valid() && Between(sndr, rcvr, p) && InLoop(State(), State(), amount, amount, p)
      modifies walletArray, sndr, rcvr, walletArray.pool, coinList, coinList.coins, coinList.pool
      ensures Valid() && Grown()
      ensures Parties(old(State()), p) && State() == PayFromList(old(State()), amount, p)
    {
      ghost var st := State();
      var tmpAmount := amount;
      var bitCoin := sndr.firstBCL;
      while tmpAmount > 0
        invariant Valid() && Grown() && bitCoin == sndr.firstBCL
        invariant InLoop(st, State(), amount, tmpAmount, p)
        decreases EntriesLeft(State(), p), tmpAmount
      {
        FirstCell(sndr, rcvr, p);
        NotEmpty(State(), tmpAmount, p);
        tmpAmount, bitCoin := PayRound(sndr, rcvr, bitCoin, tmpAmount, p, st, amount);
      }
      LoopEnd(st, State(), amount, p);
    }

    /** Pays `amount` from one wallet to another. */
    method MakeTransaction(sndr: Wallet, rcvr: Wallet, amount: Word, p: T.Payment)
      requires Valid() && Between(sndr, rcvr, p) && Parties(State(), p)
      requires Agree(State()) && TotalsAgree(State())
      requires amount <= State().purses[p.sender].total && State().purses[p.receiver].total + amount < WORD
      modifies walletArray, sndr, rcvr, walletArray.pool, coinList, coinList.coins, coinList.pool
      ensures Valid() && Grown() && State() == Pay(old(State()), amount, p)
    {
      LoopStart(State(), amount, p);
      PayLoop(sndr, rcvr, amount, p);
      ChangeAmounts(sndr, rcvr, amount, p);
    }
  }

  // ----- the payment loop, seen from the ghost state

  /** The loop that was to pay `amount` in state `st0` has `need` left to pay. */
  ghost predicate InLoop(st0: State, st: State, amount: nat, need: nat, p: T.Payment) {
    && Parties(st0, p) && Parties(st, p) && Agree(st) && need <= Sum(st.purses[p.sender].entries)
    && PayFromList(st, need, p) == PayFromList(st0, amount, p)
  }

  ghost function EntriesLeft(st: State, p: T.Payment): nat {
    if p.sender in st.purses then |st.purses[p.sender].entries| else 0
  }

  lemma LoopStart(st: State, amount: nat, p: T.Payment)
    requires Agree(st) && TotalsAgree(st) && Parties(st, p) && amount <= st.purses[p.sender].total
    ensures InLoop(st, st, amount, amount, p)
  {
    assert TotalOK(st, p.sender);
  }

  lemma NotEmpty(st: State, need: nat, p: T.Payment)
    requires Parties(st, p) && 0 < need <= Sum(st.purses[p.sender].entries)
    ensures st.purses[p.sender].entries != []
  {
  }

  lemma LastStep(st0: State, st: State, amount: nat, need: nat, p: T.Payment)
    requires InLoop(st0, st, amount, need, p) && need > 0 && CanDraw(st, need, p)
    ensures InLoop(st0, Draw(st, need, p), amount, 0, p)
    ensures EntriesLeft(Draw(st, need, p), p) == EntriesLeft(st, p)
  {
    NeverStuckIff(st, need, p);
    DrawPays(st, need, p);
  }

  lemma UseUpStep(st0: State, st: State, amount: nat, need: nat, rest: nat, p: T.Payment)
    requires InLoop(st0, st, amount, need, p) && CanDraw(st, 0, p) && rest > 0
    requires need == st.purses[p.sender].entries[0].amount + rest
    ensures |st.purses[p.sender].entries| > 1 && InLoop(st0, UseUp(st, p), amount, rest, p)
    ensures EntriesLeft(UseUp(st, p), p) < EntriesLeft(st, p)
  {
    NeverStuckIff(st, need, p);
    UseUpPays(st, p);
    PayFromListStep(st, need, rest, p);
  }

  lemma LoopEnd(st0: State, st: State, amount: nat, p: T.Payment)
    requires InLoop(st0, st, amount, 0, p)
    ensures st == PayFromList(st0, amount, p)
  {
  }
}
