/** A wallet with its doubly linked list of coin entries. */
module Wallets {
  import opened Words
  import opened Transactions
  import opened BitCoins
  import L = LedgerSpec

  class BCList {
    const thisBC: BitCoin
    ghost const holder: Id  // the wallet whose list this cell is made for
    var amountOf: Word
    var previous: BCList?
    var next: BCList?

    constructor (bitCoin: BitCoin, amount: Word, prev: BCList?, ghost wallet: Id)
      ensures thisBC == bitCoin && amountOf == amount && previous == prev && next == null && holder == wallet
    {
      thisBC, amountOf, previous, next, holder := bitCoin, amount, prev, null, wallet;
    }
  }

  class Wallet {
    const walletID: Id
    var amount: Word
    var firstBCL: BCList?
    var lastBCL: BCList?
    ghost var cells: seq<BCList>

    ghost function Repr(): set<BCList>
      reads this
    {
      set b | b in cells
    }

    /** first, last, previous and next link exactly the cells, in order. */
    ghost predicate Valid()
      reads this, Repr()
    {
      && firstBCL == (if cells == [] then null else cells[0])
      && lastBCL == (if cells == [] then null else cells[|cells| - 1])
      && (forall i {:trigger cells[i].holder} :: 0 <= i < |cells| ==> cells[i].holder == walletID)
      && (forall i {:trigger cells[i].previous} ::
            0 <= i < |cells| ==> cells[i].previous == if i == 0 then null else cells[i - 1])
      && (forall i {:trigger cells[i].next} ::
            0 <= i < |cells| ==> cells[i].next == if i == |cells| - 1 then null else cells[i + 1])
      && (forall i, j :: 0 <= i < j < |cells| ==> cells[i] != cells[j])
    }

    ghost function Entries(): (s: seq<L.Entry>)
      reads this, Repr()
      ensures |s| == |cells|
    {
      seq(|cells|, i requires 0 <= i < |cells| reads this, Repr() => L.Entry(cells[i].thisBC.ID, cells[i].amountOf))
    }

    constructor (id: Id)
      ensures Valid() && walletID == id && amount == 0 && cells == [] && Entries() == []
    {
      walletID, amount, firstBCL, lastBCL, cells := id, 0, null, null, [];
    }

    /** Adds to the entry of the coin, or appends one. */
    method AddToBCList(bitCoin: BitCoin, amountTransferred: Word)
      requires Valid() && L.AmountIn(Entries(), bitCoin.ID) + amountTransferred < WORD
      modifies this`firstBCL, this`lastBCL, this`cells, Repr()
      ensures Valid() && Entries() == L.AddEntry(old(Entries()), bitCoin.ID, amountTransferred)
      ensures forall b :: b in Repr() ==> b in old(Repr()) || (fresh(b) && b.thisBC == bitCoin)
    {
      if firstBCL == null {
        var cell := new BCList(bitCoin, amountTransferred, null, walletID);
        firstBCL, lastBCL, cells := cell, cell, [cell];
        return;
      }
      var list := firstBCL;
      ghost var i := 0;
      while list != null
        invariant 0 <= i <= |cells| && list == if i == |cells| then null else cells[i]
        invariant forall k :: 0 <= k < i ==> cells[k].thisBC.ID != bitCoin.ID
        decreases |cells| - i
      {
        if list.thisBC.ID == bitCoin.ID {
          L.AddEntryToFirst(Entries(), bitCoin.ID, amountTransferred, i);
          list.amountOf := Add(list.amountOf, amountTransferred);
          assert Entries() == old(Entries())[i := L.Entry(bitCoin.ID, old(Entries())[i].amount + amountTransferred)];
          return;
        }
        list := list.next;
        i := i + 1;
      }
      L.AddEntryAtEnd(Entries(), bitCoin.ID, amountTransferred);
      var cell := new BCList(bitCoin, amountTransferred, lastBCL, walletID);
      lastBCL.next := cell;
      lastBCL := cell;
      cells := cells + [cell];
      assert Entries() == old(Entries()) + [L.Entry(bitCoin.ID, amountTransferred)];
    }

    /** Appends an entry without looking for its coin, as when a wallet is first
        filled. */
    method AppendBC(bitCoin: BitCoin, value: Word)
      requires Valid()
      modifies this`firstBCL, this`lastBCL, this`cells, Repr()
      ensures Valid() && Entries() == old(Entries()) + [L.Entry(bitCoin.ID, value)]
      ensures forall b :: b in Repr() ==> b in old(Repr()) || (fresh(b) && b.thisBC == bitCoin)
    {
      var cell := new BCList(bitCoin, value, lastBCL, walletID);
      if firstBCL == null {
        firstBCL, lastBCL := cell, cell;
      } else {
        lastBCL.next := cell;
        lastBCL := cell;
      }
      cells := cells + [cell];
      assert Entries() == old(Entries()) + [L.Entry(bitCoin.ID, value)];
    }

    /** Does the list have an entry of a coin? */
    method HasBC(id: int) returns (found: bool)
      requires Valid()
      ensures found <==> L.Lists(Entries(), id)
    {
      var currBCL := firstBCL;
      ghost var i := 0;
      assert Entries()[0..] == Entries();
      while currBCL != null
        invariant 0 <= i <= |cells| && currBCL == if i == |cells| then null else cells[i]
        invariant L.Lists(Entries(), id) <==> L.Lists(Entries()[i..], id)
        decreases |cells| - i
      {
        assert Entries()[i..][0] == L.Entry(currBCL.thisBC.ID, currBCL.amountOf) && Entries()[i..][1..] == Entries()[i + 1..];
        if currBCL.thisBC.ID == id { return true; }
        currBCL := currBCL.next;
        i := i + 1;
      }
      assert Entries()[i..] == [];
      found := false;
    }

    /** Unlinks one cell of the list. */
    method RemoveFromBCList(bcList: BCList, ghost k: nat)
      requires Valid() && k < |cells| && cells[k] == bcList
      modifies this`firstBCL, this`lastBCL, this`cells, Repr()
      ensures Valid() && cells == old(cells)[..k] + old(cells)[k + 1..]
      ensures Entries() == old(Entries())[..k] + old(Entries())[k + 1..]
    {
      if firstBCL == bcList && firstBCL == lastBCL {
        firstBCL, lastBCL := null, null;
      } else if firstBCL == bcList {
        firstBCL := bcList.next;
        bcList.next.previous := null;
      } else if lastBCL == bcList {
        lastBCL := bcList.previous;
        bcList.previous.next := null;
      } else {
        bcList.next.previous := bcList.previous;
        bcList.previous.next := bcList.next;
      }
      cells := cells[..k] + cells[k + 1..];
    }
  }
}
