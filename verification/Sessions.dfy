/** The whole bitcoin program, from its two input files to its last request. */
module Sessions {
  import opened Words
  import opened Transactions
  import opened Layouts
  import opened BitCoins
  import opened Wallets
  import opened Ledgers
  import opened LedgerSpec
  import opened LedgerLaws
  import opened HashTables
  import opened StrCmp
  import opened Banks
  import O = OpeningSpec
  import opened Openings
  import B = BankSpec
  import T = CoinTree

  lemma WalletIsHeld(ws: seq<Wallet>, lines: seq<O.Line>, value: Word, cells: set<BCList>, w: Wallet)
    requires O.Accepted(lines) && AreWalletsOf(ws, lines, value, cells) && w in ws
    ensures var st := O.Opening(lines, value);
      && w.walletID in st.purses && w.Repr() <= cells && w.Valid()
      && st.purses[w.walletID] == Purse(w.amount, w.Entries())
  {
    var k :| 0 <= k < |ws| && ws[k] == w;
    O.OpeningHasAll(lines, value);
    assert IsWalletOf(ws[k], lines[k], value) && O.HasLine(O.Opening(lines, value), lines[k], value);
  }

  lemma WalletsDiffer(ws: seq<Wallet>, lines: seq<O.Line>, value: Word, cells: set<BCList>, v: Wallet, w: Wallet)
    requires O.Accepted(lines) && AreWalletsOf(ws, lines, value, cells) && v in ws && w in ws && v != w
    ensures v.walletID != w.walletID
  {
    var j :| 0 <= j < |ws| && ws[j] == v;
    var k :| 0 <= k < |ws| && ws[k] == w;
    assert IsWalletOf(ws[j], lines[j], value) && IsWalletOf(ws[k], lines[k], value);
    if v.walletID == w.walletID {
      O.OneWallet(lines, j, k);
    }
  }

  lemma WalletIsThere(ws: seq<Wallet>, lines: seq<O.Line>, value: Word, cells: set<BCList>, id: Id)
    requires O.Accepted(lines) && AreWalletsOf(ws, lines, value, cells) && id in O.Opening(lines, value).purses
    ensures exists w :: w in ws && w.walletID == id
  {
    var k := O.LineOfWallet(lines, value, id);
    assert IsWalletOf(ws[k], lines[k], value) && ws[k] in ws;
  }

  method NewWalletArray(ws: seq<Wallet>, lines: seq<O.Line>, value: Word, ghost cells: set<BCList>, ghost cs: set<BitCoin>)
      returns (wa: WalletArray)
    requires O.Accepted(lines) && AreWalletsOf(ws, lines, value, cells) && allocated(cells)
    requires forall b :: b in cells ==> b.thisBC in cs
    ensures fresh(wa) && wa.wallets == ws && wa.pool == cells && wa.known == cs
    ensures wa.Valid() && wa.purses == O.Opening(lines, value).purses
  {
    ghost var purses := O.Opening(lines, value).purses;
    wa := new WalletArray(ws, cs, purses, cells);
    forall w | w in ws ensures w.walletID in purses && w.Repr() <= cells && wa.Holds(w, purses[w.walletID]) {
      WalletIsHeld(ws, lines, value, cells, w);
    }
    forall v, w | v in ws && w in ws && v != w ensures v.walletID != w.walletID {
      WalletsDiffer(ws, lines, value, cells, v, w);
    }
    forall id | id in purses ensures exists w :: w in ws && w.walletID == id {
      WalletIsThere(ws, lines, value, cells, id);
    }
  }

  method NewCoinList(cs: seq<BitCoin>, lines: seq<O.Line>, value: Word, ghost nodes: set<TransTree>) returns (cl: CoinList)
    requires O.Accepted(lines) && AreAllCoins(cs, lines, value, nodes) && allocated(nodes)
    ensures fresh(cl) && cl.coins == cs && cl.pool == nodes && cl.trees == O.Opening(lines, value).trees
    ensures AreAllCoins(cl.coins, lines, value, cl.pool) && (O.AllDistinct(lines) ==> cl.Valid())
  {
    ghost var trees := O.Opening(lines, value).trees;
    if O.AllDistinct(lines) {
      AllCoinsHold(cs, lines, value, nodes);
    }
    cl := new CoinList(cs, trees, nodes);
  }

  /** All objects of a ledger. */
  ghost function PartsOf(wa: WalletArray, cl: CoinList): set<object>
    reads wa, cl
  {
    var wallets: set<object>, coins: set<object> := (set w | w in wa.wallets), (set c | c in cl.coins);
    {wa, cl} + wallets + coins + wa.pool + cl.pool
  }

  lemma PartsAre(wa: WalletArray, cl: CoinList, x: object)
    requires x in PartsOf(wa, cl)
    ensures x == wa || x == cl || x in wa.wallets || x in cl.coins || x in wa.pool || x in cl.pool
  {
  }

  /** The ledger holds what a balances file says: the wallets have the lists of
      the lines, and there is one new coin for every place on a line. */
  ghost predicate Opened(l: Ledger, lines: seq<O.Line>, value: Word)
    reads l.walletArray, l.walletArray.wallets, l.walletArray.pool
    reads l.coinList, l.coinList.coins, l.coinList.pool
  {
    && l.walletArray.Valid() && |l.walletArray.wallets| == |lines| && l.State() == O.Opening(lines, value)
    && AreAllCoins(l.coinList.coins, lines, value, l.coinList.pool)
  }

  method NewLedger(wa: WalletArray, cs: seq<BitCoin>, lines: seq<O.Line>, value: Word, ghost nodes: set<TransTree>)
      returns (l: Ledger)
    requires wa.Valid() && |wa.wallets| == |lines| && wa.purses == O.Opening(lines, value).purses
    requires O.Accepted(lines) && AreAllCoins(cs, lines, value, nodes) && allocated(nodes)
    requires forall c :: c in wa.known ==> c in cs
    ensures l.walletArray == wa && fresh(l.coinList) && l.coinList.coins == cs && l.coinList.pool == nodes
    ensures Opened(l, lines, value) && (O.AllDistinct(lines) ==> LedgerOK(l, PartsOf(wa, l.coinList)))
  {
    var cl := NewCoinList(cs, lines, value, nodes);
    l := new Ledger(wa, cl);
  }

  method MakeLedger(ws: seq<Wallet>, cs: seq<BitCoin>, lines: seq<O.Line>, value: Word,
                    ghost cells: set<BCList>, ghost nodes: set<TransTree>)
      returns (l: Ledger)
    requires Made(ws, cs, lines, value, cells, nodes) && allocated(cells) && allocated(nodes)
    ensures fresh(l.walletArray) && l.walletArray.wallets == ws && l.walletArray.pool == cells
    ensures fresh(l.coinList) && l.coinList.coins == cs && l.coinList.pool == nodes
    ensures Opened(l, lines, value) && (O.AllDistinct(lines) ==> LedgerOK(l, PartsOf(l.walletArray, l.coinList)))
  {
    ghost var known := set c | c in cs;
    var wa := NewWalletArray(ws, lines, value, cells, known);
    l := NewLedger(wa, cs, lines, value, nodes);
  }

  /** Reads the balances file. If no line repeats a coin, the ledger is in order. */
  method OpenLedger(lines: seq<O.Line>, value: Word) returns (l: Ledger?, ghost repr: set<object>)
    ensures l != null <==> O.Accepted(lines)
    ensures l != null ==> Opened(l, lines, value) && (O.AllDistinct(lines) ==> LedgerOK(l, repr))
    ensures fresh(repr)
  {
    l, repr := null, {};
    var ok, ws, cs;
    ghost var cells, nodes;
    ok, ws, cs, cells, nodes := WalletsInitialization(lines, value);
    if ok {
      l := MakeLedger(ws, cs, lines, value, cells, nodes);
      repr := PartsOf(l.walletArray, l.coinList);
      forall x | x in repr ensures fresh(x) {
        PartsAre(l.walletArray, l.coinList, x);
      }
    }
  }

  /** Reads both files and carries out the requests. Whatever they are, if the
      balances file has no coin twice, a worth for its coins and a supply below
      the word, then in the end the three records of the ledger agree, the
      totals add up to the supply, and the tables are the history `h` of what
      was accepted. */
  method Session(lines: seq<O.Line>, value: Word, senderEntries: nat, receiverEntries: nat, bucketSize: nat,
                 transactions: seq<B.Line>, requests: seq<B.Request>)
      returns (p: Program?)
    requires O.SoundLines(lines, value) && |O.AllCoins(lines)| * value < WORD
    requires 0 < |lines| <= 0x4000_0000 && senderEntries > 0 && receiverEntries > 0 && bucketSize >= ITEM_SIZE
    requires forall i :: 0 <= i < |transactions| ==> Fits(transactions[i].id)
    ensures p != null <==> O.Accepted(lines)
    ensures p != null ==>
      var first := B.Fresh(O.Opening(lines, value));
      && p.Valid() && p.State() == B.RequestedAll(B.LoadedAll(first, {}, transactions), requests)
      && B.Reached(p.State(), O.Opening(lines, value), B.History(first, transactions, requests))
      && (forall w :: w in O.WalletIDs(lines) ==> w in p.State().ledger.purses)
      && AllTotals(p.State().ledger, O.WalletIDs(lines)) == |O.AllCoins(lines)| * value
  {
    p := null;
    assert forall k :: 0 <= k < |lines| ==> O.SoundLine(lines[k], value);
    var l;
    ghost var repr;
    l, repr := OpenLedger(lines, value);
    if l != null {
      SolventAtFirst(lines, value);
      p := new Program(l, senderEntries, receiverEntries, bucketSize, O.WalletIDs(lines), O.AllCoins(lines), repr);
      p.Run(transactions, requests);
      SupplyAtLast(lines, value, p.State(), B.History(B.Fresh(O.Opening(lines, value)), transactions, requests));
    }
  }

  lemma SolventAtFirst(lines: seq<O.Line>, value: Word)
    requires O.Accepted(lines) && O.SoundLines(lines, value) && |O.AllCoins(lines)| * value < WORD
    ensures Solvent(O.Opening(lines, value), O.WalletIDs(lines), O.AllCoins(lines))
    ensures B.Untouched(O.Opening(lines, value))
  {
    O.OpeningUntouched(lines, value);
    assert forall k :: 0 <= k < |lines| ==> O.SoundLine(lines[k], value);
    O.OpeningAgreesIff(lines, value);
    O.NamesOfOpening(lines, value);
    O.SupplyIs(lines, value, O.AllCoins(lines));
  }

  lemma SupplyAtLast(lines: seq<O.Line>, value: Word, b: B.Bank, h: seq<B.Accepted>)
    requires O.Accepted(lines) && O.SoundLines(lines, value) && B.Reached(b, O.Opening(lines, value), h)
    ensures forall w :: w in O.WalletIDs(lines) ==> w in b.ledger.purses
    ensures AllTotals(b.ledger, O.WalletIDs(lines)) == |O.AllCoins(lines)| * value
  {
    assert forall k :: 0 <= k < |lines| ==> O.SoundLine(lines[k], value);
    O.NamesOfOpening(lines, value);
    B.SupplyKept(b, O.Opening(lines, value), h, O.WalletIDs(lines), O.AllCoins(lines));
    O.SupplyIs(lines, value, O.AllCoins(lines));
  }
}
