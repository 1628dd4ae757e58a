/** The running program: the wallets in order, the ledger, both tables and the
    two globals; requests, and the loading of a transactions file. */
module Banks {
  import opened Words
  import opened Transactions
  import opened Wallets
  import opened Ledgers
  import opened HashTables
  import opened StrCmp
  import opened MergeSorts
  import T = CoinTree
  import opened LedgerSpec
  import opened LedgerLaws
  import B = BankSpec

  /** The three records agree, and no sum can exceed a word. */
  ghost predicate Solvent(st: State, ids: seq<Id>, coins: seq<int>) {
    && Agree(st) && TotalsAgree(st) && Names(ids, st.purses.Keys) && Names(coins, st.trees.Keys)
    && AllValues(st, coins) < WORD
  }

  lemma StaysSolvent(st: State, ids: seq<Id>, coins: seq<int>, amount: nat, p: T.Payment)
    requires Solvent(st, ids, coins) && Parties(st, p) && amount <= st.purses[p.sender].total
    ensures st.purses[p.receiver].total + amount < WORD
    ensures Solvent(Pay(st, amount, p), ids, coins)
  {
    NoOverflow(st, ids, coins, amount, p);
    PayAgrees(st, amount, p);
    SameValuesSameSupply(st, Pay(st, amount, p), coins);
  }

  lemma SameElements<X>(a: seq<X>, b: seq<X>)
    requires multiset(a) == multiset(b)
    ensures forall x :: x in a <==> x in b
  {
    assert forall x :: x in a <==> x in multiset(a);
    assert forall x :: x in b <==> x in multiset(b);
  }

  /** A table in order, all of it in `repr`. */
  ghost predicate TableOK(h: HashTable, repr: set<object>)
    reads repr
  {
    h in repr && (forall c :: c in h.Table ==> c in repr) && h.items <= repr && h.cells <= repr && h.Valid()
  }

  method NewTable(entries: nat, bucketSize: nat) returns (h: HashTable, ghost repr: set<object>)
    requires entries > 0 && bucketSize >= ITEM_SIZE
    ensures TableOK(h, repr) && fresh(repr) && h.contents == map[]
  {
    h := new HashTable(entries, bucketSize);
    ghost var chains: set<object> := set c | c in h.Table;
    repr := chains + {h} + h.items + h.cells;
  }

  /** A ledger in order, all of it in `repr`. */
  ghost predicate LedgerOK(l: Ledger, repr: set<object>)
    reads repr
  {
    && l.walletArray in repr && (forall w :: w in l.walletArray.wallets ==> w in repr) && l.walletArray.pool <= repr
    && l.coinList in repr && (forall c :: c in l.coinList.coins ==> c in repr) && l.coinList.pool <= repr
    && l.Valid()
  }

  /** The identifiers in an array that is partly empty. */
  function Taken(s: seq<Option<Id>>): set<Id> {
    set o | o in s && o.Some? :: o.value
  }

  lemma TakenMore(s: seq<Option<Id>>, o: Option<Id>)
    ensures Taken(s + [o]) == Taken(s) + if o.Some? then {o.value} else {}
  {
    var t := s + [o];
    assert forall x :: x in t <==> x in s || x == o;
  }

  method CheckIfTransExists(transIDs: array<Option<Id>>, numOfTransactions: nat, transID: Id) returns (exists_: bool)
    requires numOfTransactions <= transIDs.Length
    ensures exists_ <==> transID in Taken(transIDs[..numOfTransactions])
  {
    for i := 0 to numOfTransactions
      invariant Some(transID) !in transIDs[..i]
    {
      if transIDs[i].Some? && transIDs[i].value == transID {
        assert transIDs[i] in transIDs[..numOfTransactions];
        return true;
      }
    }
    return false;
  }

  /** Both tables, empty and apart. */
  method NewTables(senderEntries: nat, receiverEntries: nat, bucketSize: nat)
      returns (s: HashTable, r: HashTable, ghost sent: set<object>, ghost received: set<object>)
    requires senderEntries > 0 && receiverEntries > 0 && bucketSize >= ITEM_SIZE
    ensures TableOK(s, sent) && fresh(sent) && s.contents == map[]
    ensures TableOK(r, received) && fresh(received) && r.contents == map[]
    ensures sent !! received
  {
    s, sent := NewTable(senderEntries, bucketSize);
    r, received := NewTable(receiverEntries, bucketSize);
  }

  lemma FirstOf<T>(s: seq<T>, i: nat)
    requires i < |s|
    ensures s[i..] == [s[i]] + s[i + 1..]
  {
  }

  class Program {
    const wallets: array<Wallet>  // in the order of their identifiers
    const ledger: Ledger
    const senders: HashTable
    const receivers: HashTable
    var maxID: Id
    var lastDateTime: int
    ghost const ids: seq<Id>      // the wallets' identifiers
    ghost const coins: seq<int>   // and the coins'
    ghost var ledgerRepr: set<object>
    ghost var sentRepr: set<object>
    ghost var receivedRepr: set<object>

    ghost function State(): B.Bank
      reads this, ledger.walletArray, ledger.coinList, senders, receivers
    {
      B.Bank(ledger.State(), senders.contents, receivers.contents, maxID, lastDateTime)
    }

    /** The array has the ledger's wallets, in order. */
    ghost predicate Indexed()
      reads wallets
    {
      && Sorted(wallets[..]) && wallets.Length <= 0x4000_0000
      && (forall w :: w in wallets[..] ==> w in ledger.walletArray.wallets)
      && (forall w :: w in ledger.walletArray.wallets ==> w in wallets[..])
    }

    /** The ledger, the tables and the rest share nothing. */
    ghost predicate Apart()
      reads this`ledgerRepr, this`sentRepr, this`receivedRepr
    {
      && ledgerRepr !! sentRepr && ledgerRepr !! receivedRepr && sentRepr !! receivedRepr
      && this !in ledgerRepr + sentRepr + receivedRepr && wallets !in ledgerRepr + sentRepr + receivedRepr
    }

    ghost predicate PartsOK()
      reads this`ledgerRepr, this`sentRepr, this`receivedRepr, ledgerRepr, sentRepr, receivedRepr
    {
      && Apart() && TableOK(senders, sentRepr) && TableOK(receivers, receivedRepr)
      && LedgerOK(ledger, ledgerRepr) && Solvent(ledger.State(), ids, coins)
    }

    ghost predicate Valid()
      reads this, wallets, ledgerRepr, sentRepr, receivedRepr
    {
      PartsOK() && Indexed() && Fits(maxID)
    }

    /** Nothing but what is new has come into the parts. */
    twostate predicate Grown()
      reads this
    {
      && (forall x :: x in sentRepr ==> x in old(sentRepr) || fresh(x))
      && (forall x :: x in receivedRepr ==> x in old(receivedRepr) || fresh(x))
      && (forall x :: x in ledgerRepr ==> x in old(ledgerRepr) || fresh(x))
    }

    /** Sorts the wallets and makes both tables. */
    constructor (l: Ledger, senderEntries: nat, receiverEntries: nat, bucketSize: nat,
                 ghost names: seq<Id>, ghost all: seq<int>, ghost repr: set<object>)
      requires LedgerOK(l, repr) && allocated(repr) && Solvent(l.State(), names, all) && 0 < |l.walletArray.wallets| <= 0x4000_0000
      requires senderEntries > 0 && receiverEntries > 0 && bucketSize >= ITEM_SIZE
      ensures Valid() && State() == B.Fresh(old(l.State()))
      ensures ledger == l && ledgerRepr == repr && fresh(sentRepr) && fresh(receivedRepr)
    {
      var ordered := SortWallets(l.walletArray.wallets);
      var senderTable, receiverTable;
      ghost var senderRepr, receiverRepr;
      senderTable, receiverTable, senderRepr, receiverRepr := NewTables(senderEntries, receiverEntries, bucketSize);
      wallets, ledger, senders, receivers := ordered, l, senderTable, receiverTable;
      maxID, lastDateTime, ids, coins := "", 0, names, all;
      ledgerRepr := repr;
      sentRepr, receivedRepr := senderRepr, receiverRepr;
      new;
      SameElements(wallets[..], l.walletArray.wallets);
    }

    method AddSent(sndr: Id, rcvr: Id, t: Transaction)
      requires TableOK(senders, sentRepr) && this !in sentRepr
      modifies this`sentRepr, sentRepr
      ensures TableOK(senders, sentRepr) && (forall x :: x in sentRepr ==> x in old(sentRepr) || fresh(x))
      ensures senders.contents == Appended(old(senders.contents), sndr, HashTables.Record(t, rcvr))
    {
      var sentTransaction := senders.AddTransaction(sndr, rcvr, t);
      sentRepr := sentRepr + senders.items + senders.cells;
    }

    method AddReceived(sndr: Id, rcvr: Id, t: Transaction)
      requires TableOK(receivers, receivedRepr) && this !in receivedRepr
      modifies this`receivedRepr, receivedRepr
      ensures TableOK(receivers, receivedRepr) && (forall x :: x in receivedRepr ==> x in old(receivedRepr) || fresh(x))
      ensures receivers.contents == Appended(old(receivers.contents), rcvr, HashTables.Record(t, sndr))
    {
      var earned := receivers.AddTransaction(rcvr, sndr, t);
      receivedRepr := receivedRepr + receivers.items + receivers.cells;
    }

    /** Notes what the ledger is made of. */
    ghost method TakeIn(repr: set<object>)
      requires LedgerOK(ledger, repr)
      modifies this`ledgerRepr
      ensures ledgerRepr == repr && LedgerOK(ledger, ledgerRepr) && ledger.State() == old(ledger.State())
    {
      ledgerRepr := repr;
    }

    method Move(sndr: Wallet, rcvr: Wallet, t: Transaction)
      requires LedgerOK(ledger, ledgerRepr) && this !in ledgerRepr && Solvent(ledger.State(), ids, coins)
      requires sndr in ledger.walletArray.wallets && rcvr in ledger.walletArray.wallets
      requires B.CanPay(ledger.State(), sndr.walletID, rcvr.walletID, t.value)
      modifies this`ledgerRepr, ledgerRepr
      ensures LedgerOK(ledger, ledgerRepr) && Solvent(ledger.State(), ids, coins)
      ensures forall x :: x in ledgerRepr ==> x in old(ledgerRepr) || fresh(x)
      ensures ledger.State() == Pay(old(ledger.State()), t.value, T.Payment(sndr.walletID, rcvr.walletID, t))
    {
      var p := T.Payment(sndr.walletID, rcvr.walletID, t);
      StaysSolvent(ledger.State(), ids, coins, t.value, p);
      ledger.MakeTransaction(sndr, rcvr, t.value, p);
      TakeIn(ledgerRepr + ledger.walletArray.pool + ledger.coinList.pool);
    }

    // The three effects of a transaction, each with what it leaves alone.

    method RecordSent(sndr: Id, rcvr: Id, t: Transaction)
      requires PartsOK()
      modifies this`sentRepr, sentRepr
      ensures PartsOK() && wallets[..] == old(wallets[..]) && (forall x :: x in sentRepr ==> x in old(sentRepr) || fresh(x))
      ensures State() == B.WithSent(old(State()), t, sndr, rcvr)
    {
      AddSent(sndr, rcvr, t);
      assert TableOK(receivers, receivedRepr) && LedgerOK(ledger, ledgerRepr);
    }

    method RecordReceived(sndr: Id, rcvr: Id, t: Transaction)
      requires PartsOK()
      modifies this`receivedRepr, receivedRepr
      ensures PartsOK() && wallets[..] == old(wallets[..]) && (forall x :: x in receivedRepr ==> x in old(receivedRepr) || fresh(x))
      ensures State() == B.WithReceived(old(State()), t, sndr, rcvr)
    {
      AddReceived(sndr, rcvr, t);
      assert TableOK(senders, sentRepr) && LedgerOK(ledger, ledgerRepr);
    }

    /** Moves the money, and leaves both tables alone. */
    method MoveAlone(sndr: Wallet, rcvr: Wallet, t: Transaction)
      requires PartsOK() && sndr in ledger.walletArray.wallets && rcvr in ledger.walletArray.wallets
      requires B.CanPay(ledger.State(), sndr.walletID, rcvr.walletID, t.value)
      modifies this`ledgerRepr, ledgerRepr
      ensures TableOK(senders, sentRepr) && senders.contents == old(senders.contents)
      ensures TableOK(receivers, receivedRepr) && receivers.contents == old(receivers.contents)
      ensures LedgerOK(ledger, ledgerRepr) && Solvent(ledger.State(), ids, coins) && wallets[..] == old(wallets[..])
      ensures forall x :: x in ledgerRepr ==> x in old(ledgerRepr) || fresh(x)
      ensures ledger.State() == Pay(old(ledger.State()), t.value, T.Payment(sndr.walletID, rcvr.walletID, t))
    {
      Move(sndr, rcvr, t);
    }

    method Transfer(sndr: Wallet, rcvr: Wallet, t: Transaction)
      requires PartsOK() && sndr in ledger.walletArray.wallets && rcvr in ledger.walletArray.wallets
      requires B.CanPay(ledger.State(), sndr.walletID, rcvr.walletID, t.value)
      modifies this`ledgerRepr, ledgerRepr
      ensures PartsOK() && wallets[..] == old(wallets[..]) && (forall x :: x in ledgerRepr ==> x in old(ledgerRepr) || fresh(x))
      ensures State() == B.WithPaid(old(State()), t, sndr.walletID, rcvr.walletID)
    {
      MoveAlone(sndr, rcvr, t);
    }

    /** Enters an accepted transaction. */
    method Enter(sndr: Wallet, rcvr: Wallet, t: Transaction)
      requires Valid() && sndr in ledger.walletArray.wallets && rcvr in ledger.walletArray.wallets
      requires B.CanPay(ledger.State(), sndr.walletID, rcvr.walletID, t.value)
      modifies this`sentRepr, this`receivedRepr, this`ledgerRepr, sentRepr, receivedRepr, ledgerRepr
      ensures Valid() && Grown() && State() == B.Enter(old(State()), t, sndr.walletID, rcvr.walletID)
    {
      RecordSent(sndr.walletID, rcvr.walletID, t);
      RecordReceived(sndr.walletID, rcvr.walletID, t);
      Transfer(sndr, rcvr, t);
    }

    /** The wallet with this identifier, if there is one. */
    method Find(id: Id) returns (w: Wallet?)
      requires Valid()
      ensures Valid() && State() == old(State())
      ensures w == null <==> id !in ledger.State().purses
      ensures w != null ==> w in ledger.walletArray.wallets && w.walletID == id
    {
      w := FindWallet(wallets, id);
      assert ledger.walletArray.KeysOK();
    }

    method SenderHasEnough(sender: Wallet, amount: Word) returns (enough: bool)
      requires Valid() && sender in ledger.walletArray.wallets && sender.walletID in ledger.State().purses
      ensures enough <==> amount <= ledger.State().purses[sender.walletID].total
    {
      assert ledger.walletArray.Holds(sender, ledger.walletArray.purses[sender.walletID]);
      enough := sender.amount >= amount;
    }

    method SetGlobals(id: Id, time: int)
      requires Valid() && Fits(id)
      modifies this`maxID, this`lastDateTime
      ensures Valid() && State() == old(State()).(maxID := id, lastDateTime := time)
    {
      maxID, lastDateTime := id, time;
      assert PartsOK() && Indexed();
    }

    /** Enters a transaction and sets both globals. */
    method EnterAs(sndr: Wallet, rcvr: Wallet, t: Transaction, id: Id, time: int)
      requires Valid() && sndr in ledger.walletArray.wallets && rcvr in ledger.walletArray.wallets && Fits(id)
      requires B.CanPay(ledger.State(), sndr.walletID, rcvr.walletID, t.value)
      modifies this, sentRepr, receivedRepr, ledgerRepr
      ensures Valid() && Grown()
      ensures State() == B.EnterAs(old(State()), t, sndr.walletID, rcvr.walletID, id, time)
    {
      Enter(sndr, rcvr, t);
      SetGlobals(id, time);
    }

    /** The wallets that a request moves money between, if it passes all checks
        but the one for an identifier. */
    method Accept(q: B.Request) returns (sndr: Wallet?, rcvr: Wallet?)
      requires Valid()
      ensures sndr != null && rcvr != null <==> B.Passes(State(), q)
      ensures sndr != null && rcvr != null ==>
        && sndr in ledger.walletArray.wallets && sndr.walletID == q.sender
        && rcvr in ledger.walletArray.wallets && rcvr.walletID == q.receiver
    {
      sndr, rcvr := null, null;
      if q.sender == q.receiver { return; }
      if q.dateTime != 0 && q.dateTime < lastDateTime { return; }
      sndr := Find(q.sender);
      if sndr == null { return; }
      rcvr := Find(q.receiver);
      if rcvr == null { return; }
      var enough := SenderHasEnough(sndr, q.amount);
      if !enough { rcvr := null; }
    }

    /** An identifier that follows the last one, if there is one. */
    method FreshID() returns (transID: Option<Id>)
      requires Valid()
      ensures Valid() && State() == old(State()) && transID == NextID(maxID)
      ensures transID.Some? ==> Fits(transID.value)
    {
      transID := NewID(maxID);
      if transID.Some? { NextIDGreater(maxID); }
    }

    /** Carries out a request that has passed the checks, if there is an
        identifier for it. */
    method CarryOut(sndr: Wallet, rcvr: Wallet, q: B.Request)
      requires Valid() && sndr in ledger.walletArray.wallets && rcvr in ledger.walletArray.wallets
      requires B.Passes(State(), q) && sndr.walletID == q.sender && rcvr.walletID == q.receiver
      modifies this, sentRepr, receivedRepr, ledgerRepr
      ensures Valid() && Grown() && State() == B.Requested(old(State()), q)
    {
      ghost var b := State();
      var transID := FreshID();
      if transID.Some? {
        var t := Transaction(transID.value, q.amount, if q.dateTime != 0 then q.dateTime else q.now + B.UTC_PLUS_2);
        assert B.Accepts(b, q) && t == B.TransactionOf(b, q);
        EnterAs(sndr, rcvr, t, t.transactionID, t.dateTime);
      } else {
        assert !B.Accepts(b, q);
      }
    }

    /** A request for a payment at a given time, or at the current one. */
    method RequestTransaction(q: B.Request)
      requires Valid()
      modifies this, sentRepr, receivedRepr, ledgerRepr
      ensures Valid() && Grown() && State() == B.Requested(old(State()), q)
    {
      var sndr, rcvr := Accept(q);
      if sndr != null && rcvr != null {
        CarryOut(sndr, rcvr, q);
      }
    }

    /** The wallets that a line of the transactions file moves money between, if
        it is accepted. */
    method AcceptLine(l: B.Line, transIDs: array<Option<Id>>, i: nat) returns (sndr: Wallet?, rcvr: Wallet?)
      requires Valid() && i <= transIDs.Length
      ensures sndr != null && rcvr != null <==> B.Loads(State(), Taken(transIDs[..i]), l)
      ensures sndr != null && rcvr != null ==>
        && sndr in ledger.walletArray.wallets && sndr.walletID == l.sender
        && rcvr in ledger.walletArray.wallets && rcvr.walletID == l.receiver
    {
      rcvr := null;
      sndr := Find(l.sender);
      if sndr == null { return; }
      var taken := CheckIfTransExists(transIDs, i, l.id);
      if taken { return; }
      rcvr := Find(l.receiver);
      if rcvr == null { return; }
      var enough := SenderHasEnough(sndr, l.value);
      if l.sender == l.receiver || !enough { rcvr := null; }
    }

    /** Loads one line; `accepted` says whether it has been entered. */
    method LoadLine(l: B.Line, transIDs: array<Option<Id>>, i: nat) returns (accepted: bool)
      requires Valid() && i < transIDs.Length && Fits(l.id)
      modifies this, sentRepr, receivedRepr, ledgerRepr
      ensures Valid() && Grown()
      ensures accepted <==> B.Loads(old(State()), Taken(old(transIDs[..i])), l)
      ensures if accepted then State().(lastDateTime := l.dateTime) == B.Loaded(old(State()), Taken(old(transIDs[..i])), l)
              else State() == old(State())
    {
      var sndr, rcvr := AcceptLine(l, transIDs, i);
      accepted := sndr != null && rcvr != null;
      if accepted {
        ghost var b, taken := State(), Taken(transIDs[..i]);
        var id := if Less(maxID, l.id) then l.id else maxID;
        EnterAs(sndr, rcvr, Transaction(l.id, l.value, l.dateTime), id, lastDateTime);
        B.LoadedIs(b, taken, l, id, State());
      }
    }

    /** Notes in the array what became of a line. */
    method Mark(transIDs: array<Option<Id>>, i: nat, mark: Option<Id>)
      requires Valid() && i < transIDs.Length && transIDs !in sentRepr + receivedRepr + ledgerRepr
      modifies transIDs
      ensures Valid() && State() == old(State())
      ensures transIDs[..i + 1] == old(transIDs[..i]) + [mark]
    {
      transIDs[i] := mark;
      assert PartsOK() && Indexed();
    }

    /** One round of the loading loop. */
    method LoadNext(l: B.Line, transIDs: array<Option<Id>>, i: nat, tmpDateTime: int, ghost rest: seq<B.Line>)
        returns (dateTime: int)
      requires Valid() && i < transIDs.Length && Fits(l.id) && transIDs !in sentRepr + receivedRepr + ledgerRepr
      modifies this, sentRepr, receivedRepr, ledgerRepr, transIDs
      ensures Valid() && Grown()
      ensures B.LoadedAll(State().(lastDateTime := dateTime), Taken(transIDs[..i + 1]), rest)
           == B.LoadedAll(old(State()).(lastDateTime := tmpDateTime), Taken(old(transIDs[..i])), [l] + rest)
    {
      ghost var b, ids := State(), transIDs[..i];
      var accepted := LoadLine(l, transIDs, i);
      var mark := if accepted then Some(l.id) else None;
      Mark(transIDs, i, mark);
      dateTime := if accepted then l.dateTime else tmpDateTime;
      TakenMore(ids, mark);
      B.LoadStep(b, Taken(ids), tmpDateTime, l, rest, State(), Taken(transIDs[..i + 1]), dateTime);
    }

    /** An array for the identifiers of the lines, empty. */
    method NoIDs(n: nat) returns (transIDs: array<Option<Id>>)
      requires Valid()
      ensures Valid() && State() == old(State()) && transIDs.Length == n && Taken(transIDs[..0]) == {}
      ensures fresh(transIDs) && transIDs !in sentRepr + receivedRepr + ledgerRepr
    {
      transIDs := new Option<Id>[n](_ => None);
      assert transIDs[..0] == [];
    }

    /** The loop over the lines. */
    method LoadLines(lines: seq<B.Line>, transIDs: array<Option<Id>>) returns (tmpDateTime: int)
      requires Valid() && transIDs !in sentRepr + receivedRepr + ledgerRepr
      requires transIDs.Length == |lines| && Taken(transIDs[..0]) == {}
      requires forall i :: 0 <= i < |lines| ==> Fits(lines[i].id)
      modifies this, sentRepr, receivedRepr, ledgerRepr, transIDs
      ensures Valid() && Grown()
      ensures State().(lastDateTime := tmpDateTime) == B.LoadedAll(old(State()).(lastDateTime := 0), {}, lines)
    {
      tmpDateTime := 0;
      assert lines[0..] == lines;
      for i := 0 to |lines|
        invariant Valid() && Grown() && transIDs !in sentRepr + receivedRepr + ledgerRepr
        invariant B.LoadedAll(State().(lastDateTime := tmpDateTime), Taken(transIDs[..i]), lines[i..])
               == B.LoadedAll(old(State()).(lastDateTime := 0), {}, lines)
      {
        FirstOf(lines, i);
        tmpDateTime := LoadNext(lines[i], transIDs, i, tmpDateTime, lines[i + 1..]);
      }
    }

    /** Loads the transactions file. */
    method TransactionsInitialization(lines: seq<B.Line>)
      requires Valid() && forall i :: 0 <= i < |lines| ==> Fits(lines[i].id)
      modifies this, sentRepr, receivedRepr, ledgerRepr
      ensures Valid() && Grown() && State() == B.LoadedAll(old(State()).(lastDateTime := 0), {}, lines)
    {
      var transIDs := NoIDs(|lines|);
      var tmpDateTime := LoadLines(lines, transIDs);
      SetGlobals(maxID, tmpDateTime);
    }

    /** The whole program: loads the transactions file, then carries out
        requests. The state it ends in is reached by the history of what it has
        accepted. */
    method Run(lines: seq<B.Line>, requests: seq<B.Request>)
      requires Valid() && State() == B.Fresh(ledger.State()) && B.Untouched(ledger.State())
      requires forall i :: 0 <= i < |lines| ==> Fits(lines[i].id)
      modifies this, sentRepr, receivedRepr, ledgerRepr
      ensures Valid() && State() == B.RequestedAll(B.LoadedAll(old(State()), {}, lines), requests)
      ensures B.Reached(State(), old(ledger.State()), B.History(old(State()), lines, requests))
    {
      B.RunReached(ledger.State(), lines, requests);
      TransactionsInitialization(lines);
      ghost var end := B.RequestedAll(State(), requests);
      for i := 0 to |requests|
        invariant Valid() && Grown() && B.RequestedAll(State(), requests[i..]) == end
      {
        assert requests[i..][0] == requests[i] && requests[i..][1..] == requests[i + 1..];
        RequestTransaction(requests[i]);
      }
    }
  }
}
