/** The ledger as a value: one tree per coin, one purse per wallet, and what a
    payment does to them. The main result is that the three records of who owns
    what (tree leaves, list entries, cached totals) agree after every payment. */
module LedgerSpec {
  import opened Transactions
  import opened CoinTree

  /** How much of a coin a wallet's list says the wallet owns. */
  datatype Entry = Entry(coin: int, amount: nat)

  datatype Purse = Purse(total: nat, entries: seq<Entry>)

  datatype State = State(trees: map<int, Tree>, purses: map<Id, Purse>)

  // ----- lists of entries

  function AddEntry(s: seq<Entry>, coin: int, amount: nat): seq<Entry> {
    if s == [] then [Entry(coin, amount)]
    else if s[0].coin == coin then [Entry(coin, s[0].amount + amount)] + s[1..]
    else [s[0]] + AddEntry(s[1..], coin, amount)
  }

  function AmountIn(s: seq<Entry>, coin: int): nat {
    if s == [] then 0
    else if s[0].coin == coin then s[0].amount
    else AmountIn(s[1..], coin)
  }

  function Sum(s: seq<Entry>): nat {
    if s == [] then 0 else s[0].amount + Sum(s[1..])
  }

  predicate Lists(s: seq<Entry>, coin: int) {
    s != [] && (s[0].coin == coin || Lists(s[1..], coin))
  }

  predicate NoRepeats(s: seq<Entry>) {
    s != [] ==> !Lists(s[1..], s[0].coin) && NoRepeats(s[1..])
  }

  lemma {:induction false} AddEntryEffect(s: seq<Entry>, coin: int, amount: nat)
    ensures Sum(AddEntry(s, coin, amount)) == Sum(s) + amount
    ensures AmountIn(AddEntry(s, coin, amount), coin) == AmountIn(s, coin) + amount
    ensures forall c :: c != coin ==> AmountIn(AddEntry(s, coin, amount), c) == AmountIn(s, c)
    ensures forall c :: Lists(AddEntry(s, coin, amount), c) <==> Lists(s, c) || c == coin
    ensures NoRepeats(s) ==> NoRepeats(AddEntry(s, coin, amount))
  {
    if s != [] && s[0].coin != coin {
      AddEntryEffect(s[1..], coin, amount);
    }
  }

  /** An entry is added to the first one for its coin... */
  lemma {:induction false} AddEntryToFirst(s: seq<Entry>, coin: int, amount: nat, i: nat)
    requires i < |s| && s[i].coin == coin && forall k :: 0 <= k < i ==> s[k].coin != coin
    ensures AddEntry(s, coin, amount) == s[i := Entry(coin, s[i].amount + amount)]
    ensures AmountIn(s, coin) == s[i].amount
  {
    if i > 0 {
      AddEntryToFirst(s[1..], coin, amount, i - 1);
    }
  }

  /** ... or else at the end. */
  lemma {:induction false} AddEntryAtEnd(s: seq<Entry>, coin: int, amount: nat)
    requires forall k :: 0 <= k < |s| ==> s[k].coin != coin
    ensures AddEntry(s, coin, amount) == s + [Entry(coin, amount)]
  {
    if s != [] {
      AddEntryAtEnd(s[1..], coin, amount);
    }
  }

  lemma {:induction false} NotListed(s: seq<Entry>, coin: int)
    requires !Lists(s, coin)
    ensures AmountIn(s, coin) == 0
  {
    if s != [] {
      NotListed(s[1..], coin);
    }
  }

  // ----- payments

  predicate Parties(st: State, p: Payment) {
    p.sender in st.purses && p.receiver in st.purses && p.sender != p.receiver
  }

  /** The first entry of the sender's list can give `part`. */
  predicate CanDraw(st: State, part: nat, p: Payment) {
    && Parties(st, p)
    && var s := st.purses[p.sender].entries;
    s != [] && s[0].coin in st.trees && part <= s[0].amount
  }

  function Drawn(st: State, part: nat, p: Payment): (got: nat)
    requires CanDraw(st, part, p)
    ensures got <= part
  {
    Transfer(st.trees[st.purses[p.sender].entries[0].coin], part, p).1
  }

  function Credited(purses: map<Id, Purse>, w: Id, coin: int, amount: nat): map<Id, Purse>
    requires w in purses
  {
    purses[w := purses[w].(entries := AddEntry(purses[w].entries, coin, amount))]
  }

  function WithTotal(purses: map<Id, Purse>, w: Id, total: nat): map<Id, Purse>
    requires w in purses
  {
    purses[w := purses[w].(total := total)]
  }

  function Recharged(purses: map<Id, Purse>, s: Id, r: Id, amount: nat): map<Id, Purse>
    requires s in purses && r in purses && s != r && amount <= purses[s].total
  {
    WithTotal(WithTotal(purses, s, purses[s].total - amount), r, purses[r].total + amount)
  }

  function WithFirst(purses: map<Id, Purse>, w: Id, amount: nat): map<Id, Purse>
    requires w in purses && purses[w].entries != []
  {
    purses[w := purses[w].(entries := purses[w].entries[0 := Entry(purses[w].entries[0].coin, amount)])]
  }

  function DebitedFirst(purses: map<Id, Purse>, w: Id, amount: nat): map<Id, Purse>
    requires w in purses && purses[w].entries != [] && amount <= purses[w].entries[0].amount
  {
    WithFirst(purses, w, purses[w].entries[0].amount - amount)
  }

  /** Takes `part` out of the sender's first entry: the coin's tree, the
      receiver's list and the entry change, in this order. */
  function Draw(st: State, part: nat, p: Payment): State
    requires CanDraw(st, part, p)
  {
    var c, got := st.purses[p.sender].entries[0].coin, Drawn(st, part, p);
    State(st.trees[c := Transfer(st.trees[c], part, p).0],
          DebitedFirst(Credited(st.purses, p.receiver, c, got), p.sender, got))
  }

  /** Drops the first entry of a wallet's list. */
  function DropFirst(st: State, w: Id): State
    requires w in st.purses && st.purses[w].entries != []
  {
    var purse := st.purses[w];
    st.(purses := st.purses[w := purse.(entries := purse.entries[1..])])
  }

  /** The payment loop: entries that cannot cover what is still needed are used
      up and dropped, the first that can ends the loop and stays in the list. */
  function PayFromList(st: State, need: nat, p: Payment): (st': State)
    requires Parties(st, p)
    ensures st'.purses.Keys == st.purses.Keys && st'.trees.Keys == st.trees.Keys
    ensures forall w :: w in st.purses ==> st'.purses[w].total == st.purses[w].total
    ensures forall w :: w in st.purses && w != p.sender && w != p.receiver ==> st'.purses[w] == st.purses[w]
    decreases |st.purses[p.sender].entries|
  {
    var s := st.purses[p.sender].entries;
    if need == 0 || s == [] || s[0].coin !in st.trees then st
    else if s[0].amount >= need then Draw(st, need, p)
    else PayFromList(UseUp(st, p), need - Drawn(st, s[0].amount, p), p)
  }

  /** Spends the whole first entry of the sender and drops it. */
  function UseUp(st: State, p: Payment): State
    requires CanDraw(st, 0, p)
  {
    DropFirst(Draw(st, st.purses[p.sender].entries[0].amount, p), p.sender)
  }

  /** The loop always finds an entry to work on, and its last step covers what
      is needed: the list never runs out and no entry is tried twice. */
  predicate NeverStuck(st: State, need: nat, p: Payment)
    requires Parties(st, p)
    decreases |st.purses[p.sender].entries|
  {
    var s := st.purses[p.sender].entries;
    need > 0 ==>
      && s != [] && s[0].coin in st.trees
      && if s[0].amount >= need then Drawn(st, need, p) == need
         else |s| > 1 && NeverStuck(UseUp(st, p), need - Drawn(st, s[0].amount, p), p)
  }

  /** A payment the sender's total covers. */
  function Pay(st: State, amount: nat, p: Payment): State
    requires Parties(st, p) && amount <= st.purses[p.sender].total
  {
    var paid := PayFromList(st, amount, p);
    State(paid.trees, Recharged(paid.purses, p.sender, p.receiver, amount))
  }

  // ----- the agreement of trees, lists and totals

  predicate TreeOK(st: State, c: int)
    requires c in st.trees
  {
    Sound(st.trees[c]) && Owners(st.trees[c]) <= st.purses.Keys
  }

  /** No wallet lists a coin twice, and it lists a coin that was never
      transferred only if it owns all of it. */
  ghost predicate ListOK(st: State, w: Id)
    requires w in st.purses
  {
    var s := st.purses[w].entries;
    NoRepeats(s) && forall c :: Lists(s, c) ==> c in st.trees && (st.trees[c].Leaf? ==> st.trees[c].owner == w)
  }

  /** What a wallet's list says about a coin is what the coin's leaves say. */
  predicate SameShare(st: State, w: Id, c: int)
    requires w in st.purses && c in st.trees
  {
    AmountIn(st.purses[w].entries, c) == Owned(st.trees[c], w)
  }

  ghost predicate Agree(st: State) {
    && (forall c :: c in st.trees ==> TreeOK(st, c))
    && (forall w :: w in st.purses ==> ListOK(st, w))
    && (forall w, c :: w in st.purses && c in st.trees ==> SameShare(st, w, c))
  }

  predicate TotalOK(st: State, w: Id)
    requires w in st.purses
  {
    st.purses[w].total == Sum(st.purses[w].entries)
  }

  ghost predicate TotalsAgree(st: State) {
    forall w :: w in st.purses ==> TotalOK(st, w)
  }

  /** An entry with amount zero belongs to a coin that has been transferred. */
  lemma ZeroEntryTransferred(st: State, w: Id, c: int)
    requires Agree(st) && w in st.purses && Lists(st.purses[w].entries, c)
    requires AmountIn(st.purses[w].entries, c) == 0
    ensures c in st.trees && !st.trees[c].Leaf?
  {
    assert ListOK(st, w);
    assert TreeOK(st, c) && SameShare(st, w, c);
  }

  /** The first entry of the sender's list may be drawn on, and gives what is
      asked of it. */
  lemma DrawGives(st: State, part: nat, p: Payment)
    requires Agree(st) && CanDraw(st, part, p)
    requires part > 0 || part == st.purses[p.sender].entries[0].amount
    ensures var e := st.purses[p.sender].entries[0];
      && MayTransfer(st.trees[e.coin], part, p.sender)
      && Owned(st.trees[e.coin], p.sender) == e.amount
    ensures Drawn(st, part, p) == part
  {
    var e := st.purses[p.sender].entries[0];
    assert ListOK(st, p.sender) && SameShare(st, p.sender, e.coin) && TreeOK(st, e.coin);
    assert Lists(st.purses[p.sender].entries, e.coin);
    TransferMoves(st.trees[e.coin], part, p);
  }

  lemma SetHead(s: seq<Entry>, amount: nat)
    requires s != []
    ensures var s' := s[0 := Entry(s[0].coin, amount)];
      && Sum(s') == Sum(s) - s[0].amount + amount
      && AmountIn(s', s[0].coin) == amount
      && (forall c :: c != s[0].coin ==> AmountIn(s', c) == AmountIn(s, c))
      && (forall c :: Lists(s', c) <==> Lists(s, c))
      && (NoRepeats(s) ==> NoRepeats(s'))
  {
    assert s[0 := Entry(s[0].coin, amount)][1..] == s[1..];
  }

  /** `amount` more (or less) of coin `c` in a list, and nothing else. */
  ghost predicate ListMoved(s: seq<Entry>, s': seq<Entry>, c: int, amount: int) {
    && Sum(s') == Sum(s) + amount
    && AmountIn(s', c) == AmountIn(s, c) + amount
    && (forall d :: d != c ==> AmountIn(s', d) == AmountIn(s, d))
    && (forall d :: Lists(s', d) ==> Lists(s, d) || d == c)
    && (NoRepeats(s) ==> NoRepeats(s'))
  }

  /** `part` of coin `c` has gone from the sender to the receiver, in the tree
      and in both lists, and nothing else has changed. */
  ghost predicate Moved(st: State, st': State, c: int, part: nat, p: Payment)
    requires Parties(st, p)
  {
    && c in st.trees && st'.trees.Keys == st.trees.Keys && st'.purses.Keys == st.purses.Keys
    && (forall d :: d in st.trees && d != c ==> st'.trees[d] == st.trees[d])
    && (forall w :: w in st.purses && w != p.sender && w != p.receiver ==> st'.purses[w] == st.purses[w])
    && Sound(st'.trees[c]) && !st'.trees[c].Leaf? && Owners(st'.trees[c]) <= Owners(st.trees[c]) + {p.receiver}
    && st'.trees[c].amount == st.trees[c].amount
    && Owned(st'.trees[c], p.sender) == Owned(st.trees[c], p.sender) - part
    && Owned(st'.trees[c], p.receiver) == Owned(st.trees[c], p.receiver) + part
    && (forall w :: w != p.sender && w != p.receiver ==> Owned(st'.trees[c], w) == Owned(st.trees[c], w))
    && ListMoved(st.purses[p.sender].entries, st'.purses[p.sender].entries, c, -(part as int))
    && ListMoved(st.purses[p.receiver].entries, st'.purses[p.receiver].entries, c, part)
    && Lists(st.purses[p.sender].entries, c)
    && st'.purses[p.sender].total == st.purses[p.sender].total
    && st'.purses[p.receiver].total == st.purses[p.receiver].total
  }

  lemma DrawMoves(st: State, part: nat, p: Payment)
    requires Agree(st) && CanDraw(st, part, p)
    requires part > 0 || part == st.purses[p.sender].entries[0].amount
    ensures Moved(st, Draw(st, part, p), st.purses[p.sender].entries[0].coin, part, p)
  {
    var s := st.purses[p.sender].entries;
    DrawGives(st, part, p);
    assert TreeOK(st, s[0].coin);
    TransferMoves(st.trees[s[0].coin], part, p);
    AddEntryEffect(st.purses[p.receiver].entries, s[0].coin, part);
    SetHead(s, s[0].amount - part);
  }

  /** Any step that moves the same part in the tree and in both lists keeps the
      agreement. */
  lemma MovedAgrees(st: State, st': State, c: int, part: nat, p: Payment)
    requires Agree(st) && Parties(st, p) && Moved(st, st', c, part, p)
    ensures Agree(st')
  {
    forall d | d in st'.trees ensures TreeOK(st', d) {
      assert TreeOK(st, d);
    }
    forall w | w in st'.purses ensures ListOK(st', w) {
      assert ListOK(st, w);
    }
    forall w, d | w in st'.purses && d in st'.trees ensures SameShare(st', w, d) {
      assert SameShare(st, w, d);
    }
  }

  /** Dropping a drained first entry keeps the agreement. */
  lemma DropFirstAgrees(st: State, w: Id)
    requires Agree(st) && w in st.purses && st.purses[w].entries != [] && st.purses[w].entries[0].amount == 0
    ensures Agree(DropFirst(st, w))
    ensures Sum(DropFirst(st, w).purses[w].entries) == Sum(st.purses[w].entries)
  {
    var st' := DropFirst(st, w);
    var s := st.purses[w].entries;
    assert ListOK(st, w);
    NotListed(s[1..], s[0].coin);
    forall d | d in st'.trees ensures TreeOK(st', d) {
      assert TreeOK(st, d);
    }
    forall v | v in st'.purses ensures ListOK(st', v) {
      assert ListOK(st, v);
    }
    forall v, d | v in st'.purses && d in st'.trees ensures SameShare(st', v, d) {
      assert SameShare(st, v, d);
    }
  }

  /** The coins themselves never change their value. */
  ghost predicate SameValues(st: State, st': State) {
    st'.trees.Keys == st.trees.Keys && forall c :: c in st.trees ==> st'.trees[c].amount == st.trees[c].amount
  }

  /** `need` has gone from the sender's list to the receiver's, in agreement
      with the trees. */
  ghost predicate Paid(st: State, st': State, need: nat, p: Payment)
    requires Parties(st, p)
  {
    && Agree(st') && SameValues(st, st') && Parties(st', p)
    && Sum(st'.purses[p.sender].entries) == Sum(st.purses[p.sender].entries) - need
    && Sum(st'.purses[p.receiver].entries) == Sum(st.purses[p.receiver].entries) + need
  }

  lemma DrawPays(st: State, part: nat, p: Payment)
    requires Agree(st) && CanDraw(st, part, p)
    requires part > 0 || part == st.purses[p.sender].entries[0].amount
    ensures Paid(st, Draw(st, part, p), part, p) && Drawn(st, part, p) == part
    ensures AmountIn(Draw(st, part, p).purses[p.sender].entries, st.purses[p.sender].entries[0].coin)
         == st.purses[p.sender].entries[0].amount - part
  {
    DrawGives(st, part, p);
    DrawMoves(st, part, p);
    MovedAgrees(st, Draw(st, part, p), st.purses[p.sender].entries[0].coin, part, p);
  }

  lemma UseUpPays(st: State, p: Payment)
    requires Agree(st) && CanDraw(st, 0, p)
    ensures Paid(st, UseUp(st, p), st.purses[p.sender].entries[0].amount, p)
    ensures Drawn(st, st.purses[p.sender].entries[0].amount, p) == st.purses[p.sender].entries[0].amount
  {
    var e := st.purses[p.sender].entries[0];
    DrawPays(st, e.amount, p);
    DropFirstAgrees(Draw(st, e.amount, p), p.sender);
  }

  lemma PayFromListStep(st: State, need: nat, rest: nat, p: Payment)
    requires CanDraw(st, 0, p) && need == st.purses[p.sender].entries[0].amount + rest && rest > 0
    requires Drawn(st, st.purses[p.sender].entries[0].amount, p) == st.purses[p.sender].entries[0].amount
    ensures PayFromList(st, need, p) == PayFromList(UseUp(st, p), rest, p)
  {
  }

  lemma PaidTwice(st: State, mid: State, st': State, a: nat, b: nat, need: nat, p: Payment)
    requires Parties(st, p) && Paid(st, mid, a, p) && Paid(mid, st', b, p) && need == a + b
    ensures Paid(st, st', need, p)
  {
  }

  /** The payment loop keeps the agreement and moves exactly `need`. */
  lemma {:induction false} PayFromListAgrees(st: State, need: nat, p: Payment)
    requires Agree(st) && Parties(st, p) && need <= Sum(st.purses[p.sender].entries)
    ensures Paid(st, PayFromList(st, need, p), need, p)
    decreases |st.purses[p.sender].entries|
  {
    var s := st.purses[p.sender].entries;
    if need > 0 {
      assert ListOK(st, p.sender) && Lists(s, s[0].coin);
      if s[0].amount >= need {
        DrawPays(st, need, p);
      } else {
        var rest := need - s[0].amount;
        UseUpPays(st, p);
        PayFromListAgrees(UseUp(st, p), rest, p);
        PayFromListStep(st, need, rest, p);
        PaidTwice(st, UseUp(st, p), PayFromList(st, need, p), s[0].amount, rest, need, p);
      }
    }
  }

  /** The loop runs without ever missing an entry exactly when the list covers
      the payment. */
  lemma {:induction false} NeverStuckIff(st: State, need: nat, p: Payment)
    requires Agree(st) && Parties(st, p)
    ensures NeverStuck(st, need, p) <==> need <= Sum(st.purses[p.sender].entries)
    decreases |st.purses[p.sender].entries|
  {
    var s := st.purses[p.sender].entries;
    if need > 0 && s != [] {
      assert ListOK(st, p.sender) && Lists(s, s[0].coin);
      if s[0].amount >= need {
        DrawGives(st, need, p);
      } else {
        UseUpPays(st, p);
        NeverStuckIff(UseUp(st, p), need - s[0].amount, p);
      }
    }
  }

  /** Agreement does not depend on the cached totals. */
  lemma TotalsAreApart(st: State, st': State)
    requires Agree(st) && st'.trees == st.trees && st'.purses.Keys == st.purses.Keys
    requires forall w :: w in st.purses ==> st'.purses[w].entries == st.purses[w].entries
    ensures Agree(st')
  {
    forall d | d in st'.trees ensures TreeOK(st', d) {
      assert TreeOK(st, d);
    }
    forall v | v in st'.purses ensures ListOK(st', v) {
      assert ListOK(st, v);
    }
    forall v, d | v in st'.purses && d in st'.trees ensures SameShare(st', v, d) {
      assert SameShare(st, v, d);
    }
  }

  /** The main step: a covered payment keeps all three records in agreement,
      moves exactly its amount and changes nobody else's purse. */
  lemma PayAgrees(st: State, amount: nat, p: Payment)
    requires Agree(st) && TotalsAgree(st) && Parties(st, p) && amount <= st.purses[p.sender].total
    ensures var st' := Pay(st, amount, p);
      && Agree(st') && TotalsAgree(st') && SameValues(st, st')
      && st'.purses.Keys == st.purses.Keys
      && st'.purses[p.sender].total == st.purses[p.sender].total - amount
      && st'.purses[p.receiver].total == st.purses[p.receiver].total + amount
      && (forall w :: w in st.purses && w != p.sender && w != p.receiver ==> st'.purses[w] == st.purses[w])
    ensures NeverStuck(st, amount, p)
  {
    assert TotalOK(st, p.sender) && TotalOK(st, p.receiver);
    NeverStuckIff(st, amount, p);
    PayFromListAgrees(st, amount, p);
    var paid := PayFromList(st, amount, p);
    var st' := Pay(st, amount, p);
    TotalsAreApart(paid, st');
    forall v | v in st'.purses ensures TotalOK(st', v) {
      assert TotalOK(st, v);
    }
  }
}
