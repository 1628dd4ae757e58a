/** The whole program as a value: the ledger, the two indexes of transactions,
    and the last identifier and time; what loading a transaction and requesting
    one do; and what holds after any run. */
module BankSpec {
  import opened Words
  import opened Transactions
  import opened CoinTree
  import opened LedgerSpec
  import opened LedgerLaws
  import opened Trails
  import opened HashTables
  import opened StrCmp

  datatype Bank = Bank(ledger: State, sent: map<Id, seq<Record>>, received: map<Id, seq<Record>>,
                       maxID: Id, lastDateTime: int)

  /** The sender exists, is not the receiver, and has enough. */
  predicate CanPay(st: State, sender: Id, receiver: Id, amount: nat) {
    sender in st.purses && receiver in st.purses && sender != receiver && amount <= st.purses[sender].total
  }

  function WithSent(b: Bank, t: Transaction, sender: Id, receiver: Id): Bank {
    b.(sent := Appended(b.sent, sender, Record(t, receiver)))
  }

  function WithReceived(b: Bank, t: Transaction, sender: Id, receiver: Id): Bank {
    b.(received := Appended(b.received, receiver, Record(t, sender)))
  }

  function WithPaid(b: Bank, t: Transaction, sender: Id, receiver: Id): Bank
    requires CanPay(b.ledger, sender, receiver, t.value)
  {
    b.(ledger := Pay(b.ledger, t.value, Payment(sender, receiver, t)))
  }

  /** Enters an accepted transaction: into the sender's list, the receiver's list
      and the ledger. */
  function Enter(b: Bank, t: Transaction, sender: Id, receiver: Id): Bank
    requires CanPay(b.ledger, sender, receiver, t.value)
  {
    WithPaid(WithReceived(WithSent(b, t, sender, receiver), t, sender, receiver), t, sender, receiver)
  }

  /** The same, with the globals that follow. */
  function EnterAs(b: Bank, t: Transaction, sender: Id, receiver: Id, id: Id, time: int): Bank
    requires CanPay(b.ledger, sender, receiver, t.value)
  {
    Enter(b, t, sender, receiver).(maxID := id, lastDateTime := time)
  }

  // ----- requests

  datatype Request = Request(sender: Id, receiver: Id, amount: Word, dateTime: int, now: int)

  const UTC_PLUS_2: int := 7200

  /** The time that a request is entered with: its own, or the current one. */
  function TimeOf(q: Request): int {
    if q.dateTime != 0 then q.dateTime else q.now + UTC_PLUS_2
  }

  /** The request is not dated back, and the payment can be made. */
  predicate Passes(b: Bank, q: Request) {
    && !(q.dateTime != 0 && q.dateTime < b.lastDateTime)
    && CanPay(b.ledger, q.sender, q.receiver, q.amount)
  }

  predicate Accepts(b: Bank, q: Request) {
    Passes(b, q) && NextID(b.maxID).Some?
  }

  /** The transaction that an accepted request makes. */
  function TransactionOf(b: Bank, q: Request): Transaction
    requires Accepts(b, q)
  {
    Transaction(NextID(b.maxID).value, q.amount, TimeOf(q))
  }

  function Requested(b: Bank, q: Request): Bank {
    if !Accepts(b, q) then b
    else
      var t := TransactionOf(b, q);
      EnterAs(b, t, q.sender, q.receiver, t.transactionID, t.dateTime)
  }

  // ----- loading

  datatype Line = Line(id: Id, sender: Id, receiver: Id, value: Word, dateTime: int)

  predicate Loads(b: Bank, taken: set<Id>, l: Line) {
    CanPay(b.ledger, l.sender, l.receiver, l.value) && l.id !in taken
  }

  /** Loading one line, when the identifiers in `taken` have been loaded. */
  function Loaded(b: Bank, taken: set<Id>, l: Line): Bank {
    if !Loads(b, taken, l) then b
    else
      EnterAs(b, Transaction(l.id, l.value, l.dateTime), l.sender, l.receiver,
              if Less(b.maxID, l.id) then l.id else b.maxID, l.dateTime)
  }

  lemma LoadedIs(b: Bank, taken: set<Id>, l: Line, id: Id, b': Bank)
    requires Loads(b, taken, l) && id == if Less(b.maxID, l.id) then l.id else b.maxID
    requires b' == EnterAs(b, Transaction(l.id, l.value, l.dateTime), l.sender, l.receiver, id, b.lastDateTime)
    ensures b'.(lastDateTime := l.dateTime) == Loaded(b, taken, l)
  {
  }

  function TakenAfter(b: Bank, taken: set<Id>, l: Line): set<Id> {
    if Loads(b, taken, l) then taken + {l.id} else taken
  }

  function LoadedAll(b: Bank, taken: set<Id>, lines: seq<Line>): Bank
    decreases lines
  {
    if lines == [] then b
    else LoadedAll(Loaded(b, taken, lines[0]), TakenAfter(b, taken, lines[0]), lines[1..])
  }

  /** One round of the loading loop, which keeps the time of the last accepted
      line aside: `b'`, `taken'` and `time'` are what it has after the line. */
  lemma LoadStep(b: Bank, taken: set<Id>, time: int, l: Line, rest: seq<Line>, b': Bank, taken': set<Id>, time': int)
    requires if Loads(b, taken, l)
      then b'.(lastDateTime := l.dateTime) == Loaded(b, taken, l) && taken' == taken + {l.id} && time' == l.dateTime
      else b' == b && taken' == taken && time' == time
    ensures LoadedAll(b'.(lastDateTime := time'), taken', rest)
         == LoadedAll(b.(lastDateTime := time), taken, [l] + rest)
  {
    assert ([l] + rest)[1..] == rest;
  }

  function RequestedAll(b: Bank, qs: seq<Request>): Bank
    decreases qs
  {
    if qs == [] then b else RequestedAll(Requested(b, qs[0]), qs[1..])
  }

  // ----- histories

  /** One accepted transaction with its parties. */
  datatype Accepted = Accepted(t: Transaction, sender: Id, receiver: Id)

  /** What a request adds to the history. */
  function RequestEntry(b: Bank, q: Request): seq<Accepted> {
    if Accepts(b, q) then [Accepted(TransactionOf(b, q), q.sender, q.receiver)] else []
  }

  /** What a line of the transactions file adds to the history. */
  function LoadEntry(b: Bank, taken: set<Id>, l: Line): seq<Accepted> {
    if Loads(b, taken, l) then [Accepted(Transaction(l.id, l.value, l.dateTime), l.sender, l.receiver)] else []
  }

  /** The lines that are accepted when all are loaded, in order. */
  function LoadHistory(b: Bank, taken: set<Id>, lines: seq<Line>): seq<Accepted>
    decreases lines
  {
    if lines == [] then []
    else
      var l := lines[0];
      LoadEntry(b, taken, l) + LoadHistory(Loaded(b, taken, l), TakenAfter(b, taken, l), lines[1..])
  }

  /** The requests that are accepted when all are made, in order. */
  function RequestHistory(b: Bank, qs: seq<Request>): seq<Accepted>
    decreases qs
  {
    if qs == [] then [] else RequestEntry(b, qs[0]) + RequestHistory(Requested(b, qs[0]), qs[1..])
  }

  /** The history of a whole run. */
  function History(b: Bank, lines: seq<Line>, qs: seq<Request>): seq<Accepted> {
    LoadHistory(b, {}, lines) + RequestHistory(LoadedAll(b, {}, lines), qs)
  }

  /** What wallet `w` has sent, in order. */
  function SentBy(h: seq<Accepted>, w: Id): seq<Record> {
    if h == [] then []
    else
      var last := h[|h| - 1];
      SentBy(h[..|h| - 1], w) + if last.sender == w then [Record(last.t, last.receiver)] else []
  }

  function ReceivedBy(h: seq<Accepted>, w: Id): seq<Record> {
    if h == [] then []
    else
      var last := h[|h| - 1];
      ReceivedBy(h[..|h| - 1], w) + if last.receiver == w then [Record(last.t, last.sender)] else []
  }

  /** The sum of a list, as the unrestricted search computes it. */
  function Total(s: seq<Record>): nat {
    SumOf(s, 0, 0)
  }

  /** The two indexes are the history seen from each wallet. */
  ghost predicate Indexed(b: Bank, h: seq<Accepted>) {
    forall w :: ListOf(b.sent, w) == SentBy(h, w) && ListOf(b.received, w) == ReceivedBy(h, w)
  }

  /** A wallet's balance is what it had first, less what it sent, plus what it got. */
  predicate Balanced(b: Bank, first: State, w: Id)
    requires w in b.ledger.purses && w in first.purses
  {
    b.ledger.purses[w].total + Total(ListOf(b.sent, w)) == first.purses[w].total + Total(ListOf(b.received, w))
  }

  /** No identifier occurs twice, and none is beyond the last one. */
  ghost predicate Identified(h: seq<Accepted>, maxID: Id) {
    && (forall i, j :: 0 <= i < j < |h| ==> h[i].t.transactionID != h[j].t.transactionID)
    && (forall i :: 0 <= i < |h| ==> h[i].t.transactionID == maxID || Less(h[i].t.transactionID, maxID))
  }

  /** The trees give away exactly the value of an accepted transaction, to its
      receiver, and leave what remains to its sender. */
  ghost predicate TracedOne(trees: map<int, Tree>, a: Accepted) {
    && (forall c :: c in trees ==> Between(trees[c], a.t, a.sender, a.receiver))
    && (forall cs :: Names(cs, trees.Keys) ==> AllGiven(trees, cs, a.t) == a.t.value)
  }

  ghost predicate InHistory(h: seq<Accepted>, x: Transaction) {
    exists i :: 0 <= i < |h| && h[i].t == x
  }

  /** The trees and the history tell the same: every node is tagged with an
      accepted transaction, and every accepted one can be traced. */
  ghost predicate Traced(trees: map<int, Tree>, h: seq<Accepted>) {
    && (forall c, x :: c in trees && x in Tags(trees[c]) ==> InHistory(h, x))
    && (forall i :: 0 <= i < |h| ==> TracedOne(trees, h[i]))
  }

  ghost predicate Reached(b: Bank, first: State, h: seq<Accepted>) {
    && Agree(b.ledger) && TotalsAgree(b.ledger)
    && b.ledger.purses.Keys == first.purses.Keys && SameValues(first, b.ledger)
    && Indexed(b, h)
    && (forall w :: w in first.purses ==> Balanced(b, first, w))
    && Identified(h, b.maxID)
    && Traced(b.ledger.trees, h)
  }

  lemma AppendedLists(m: map<Id, seq<Record>>, w: Id, r: Record)
    ensures forall v :: ListOf(Appended(m, w, r), v) == ListOf(m, v) + if v == w then [r] else []
  {
  }

  lemma HistoryGrows(h: seq<Accepted>, a: Accepted)
    ensures forall w :: SentBy(h + [a], w) == SentBy(h, w) + if a.sender == w then [Record(a.t, a.receiver)] else []
    ensures forall w :: ReceivedBy(h + [a], w) == ReceivedBy(h, w) + if a.receiver == w then [Record(a.t, a.sender)] else []
  {
    assert (h + [a])[..|h|] == h;
  }

  lemma EnterIndexed(b: Bank, h: seq<Accepted>, t: Transaction, s: Id, r: Id)
    requires Indexed(b, h) && CanPay(b.ledger, s, r, t.value)
    ensures Indexed(Enter(b, t, s, r), h + [Accepted(t, s, r)])
  {
    AppendedLists(b.sent, s, Record(t, r));
    AppendedLists(b.received, r, Record(t, s));
    HistoryGrows(h, Accepted(t, s, r));
    var b' := Enter(b, t, s, r);
    assert b'.sent == Appended(b.sent, s, Record(t, r)) && b'.received == Appended(b.received, r, Record(t, s));
  }

  lemma TotalGrows(s: seq<Record>, r: Record)
    ensures Total(s + [r]) == Total(s) + r.transaction.value
  {
    SumOfMore(s, r, 0, 0);
  }

  lemma EnterBalanced(b: Bank, first: State, t: Transaction, s: Id, r: Id)
    requires Agree(b.ledger) && TotalsAgree(b.ledger) && CanPay(b.ledger, s, r, t.value)
    requires b.ledger.purses.Keys == first.purses.Keys && forall w :: w in first.purses ==> Balanced(b, first, w)
    ensures var b' := Enter(b, t, s, r);
      && Agree(b'.ledger) && TotalsAgree(b'.ledger) && b'.ledger.purses.Keys == first.purses.Keys
      && SameValues(b.ledger, b'.ledger)
      && forall w :: w in first.purses ==> Balanced(b', first, w)
  {
    PayAgrees(b.ledger, t.value, Payment(s, r, t));
    AppendedLists(b.sent, s, Record(t, r));
    AppendedLists(b.received, r, Record(t, s));
    var b' := Enter(b, t, s, r);
    forall w | w in first.purses ensures Balanced(b', first, w) {
      assert Balanced(b, first, w);
      BalanceKept(b, b', first, t, s, r, w);
    }
  }

  lemma BalanceKept(b: Bank, b': Bank, first: State, t: Transaction, s: Id, r: Id, w: Id)
    requires w in b.ledger.purses && w in b'.ledger.purses && w in first.purses && s != r && Balanced(b, first, w)
    requires b'.ledger.purses[w].total == b.ledger.purses[w].total
      - (if w == s then t.value else 0) + (if w == r then t.value else 0)
    requires ListOf(b'.sent, w) == ListOf(b.sent, w) + if w == s then [Record(t, r)] else []
    requires ListOf(b'.received, w) == ListOf(b.received, w) + if w == r then [Record(t, s)] else []
    ensures Balanced(b', first, w)
  {
    assert ListOf(b.sent, w) + [] == ListOf(b.sent, w) && ListOf(b.received, w) + [] == ListOf(b.received, w);
    TotalGrows(ListOf(b.sent, w), Record(t, r));
    TotalGrows(ListOf(b.received, w), Record(t, s));
  }

  lemma EnterIdentified(h: seq<Accepted>, maxID: Id, a: Accepted, maxID': Id)
    requires Identified(h, maxID) && forall i :: 0 <= i < |h| ==> h[i].t.transactionID != a.t.transactionID
    requires maxID' == maxID || Less(maxID, maxID')
    requires a.t.transactionID == maxID' || Less(a.t.transactionID, maxID')
    ensures Identified(h + [a], maxID')
  {
    var h' := h + [a];
    forall i | 0 <= i < |h'| ensures h'[i].t.transactionID == maxID' || Less(h'[i].t.transactionID, maxID') {
      if i < |h| && h[i].t.transactionID != maxID && maxID != maxID' {
        LessTransitive(h[i].t.transactionID, maxID, maxID');
      }
    }
  }

  lemma {:induction false} SomeNames(keys: set<int>) returns (cs: seq<int>)
    ensures Names(cs, keys)
    decreases keys
  {
    if c :| c in keys {
      var rest := SomeNames(keys - {c});
      cs := [c] + rest;
    } else {
      cs := [];
    }
  }

  lemma OldTraced(st: State, p: Payment, amount: nat, a: Accepted)
    requires Agree(st) && TotalsAgree(st) && Parties(st, p) && amount <= st.purses[p.sender].total
    requires TracedOne(st.trees, a) && a.t != p.transaction
    ensures TracedOne(Pay(st, amount, p).trees, a)
  {
    var ts, ts' := st.trees, Pay(st, amount, p).trees;
    var some := SomeNames(ts.Keys);
    PayTrail(st, amount, p, some, a.t, a.sender, a.receiver);
    forall cs | Names(cs, ts'.Keys) ensures AllGiven(ts', cs, a.t) == a.t.value {
      PayTrail(st, amount, p, cs, a.t, a.sender, a.receiver);
    }
  }

  lemma NewTraced(st: State, p: Payment, amount: nat)
    requires Agree(st) && TotalsAgree(st) && Parties(st, p) && amount <= st.purses[p.sender].total
    requires p.transaction.value == amount && forall c :: c in st.trees ==> p.transaction !in Tags(st.trees[c])
    ensures TracedOne(Pay(st, amount, p).trees, Accepted(p.transaction, p.sender, p.receiver))
    ensures forall c :: c in Pay(st, amount, p).trees ==>
      c in st.trees && Tags(Pay(st, amount, p).trees[c]) <= Tags(st.trees[c]) + {p.transaction}
  {
    var ts, ts', t := st.trees, Pay(st, amount, p).trees, p.transaction;
    var some := SomeNames(ts.Keys);
    PayTrail(st, amount, p, some, t, p.sender, p.receiver);
    forall c | c in ts' ensures Between(ts'[c], t, p.sender, p.receiver) {
      NoTag(ts[c], t, p.sender, p.receiver);
    }
    forall cs | Names(cs, ts'.Keys) ensures AllGiven(ts', cs, t) == amount {
      NoneGiven(ts, cs, t);
      PayTrail(st, amount, p, cs, t, p.sender, p.receiver);
    }
  }

  lemma EnterTraced(st: State, h: seq<Accepted>, p: Payment, amount: nat)
    requires Agree(st) && TotalsAgree(st) && Parties(st, p) && amount <= st.purses[p.sender].total
    requires Traced(st.trees, h) && p.transaction.value == amount && !InHistory(h, p.transaction)
    ensures Traced(Pay(st, amount, p).trees, h + [Accepted(p.transaction, p.sender, p.receiver)])
  {
    var a := Accepted(p.transaction, p.sender, p.receiver);
    var ts, h' := Pay(st, amount, p).trees, h + [a];
    NewTraced(st, p, amount);
    forall i | 0 <= i < |h'| ensures TracedOne(ts, h'[i]) {
      if i < |h| {
        assert h[i].t != p.transaction;
        OldTraced(st, p, amount, h[i]);
      }
    }
    forall c, x | c in ts && x in Tags(ts[c]) ensures InHistory(h', x) {
      if x == p.transaction {
        assert h'[|h|].t == x;
      } else {
        assert x in Tags(st.trees[c]) && InHistory(h, x);
        var i :| 0 <= i < |h| && h[i].t == x;
        assert h'[i].t == x;
      }
    }
  }

  lemma EnterReached(b: Bank, first: State, h: seq<Accepted>, t: Transaction, s: Id, r: Id, maxID': Id, time: int)
    requires Reached(b, first, h) && CanPay(b.ledger, s, r, t.value)
    requires forall i :: 0 <= i < |h| ==> h[i].t.transactionID != t.transactionID
    requires maxID' == b.maxID || Less(b.maxID, maxID')
    requires t.transactionID == maxID' || Less(t.transactionID, maxID')
    ensures Reached(Enter(b, t, s, r).(maxID := maxID', lastDateTime := time), first, h + [Accepted(t, s, r)])
  {
    var b', b'' := Enter(b, t, s, r), Enter(b, t, s, r).(maxID := maxID', lastDateTime := time);
    EnterIndexed(b, h, t, s, r);
    EnterBalanced(b, first, t, s, r);
    EnterIdentified(h, b.maxID, Accepted(t, s, r), maxID');
    EnterTraced(b.ledger, h, Payment(s, r, t), t.value);
    assert Indexed(b'', h + [Accepted(t, s, r)]) by {
      forall w ensures ListOf(b''.sent, w) == SentBy(h + [Accepted(t, s, r)], w)
                    && ListOf(b''.received, w) == ReceivedBy(h + [Accepted(t, s, r)], w) {
        assert ListOf(b'.sent, w) == SentBy(h + [Accepted(t, s, r)], w);
      }
    }
    forall w | w in first.purses ensures Balanced(b'', first, w) {
      assert Balanced(b', first, w);
    }
  }

  /** A request keeps everything; an accepted one adds exactly itself to the
      history, under an identifier nobody has. */
  lemma RequestKeeps(b: Bank, first: State, h: seq<Accepted>, q: Request)
    requires Reached(b, first, h) && StrCmp.Fits(b.maxID)
    ensures Reached(Requested(b, q), first, h + RequestEntry(b, q)) && StrCmp.Fits(Requested(b, q).maxID)
  {
    if Accepts(b, q) {
      var t := TransactionOf(b, q);
      NextIDGreater(b.maxID);
      forall i | 0 <= i < |h| ensures h[i].t.transactionID != t.transactionID {
        LessTotal(t.transactionID, b.maxID);
        LessTotal(b.maxID, t.transactionID);
      }
      EnterReached(b, first, h, t, q.sender, q.receiver, t.transactionID, t.dateTime);
    } else {
      assert h + [] == h;
    }
  }

  /** A request leaves no trace exactly when it is rejected. */
  lemma RequestRejectedIff(b: Bank, q: Request)
    requires StrCmp.Fits(b.maxID)
    ensures Requested(b, q) == b <==> !Accepts(b, q)
  {
    if Accepts(b, q) {
      NextIDGreater(b.maxID);
      LessTotal(b.maxID, b.maxID);
    }
  }

  function IDsOf(h: seq<Accepted>): set<Id> {
    set i | 0 <= i < |h| :: h[i].t.transactionID
  }

  lemma IDsOfMore(h: seq<Accepted>, a: Accepted)
    ensures IDsOf(h + [a]) == IDsOf(h) + {a.t.transactionID}
    ensures forall i :: 0 <= i < |h| ==> h[i].t.transactionID in IDsOf(h)
  {
    var h' := h + [a];
    forall id ensures id in IDsOf(h') <==> id in IDsOf(h) + {a.t.transactionID} {
      if id in IDsOf(h) {
        var i :| 0 <= i < |h| && h[i].t.transactionID == id;
        assert h'[i].t.transactionID == id;
      }
      assert h'[|h|].t.transactionID == a.t.transactionID;
    }
  }

  /** A line keeps everything; an accepted one adds exactly itself. */
  lemma LoadKeeps(b: Bank, first: State, h: seq<Accepted>, l: Line)
    requires Reached(b, first, h) && StrCmp.Fits(b.maxID) && StrCmp.Fits(l.id)
    ensures Reached(Loaded(b, IDsOf(h), l), first, h + LoadEntry(b, IDsOf(h), l))
    ensures StrCmp.Fits(Loaded(b, IDsOf(h), l).maxID)
    ensures IDsOf(h + LoadEntry(b, IDsOf(h), l)) == TakenAfter(b, IDsOf(h), l)
  {
    if Loads(b, IDsOf(h), l) {
      var t := Transaction(l.id, l.value, l.dateTime);
      var maxID' := if Less(b.maxID, l.id) then l.id else b.maxID;
      LessTotal(l.id, b.maxID);
      LessTotal(b.maxID, l.id);
      IDsOfMore(h, Accepted(t, l.sender, l.receiver));
      EnterReached(b, first, h, t, l.sender, l.receiver, maxID', l.dateTime);
    } else {
      assert h + [] == h;
    }
  }

  // ----- runs

  lemma HistoryJoins(h: seq<Accepted>, e: seq<Accepted>, rest: seq<Accepted>)
    ensures h + e + rest == h + (e + rest)
  {
  }

  /** Loading any lines adds exactly the accepted ones, in order. */
  lemma {:induction false} LoadAllKeeps(b: Bank, first: State, h: seq<Accepted>, lines: seq<Line>)
    requires Reached(b, first, h) && StrCmp.Fits(b.maxID) && forall i :: 0 <= i < |lines| ==> StrCmp.Fits(lines[i].id)
    ensures Reached(LoadedAll(b, IDsOf(h), lines), first, h + LoadHistory(b, IDsOf(h), lines))
    ensures StrCmp.Fits(LoadedAll(b, IDsOf(h), lines).maxID)
    decreases lines
  {
    if lines == [] {
      assert h + [] == h;
    } else {
      var l, taken := lines[0], IDsOf(h);
      LoadKeeps(b, first, h, l);
      var h', b' := h + LoadEntry(b, taken, l), Loaded(b, taken, l);
      LoadAllKeeps(b', first, h', lines[1..]);
      HistoryJoins(h, LoadEntry(b, taken, l), LoadHistory(b', IDsOf(h'), lines[1..]));
    }
  }

  /** Any requests add exactly the accepted ones, in order. */
  lemma {:induction false} RequestAllKeeps(b: Bank, first: State, h: seq<Accepted>, qs: seq<Request>)
    requires Reached(b, first, h) && StrCmp.Fits(b.maxID)
    ensures Reached(RequestedAll(b, qs), first, h + RequestHistory(b, qs)) && StrCmp.Fits(RequestedAll(b, qs).maxID)
    decreases qs
  {
    if qs == [] {
      assert h + [] == h;
    } else {
      RequestKeeps(b, first, h, qs[0]);
      var h', b' := h + RequestEntry(b, qs[0]), Requested(b, qs[0]);
      RequestAllKeeps(b', first, h', qs[1..]);
      HistoryJoins(h, RequestEntry(b, qs[0]), RequestHistory(b', qs[1..]));
    }
  }

  /** The program before it loads anything. */
  function Fresh(ledger: State): Bank {
    Bank(ledger, map[], map[], [], 0)
  }

  /** No coin has been transferred. */
  ghost predicate Untouched(st: State) {
    forall c :: c in st.trees ==> Tags(st.trees[c]) == {}
  }

  /** After loading any lines and making any requests, the three records of the
      ledger agree, the indexes are the history of what was accepted, the trees
      tell this history too, no identifier occurs twice, and every wallet's
      balance is its first one less its payments plus its earnings. */
  lemma RunReached(ledger: State, lines: seq<Line>, qs: seq<Request>)
    requires Agree(ledger) && TotalsAgree(ledger) && Untouched(ledger)
    requires forall i :: 0 <= i < |lines| ==> StrCmp.Fits(lines[i].id)
    ensures Reached(RequestedAll(LoadedAll(Fresh(ledger), {}, lines), qs), ledger, History(Fresh(ledger), lines, qs))
  {
    var b := Fresh(ledger);
    assert IDsOf([]) == {};
    forall w | w in ledger.purses ensures Balanced(b, ledger, w) {}
    assert Reached(b, ledger, []);
    LoadAllKeeps(b, ledger, [], lines);
    assert [] + LoadHistory(b, {}, lines) == LoadHistory(b, {}, lines);
    RequestAllKeeps(LoadedAll(b, {}, lines), ledger, LoadHistory(b, {}, lines), qs);
  }

  /** In every reached state the wallets' totals add up to what the coins were
      worth at first. */
  lemma SupplyKept(b: Bank, first: State, h: seq<Accepted>, ws: seq<Id>, cs: seq<int>)
    requires Reached(b, first, h) && Names(ws, first.purses.Keys) && Names(cs, first.trees.Keys)
    ensures AllTotals(b.ledger, ws) == AllValues(first, cs)
  {
    TotalsAddUpToCoins(b.ledger, ws, cs);
    SameValuesSameSupply(first, b.ledger, cs);
  }
}
