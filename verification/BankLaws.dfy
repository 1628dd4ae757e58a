/** What holds over whole runs of the program: every accepted transaction is
    listed once and can be traced, what the history consists of, and when its
    times ascend. */
module BankLaws {
  import opened Words
  import opened Transactions
  import opened CoinTree
  import opened LedgerSpec
  import opened Trails
  import opened HashTables
  import opened BankSpec
  import opened StrCmp

  // ----- every accepted transaction is listed once

  /** How often an identifier occurs in a list. */
  function Occurs(s: seq<Record>, id: Id): nat {
    if s == [] then 0
    else Occurs(s[..|s| - 1], id) + if s[|s| - 1].transaction.transactionID == id then 1 else 0
  }

  /** An occurrence more, if the record is added and has the identifier. */
  lemma OccursMore(s: seq<Record>, r: Record, added: bool, s': seq<Record>, id: Id)
    requires s' == s + if added then [r] else []
    ensures Occurs(s', id) == Occurs(s, id) + if added && r.transaction.transactionID == id then 1 else 0
  {
    if added {
      assert s'[..|s|] == s;
    } else {
      assert s' == s;
    }
  }

  lemma {:induction false} NotInHistory(h: seq<Accepted>, id: Id, w: Id)
    requires forall i :: 0 <= i < |h| ==> h[i].t.transactionID != id
    ensures Occurs(SentBy(h, w), id) == 0 && Occurs(ReceivedBy(h, w), id) == 0
  {
    if h != [] {
      var g, a := h[..|h| - 1], h[|h| - 1];
      NotInHistory(g, id, w);
      OccursMore(SentBy(g, w), Record(a.t, a.receiver), a.sender == w, SentBy(h, w), id);
      OccursMore(ReceivedBy(g, w), Record(a.t, a.sender), a.receiver == w, ReceivedBy(h, w), id);
    }
  }

  /** A transaction occurs once in its sender's list, once in its receiver's
      list, and in no other list. */
  lemma {:induction false} ListedOnce(h: seq<Accepted>, i: nat, w: Id)
    requires i < |h| && forall j, k :: 0 <= j < k < |h| ==> h[j].t.transactionID != h[k].t.transactionID
    ensures var id := h[i].t.transactionID;
      && Occurs(SentBy(h, w), id) == (if w == h[i].sender then 1 else 0)
      && Occurs(ReceivedBy(h, w), id) == (if w == h[i].receiver then 1 else 0)
  {
    var g, a, id := h[..|h| - 1], h[|h| - 1], h[i].t.transactionID;
    if i < |g| {
      ListedOnce(g, i, w);
      assert g[i] == h[i];
    } else {
      NotInHistory(g, id, w);
    }
    OccursMore(SentBy(g, w), Record(a.t, a.receiver), a.sender == w, SentBy(h, w), id);
    OccursMore(ReceivedBy(g, w), Record(a.t, a.sender), a.receiver == w, ReceivedBy(h, w), id);
  }

  /** So it is in the tables of every reached state. */
  lemma IndexedOnce(b: Bank, first: State, h: seq<Accepted>, i: nat, w: Id)
    requires Reached(b, first, h) && i < |h|
    ensures var id := h[i].t.transactionID;
      && Occurs(ListOf(b.sent, w), id) == (if w == h[i].sender then 1 else 0)
      && Occurs(ListOf(b.received, w), id) == (if w == h[i].receiver then 1 else 0)
  {
    ListedOnce(h, i, w);
    assert Indexed(b, h);
    assert ListOf(b.sent, w) == SentBy(h, w);
  }

  predicate Among(h: seq<Accepted>, t: Transaction, sender: Id, receiver: Id) {
    exists i :: 0 <= i < |h| && h[i] == Accepted(t, sender, receiver)
  }

  lemma AmongMore(h: seq<Accepted>)
    requires h != []
    ensures forall t, s, r :: Among(h, t, s, r) <==> h[|h| - 1] == Accepted(t, s, r) || Among(h[..|h| - 1], t, s, r)
  {
    var g := h[..|h| - 1];
    forall t, s, r | Among(g, t, s, r) ensures Among(h, t, s, r) {
      var i :| 0 <= i < |g| && g[i] == Accepted(t, s, r);
      assert h[i] == Accepted(t, s, r);
    }
    forall t, s, r | Among(h, t, s, r) && h[|h| - 1] != Accepted(t, s, r) ensures Among(g, t, s, r) {
      var i :| 0 <= i < |h| && h[i] == Accepted(t, s, r);
      assert g[i] == Accepted(t, s, r);
    }
  }

  /** A wallet's list has exactly its own transactions, with who was on the other
      side. */
  lemma {:induction false} ListsAre(h: seq<Accepted>, w: Id, t: Transaction, other: Id)
    ensures Record(t, other) in SentBy(h, w) <==> Among(h, t, w, other)
    ensures Record(t, other) in ReceivedBy(h, w) <==> Among(h, t, other, w)
  {
    if h != [] {
      AmongMore(h);
      ListsAre(h[..|h| - 1], w, t, other);
    }
  }

  lemma {:induction false} ListsJoin(h: seq<Accepted>, more: seq<Accepted>, w: Id)
    ensures SentBy(h + more, w) == SentBy(h, w) + SentBy(more, w)
    ensures ReceivedBy(h + more, w) == ReceivedBy(h, w) + ReceivedBy(more, w)
  {
    if more == [] {
      assert h + more == h;
    } else {
      assert (h + more)[..|h + more| - 1] == h + more[..|more| - 1];
      ListsJoin(h, more[..|more| - 1], w);
    }
  }

  /** In every reached state the tables list, for each wallet, exactly the
      transactions of the history that it has sent and received, in the order in
      which they were accepted. */
  lemma TablesAre(b: Bank, first: State, h: seq<Accepted>, more: seq<Accepted>, w: Id, t: Transaction, other: Id)
    requires Reached(b, first, h + more)
    ensures Record(t, other) in ListOf(b.sent, w) <==> Among(h + more, t, w, other)
    ensures Record(t, other) in ListOf(b.received, w) <==> Among(h + more, t, other, w)
    ensures ListOf(b.sent, w) == SentBy(h, w) + SentBy(more, w)
    ensures ListOf(b.received, w) == ReceivedBy(h, w) + ReceivedBy(more, w)
  {
    assert Indexed(b, h + more);
    assert ListOf(b.sent, w) == SentBy(h + more, w);
    ListsAre(h + more, w, t, other);
    ListsJoin(h, more, w);
  }

  /** In a whole run every accepted line and every accepted request is listed
      once with its sender and once with its receiver, and can be traced through
      the trees. */
  lemma RunListsOnce(ledger: State, lines: seq<Line>, qs: seq<Request>, i: nat, w: Id)
    requires Agree(ledger) && TotalsAgree(ledger) && Untouched(ledger)
    requires forall k :: 0 <= k < |lines| ==> Fits(lines[k].id)
    requires i < |History(Fresh(ledger), lines, qs)|
    ensures var a := History(Fresh(ledger), lines, qs)[i];
      var b := RequestedAll(LoadedAll(Fresh(ledger), {}, lines), qs);
      && Occurs(ListOf(b.sent, w), a.t.transactionID) == (if w == a.sender then 1 else 0)
      && Occurs(ListOf(b.received, w), a.t.transactionID) == (if w == a.receiver then 1 else 0)
      && TracedOne(b.ledger.trees, a)
  {
    RunReached(ledger, lines, qs);
    var b := RequestedAll(LoadedAll(Fresh(ledger), {}, lines), qs);
    var h := History(Fresh(ledger), lines, qs);
    IndexedOnce(b, ledger, h, i, w);
    assert Traced(b.ledger.trees, h);
  }

  // ----- what is in the history

  function TakenAll(b: Bank, taken: set<Id>, lines: seq<Line>): set<Id>
    decreases lines
  {
    if lines == [] then taken
    else TakenAll(Loaded(b, taken, lines[0]), TakenAfter(b, taken, lines[0]), lines[1..])
  }

  lemma {:induction false} LoadSplits(b: Bank, taken: set<Id>, lines: seq<Line>, more: seq<Line>)
    ensures var b', taken' := LoadedAll(b, taken, lines), TakenAll(b, taken, lines);
      && LoadedAll(b, taken, lines + more) == LoadedAll(b', taken', more)
      && LoadHistory(b, taken, lines + more) == LoadHistory(b, taken, lines) + LoadHistory(b', taken', more)
    decreases lines
  {
    if lines == [] {
      assert lines + more == more && [] + LoadHistory(b, taken, more) == LoadHistory(b, taken, more);
    } else {
      var l := lines[0];
      assert (lines + more)[0] == l && (lines + more)[1..] == lines[1..] + more;
      LoadSplits(Loaded(b, taken, l), TakenAfter(b, taken, l), lines[1..], more);
      var b1, taken1 := Loaded(b, taken, l), TakenAfter(b, taken, l);
      HistoryJoins(LoadEntry(b, taken, l), LoadHistory(b1, taken1, lines[1..]),
                   LoadHistory(LoadedAll(b1, taken1, lines[1..]), TakenAll(b1, taken1, lines[1..]), more));
    }
  }

  lemma {:induction false} RequestSplits(b: Bank, qs: seq<Request>, more: seq<Request>)
    ensures var b' := RequestedAll(b, qs);
      && RequestedAll(b, qs + more) == RequestedAll(b', more)
      && RequestHistory(b, qs + more) == RequestHistory(b, qs) + RequestHistory(b', more)
    decreases qs
  {
    if qs == [] {
      assert qs + more == more && [] + RequestHistory(b, more) == RequestHistory(b, more);
    } else {
      assert (qs + more)[0] == qs[0] && (qs + more)[1..] == qs[1..] + more;
      var b1 := Requested(b, qs[0]);
      RequestSplits(b1, qs[1..], more);
      HistoryJoins(RequestEntry(b, qs[0]), RequestHistory(b1, qs[1..]), RequestHistory(RequestedAll(b1, qs[1..]), more));
    }
  }

  /** A line is in the history if and only if it is accepted in the state that
      the lines before it lead to; so is a request. */
  lemma LineInHistory(b: Bank, taken: set<Id>, before: seq<Line>, l: Line, behind: seq<Line>)
    ensures var b', taken' := LoadedAll(b, taken, before), TakenAll(b, taken, before);
      LoadHistory(b, taken, before + [l] + behind) == LoadHistory(b, taken, before)
        + (if Loads(b', taken', l) then [Accepted(Transaction(l.id, l.value, l.dateTime), l.sender, l.receiver)] else [])
        + LoadHistory(Loaded(b', taken', l), TakenAfter(b', taken', l), behind)
  {
    var b', taken' := LoadedAll(b, taken, before), TakenAll(b, taken, before);
    assert before + [l] + behind == before + ([l] + behind);
    LoadSplits(b, taken, before, [l] + behind);
    assert ([l] + behind)[0] == l && ([l] + behind)[1..] == behind;
    HistoryJoins(LoadHistory(b, taken, before), LoadEntry(b', taken', l),
                 LoadHistory(Loaded(b', taken', l), TakenAfter(b', taken', l), behind));
  }

  lemma RequestInHistory(b: Bank, before: seq<Request>, q: Request, behind: seq<Request>)
    ensures var b' := RequestedAll(b, before);
      RequestHistory(b, before + [q] + behind)
        == RequestHistory(b, before) + RequestEntry(b', q) + RequestHistory(Requested(b', q), behind)
  {
    var b' := RequestedAll(b, before);
    assert before + [q] + behind == before + ([q] + behind);
    RequestSplits(b, before, [q] + behind);
    assert ([q] + behind)[0] == q && ([q] + behind)[1..] == behind;
    HistoryJoins(RequestHistory(b, before), RequestEntry(b', q), RequestHistory(Requested(b', q), behind));
  }

  // ----- what is accepted

  lemma OneRequest(b: Bank, q: Request)
    ensures RequestHistory(b, [q]) == RequestEntry(b, q)
  {
    assert [q][1..] == [] && RequestEntry(b, q) + [] == RequestEntry(b, q);
  }

  /** A request is accepted if and only if both wallets exist and differ, the
      sender's total covers the amount, its own time (if any) is not before the
      last one, and identifiers are not used up. It is then entered with its
      amount under the next identifier, at its own time or else two hours after
      the clock's. */
  lemma RequestAcceptedIff(b: Bank, q: Request)
    requires Fits(b.maxID)
    ensures RequestHistory(b, [q]) != [] <==>
      && q.sender in b.ledger.purses && q.receiver in b.ledger.purses && q.sender != q.receiver
      && b.ledger.purses[q.sender].total >= q.amount
      && (q.dateTime == 0 || q.dateTime >= b.lastDateTime)
      && b.maxID != seq(14, i => '~')
    ensures RequestHistory(b, [q]) != [] ==>
      var time := if q.dateTime == 0 then q.now + 7200 else q.dateTime;
      && NextID(b.maxID).Some?
      && RequestHistory(b, [q]) == [Accepted(Transaction(NextID(b.maxID).value, q.amount, time), q.sender, q.receiver)]
  {
    NextIDNoneIff(b.maxID);
    OneRequest(b, q);
  }

  lemma {:induction false} TakenIs(b: Bank, h: seq<Accepted>, lines: seq<Line>)
    ensures TakenAll(b, IDsOf(h), lines) == IDsOf(h + LoadHistory(b, IDsOf(h), lines))
    decreases lines
  {
    if lines == [] {
      assert h + [] == h;
    } else {
      var l, taken := lines[0], IDsOf(h);
      var h', b' := h + LoadEntry(b, taken, l), Loaded(b, taken, l);
      if Loads(b, taken, l) {
        IDsOfMore(h, Accepted(Transaction(l.id, l.value, l.dateTime), l.sender, l.receiver));
      } else {
        assert h' == h;
      }
      TakenIs(b', h', lines[1..]);
      HistoryJoins(h, LoadEntry(b, taken, l), LoadHistory(b', IDsOf(h'), lines[1..]));
    }
  }

  /** No accepted line has this identifier. */
  predicate Unused(h: seq<Accepted>, id: Id) {
    forall i :: 0 <= i < |h| ==> h[i].t.transactionID != id
  }

  lemma UnusedIff(h: seq<Accepted>, id: Id)
    ensures Unused(h, id) <==> id !in IDsOf(h)
  {
  }

  /** A line behind others is accepted if and only if both wallets exist and
      differ, the sender's total covers the value at that point, and no line
      accepted before has its identifier; it is then entered as it is. */
  lemma LineAcceptedIff(b: Bank, before: seq<Line>, l: Line)
    ensures var b', h := LoadedAll(b, {}, before), LoadHistory(b, {}, before);
      var accepted :=
        && l.sender in b'.ledger.purses && l.receiver in b'.ledger.purses && l.sender != l.receiver
        && b'.ledger.purses[l.sender].total >= l.value && Unused(h, l.id);
      LoadHistory(b, {}, before + [l]) ==
        h + if accepted then [Accepted(Transaction(l.id, l.value, l.dateTime), l.sender, l.receiver)] else []
  {
    assert IDsOf([]) == {};
    TakenIs(b, [], before);
    assert [] + LoadHistory(b, {}, before) == LoadHistory(b, {}, before);
    UnusedIff(LoadHistory(b, {}, before), l.id);
    LineInHistory(b, {}, before, l, []);
    assert before + [l] + [] == before + [l];
    var h, e := LoadHistory(b, {}, before), LoadEntry(LoadedAll(b, {}, before), TakenAll(b, {}, before), l);
    assert h + e + [] == h + e;
  }

  // ----- identifiers

  /** The greatest of an identifier and those of a history. */
  function MaxID(from: Id, h: seq<Accepted>): Id
    decreases h
  {
    if h == [] then from
    else
      var id := h[0].t.transactionID;
      MaxID(if Less(from, id) then id else from, h[1..])
  }

  predicate HasID(h: seq<Accepted>, id: Id) {
    exists i :: 0 <= i < |h| && h[i].t.transactionID == id
  }

  lemma HasIDMore(h: seq<Accepted>)
    requires h != []
    ensures forall id :: HasID(h, id) <==> id == h[0].t.transactionID || HasID(h[1..], id)
  {
    forall id | HasID(h[1..], id) ensures HasID(h, id) {
      var i :| 0 <= i < |h[1..]| && h[1..][i].t.transactionID == id;
      assert h[i + 1].t.transactionID == id;
    }
    forall id | HasID(h, id) && id != h[0].t.transactionID ensures HasID(h[1..], id) {
      var i :| 0 <= i < |h| && h[i].t.transactionID == id;
      assert h[1..][i - 1].t.transactionID == id;
    }
  }

  lemma {:induction false} MaxIDIsGreatest(from: Id, h: seq<Accepted>)
    ensures MaxID(from, h) == from || HasID(h, MaxID(from, h))
    ensures !Less(MaxID(from, h), from) && forall id :: HasID(h, id) ==> !Less(MaxID(from, h), id)
    decreases h
  {
    if h == [] {
      LessTotal(from, from);
    } else {
      var id, m := h[0].t.transactionID, MaxID(from, h);
      HasIDMore(h);
      LessTotal(from, id);
      LessTotal(from, from);
      LessTotal(id, id);
      MaxIDIsGreatest(if Less(from, id) then id else from, h[1..]);
      NotBelow(m, if Less(from, id) then id else from, from);
      NotBelow(m, if Less(from, id) then id else from, id);
    }
  }

  /** Not less than the greater of two identifiers is not less than either. */
  lemma NotBelow(m: Id, greater: Id, id: Id)
    requires !Less(m, greater) && !Less(greater, id)
    ensures !Less(m, id)
  {
    LessTotal(m, greater);
    LessTotal(greater, id);
    if Less(m, id) && Less(id, greater) {
      LessTransitive(m, id, greater);
    }
  }

  lemma {:induction false} LoadedID(b: Bank, taken: set<Id>, lines: seq<Line>)
    ensures LoadedAll(b, taken, lines).maxID == MaxID(b.maxID, LoadHistory(b, taken, lines))
    decreases lines
  {
    if lines != [] {
      var l := lines[0];
      var b', taken' := Loaded(b, taken, l), TakenAfter(b, taken, l);
      LoadedID(b', taken', lines[1..]);
      var rest := LoadHistory(b', taken', lines[1..]);
      assert [] + rest == rest;
      assert Loads(b, taken, l) ==> (LoadEntry(b, taken, l) + rest)[1..] == rest;
    }
  }

  /** After loading, the identifier kept is the greatest of all accepted ones. */
  lemma GreatestLoaded(b: Bank, lines: seq<Line>)
    ensures var m, h := LoadedAll(b, {}, lines).maxID, LoadHistory(b, {}, lines);
      && (m == b.maxID || HasID(h, m))
      && !Less(m, b.maxID) && forall id :: HasID(h, id) ==> !Less(m, id)
  {
    LoadedID(b, {}, lines);
    MaxIDIsGreatest(b.maxID, LoadHistory(b, {}, lines));
  }

  /** Each identifier of a history follows the one before it, the first `from`. */
  predicate Numbered(from: Id, h: seq<Accepted>)
    decreases h
  {
    h != [] ==> NextID(from) == Some(h[0].t.transactionID) && Numbered(h[0].t.transactionID, h[1..])
  }

  function LastID(from: Id, h: seq<Accepted>): Id
    decreases h
  {
    if h == [] then from else LastID(h[0].t.transactionID, h[1..])
  }

  lemma {:induction false} RequestsNumbered(b: Bank, qs: seq<Request>)
    ensures Numbered(b.maxID, RequestHistory(b, qs))
    ensures RequestedAll(b, qs).maxID == LastID(b.maxID, RequestHistory(b, qs))
    decreases qs
  {
    if qs != [] {
      var b' := Requested(b, qs[0]);
      RequestsNumbered(b', qs[1..]);
      var rest := RequestHistory(b', qs[1..]);
      assert [] + rest == rest;
      assert Accepts(b, qs[0]) ==> (RequestEntry(b, qs[0]) + rest)[1..] == rest;
    }
  }

  lemma {:induction false} NumberedNth(from: Id, h: seq<Accepted>)
    requires Numbered(from, h)
    ensures forall i :: 0 <= i < |h| ==> NthID(from, i + 1) == Some(h[i].t.transactionID)
    ensures NthID(from, |h|) == Some(LastID(from, h))
    decreases h
  {
    if h != [] {
      var id, rest := h[0].t.transactionID, h[1..];
      NumberedNth(id, rest);
      NthIDAfter(from, |rest|);
      forall i | 0 <= i < |h| ensures NthID(from, i + 1) == Some(h[i].t.transactionID) {
        NthIDAfter(from, i);
        assert i > 0 ==> NthID(id, i - 1 + 1) == Some(rest[i - 1].t.transactionID) && rest[i - 1] == h[i];
      }
    }
  }

  /** Requests get the identifiers that follow the greatest one, one by one, and
      so there are no more of them than identifiers are left. */
  lemma RequestsTakeNext(b: Bank, qs: seq<Request>)
    requires Fits(b.maxID)
    ensures var h := RequestHistory(b, qs);
      && (forall i :: 0 <= i < |h| ==> NthID(b.maxID, i + 1) == Some(h[i].t.transactionID))
      && NthID(b.maxID, |h|) == Some(RequestedAll(b, qs).maxID)
      && |h| <= RoomFrom(b.maxID, 0)
  {
    RequestsNumbered(b, qs);
    NumberedNth(b.maxID, RequestHistory(b, qs));
    NthIDIff(b.maxID, |RequestHistory(b, qs)|);
  }

  lemma {:induction false} NthIDAfter(s: Id, n: nat)
    requires NextID(s).Some?
    ensures NthID(s, n + 1) == NthID(NextID(s).value, n)
  {
    if n > 0 {
      NthIDAfter(s, n - 1);
    } else {
      assert NthID(s, 0) == Some(s);
    }
  }

  // ----- times

  /** No accepted transaction is dated before the one before it, nor the first
      one before `from`. */
  predicate Ascends(from: int, h: seq<Accepted>)
    decreases h
  {
    h != [] ==> from <= h[0].t.dateTime && Ascends(h[0].t.dateTime, h[1..])
  }

  function LastTime(from: int, h: seq<Accepted>): int
    decreases h
  {
    if h == [] then from else LastTime(h[0].t.dateTime, h[1..])
  }

  lemma {:induction false} AscendsJoined(from: int, h: seq<Accepted>, more: seq<Accepted>)
    ensures Ascends(from, h + more) <==> Ascends(from, h) && Ascends(LastTime(from, h), more)
    decreases h
  {
    if h == [] {
      assert h + more == more;
    } else {
      assert (h + more)[1..] == h[1..] + more;
      AscendsJoined(h[0].t.dateTime, h[1..], more);
    }
  }

  /** Loading never compares times: the last time is that of the last accepted
      line. */
  lemma {:induction false} LoadedTime(b: Bank, taken: set<Id>, lines: seq<Line>)
    ensures LoadedAll(b, taken, lines).lastDateTime == LastTime(b.lastDateTime, LoadHistory(b, taken, lines))
    decreases lines
  {
    if lines != [] {
      var l := lines[0];
      var b', taken' := Loaded(b, taken, l), TakenAfter(b, taken, l);
      LoadedTime(b', taken', lines[1..]);
      var rest := LoadHistory(b', taken', lines[1..]);
      assert [] + rest == rest;
      assert Loads(b, taken, l) ==> (LoadEntry(b, taken, l) + rest)[1..] == rest;
    }
  }

  /** After requests it is that of the last accepted one. */
  lemma {:induction false} RequestedTime(b: Bank, qs: seq<Request>)
    ensures RequestedAll(b, qs).lastDateTime == LastTime(b.lastDateTime, RequestHistory(b, qs))
    decreases qs
  {
    if qs != [] {
      var b' := Requested(b, qs[0]);
      RequestedTime(b', qs[1..]);
      var rest := RequestHistory(b', qs[1..]);
      assert [] + rest == rest;
      assert Accepts(b, qs[0]) ==> (RequestEntry(b, qs[0]) + rest)[1..] == rest;
    }
  }

  /** Whenever an accepted request takes its time from the clock, the clock is not
      behind the last time. */
  predicate ClockAhead(b: Bank, qs: seq<Request>)
    decreases qs
  {
    qs != [] ==>
      && (Accepts(b, qs[0]) && qs[0].dateTime == 0 ==> b.lastDateTime <= qs[0].now + UTC_PLUS_2)
      && ClockAhead(Requested(b, qs[0]), qs[1..])
  }

  lemma {:induction false} RequestsAscendIff(b: Bank, qs: seq<Request>)
    ensures Ascends(b.lastDateTime, RequestHistory(b, qs)) <==> ClockAhead(b, qs)
    decreases qs
  {
    if qs != [] {
      var b' := Requested(b, qs[0]);
      RequestsAscendIff(b', qs[1..]);
      var rest := RequestHistory(b', qs[1..]);
      assert [] + rest == rest;
      assert Accepts(b, qs[0]) ==> (RequestEntry(b, qs[0]) + rest)[1..] == rest;
    }
  }

  /** Over a whole run the times in the history ascend if and only if those of
      the accepted lines do and the clock is never behind. */
  lemma RunAscendsIff(b: Bank, lines: seq<Line>, qs: seq<Request>)
    ensures Ascends(b.lastDateTime, History(b, lines, qs))
       <==> Ascends(b.lastDateTime, LoadHistory(b, {}, lines)) && ClockAhead(LoadedAll(b, {}, lines), qs)
  {
    LoadedTime(b, {}, lines);
    RequestsAscendIff(LoadedAll(b, {}, lines), qs);
    AscendsJoined(b.lastDateTime, LoadHistory(b, {}, lines), RequestHistory(LoadedAll(b, {}, lines), qs));
  }

  /** The lines of the file are in ascending order, as it is meant to be. */
  predicate LinesAscend(from: int, lines: seq<Line>)
    decreases lines
  {
    lines != [] ==> from <= lines[0].dateTime && LinesAscend(lines[0].dateTime, lines[1..])
  }

  lemma {:induction false} AscendsFromEarlier(from: int, later: int, h: seq<Accepted>)
    requires from <= later && Ascends(later, h)
    ensures Ascends(from, h)
  {
  }

  /** Then so are the accepted ones. */
  lemma {:induction false} AcceptedLinesAscend(b: Bank, from: int, taken: set<Id>, lines: seq<Line>)
    requires LinesAscend(from, lines)
    ensures Ascends(from, LoadHistory(b, taken, lines))
    decreases lines
  {
    if lines != [] {
      var l := lines[0];
      var b', taken' := Loaded(b, taken, l), TakenAfter(b, taken, l);
      AcceptedLinesAscend(b', l.dateTime, taken', lines[1..]);
      var rest := LoadHistory(b', taken', lines[1..]);
      assert [] + rest == rest;
      assert Loads(b, taken, l) ==> (LoadEntry(b, taken, l) + rest)[1..] == rest;
      AscendsFromEarlier(from, l.dateTime, rest);
    }
  }

  // ----- the coins' histories

  lemma EnterGrows(b: Bank, t: Transaction, sender: Id, receiver: Id)
    requires CanPay(b.ledger, sender, receiver, t.value)
    ensures TreesGrown(b.ledger.trees, Enter(b, t, sender, receiver).ledger.trees)
  {
    PayFromListGrows(b.ledger, t.value, Payment(sender, receiver, t));
  }

  lemma {:induction false} LoadingGrows(b: Bank, taken: set<Id>, lines: seq<Line>)
    ensures TreesGrown(b.ledger.trees, LoadedAll(b, taken, lines).ledger.trees)
    decreases lines
  {
    if lines == [] {
      TreesGrownSelf(b.ledger.trees);
    } else {
      var l := lines[0];
      var b', taken' := Loaded(b, taken, l), TakenAfter(b, taken, l);
      if Loads(b, taken, l) {
        EnterGrows(b, Transaction(l.id, l.value, l.dateTime), l.sender, l.receiver);
      } else {
        TreesGrownSelf(b.ledger.trees);
      }
      LoadingGrows(b', taken', lines[1..]);
      TreesGrownAll(b.ledger.trees, b'.ledger.trees, LoadedAll(b, taken, lines).ledger.trees);
    }
  }

  lemma {:induction false} RequestsGrow(b: Bank, qs: seq<Request>)
    ensures TreesGrown(b.ledger.trees, RequestedAll(b, qs).ledger.trees)
    decreases qs
  {
    if qs == [] {
      TreesGrownSelf(b.ledger.trees);
    } else {
      var b' := Requested(b, qs[0]);
      if Accepts(b, qs[0]) {
        EnterGrows(b, TransactionOf(b, qs[0]), qs[0].sender, qs[0].receiver);
      } else {
        TreesGrownSelf(b.ledger.trees);
      }
      RequestsGrow(b', qs[1..]);
      TreesGrownAll(b.ledger.trees, b'.ledger.trees, RequestedAll(b, qs).ledger.trees);
    }
  }

  /** A run only adds to the history of a coin: every node stays in its place, with
      its owner, amount and transaction. */
  lemma NothingRewritten(b: Bank, lines: seq<Line>, qs: seq<Request>)
    ensures TreesGrown(b.ledger.trees, RequestedAll(LoadedAll(b, {}, lines), qs).ledger.trees)
  {
    var b' := LoadedAll(b, {}, lines);
    LoadingGrows(b, {}, lines);
    RequestsGrow(b', qs);
    TreesGrownAll(b.ledger.trees, b'.ledger.trees, RequestedAll(b', qs).ledger.trees);
  }
}
