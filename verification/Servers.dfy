/** The server that knows which clients are logged on: its answers, whom it
    notifies, and why every client's own list stays right. */
module Servers {
  import opened ClientLists

  // ----- notification

  /** What becomes of a notification: it arrives, the client cannot be reached or
      written to, or its approval is missing or wrong. */
  datatype Outcome = Arrives | Unreachable | NotApproved

  type Network = ClientTuple -> Outcome

  /** Who is told, of the clients in this order: one who cannot be reached is
      passed over, one who does not approve ends the round. */
  function Told(s: seq<ClientTuple>, net: Network): seq<ClientTuple> {
    if s == [] then []
    else match net(s[0])
      case Arrives => [s[0]] + Told(s[1..], net)
      case Unreachable => Told(s[1..], net)
      case NotApproved => []
  }

  lemma {:induction false} ToldLength(s: seq<ClientTuple>, net: Network)
    ensures |Told(s, net)| <= |s|
  {
    if s != [] {
      ToldLength(s[1..], net);
    }
  }

  /** Everyone is told, each once and in order, exactly when every notification
      arrives. */
  lemma {:induction false} ToldAllIff(s: seq<ClientTuple>, net: Network)
    ensures Told(s, net) == s <==> forall x :: x in s ==> net(x).Arrives?
  {
    if s != [] {
      ToldAllIff(s[1..], net);
      ToldLength(s[1..], net);
      assert forall x :: x in s <==> x == s[0] || x in s[1..];
      if net(s[0]).Arrives? && Told(s, net) == s {
        assert Told(s, net)[1..] == Told(s[1..], net);
      }
    }
  }

  /** A client is told exactly when its notification arrives and nobody before it
      fails to approve: one who cannot be reached stops nobody else. */
  lemma {:induction false} ToldIff(s: seq<ClientTuple>, net: Network, i: nat)
    requires i < |s| && forall j, k :: 0 <= j < k < |s| ==> s[j] != s[k]
    ensures s[i] in Told(s, net) <==> net(s[i]).Arrives? && forall j :: 0 <= j < i ==> !net(s[j]).NotApproved?
  {
    ToldAmong(s[1..], net);
    if i == 0 {
      assert s[0] !in s[1..];
    } else {
      ToldIff(s[1..], net, i - 1);
      assert forall j :: 0 <= j < i - 1 ==> s[1..][j] == s[j + 1];
      if net(s[i]).Arrives? && forall j :: 0 <= j < i - 1 ==> !net(s[1..][j]).NotApproved? {
        assert forall j :: 0 < j < i ==> s[j] == s[1..][j - 1];
      }
    }
  }

  /** Behind clients of whom none fails to approve, the round goes on in order. */
  lemma {:induction false} ToldJoin(s: seq<ClientTuple>, more: seq<ClientTuple>, net: Network)
    requires forall i :: 0 <= i < |s| ==> !net(s[i]).NotApproved?
    ensures Told(s + more, net) == Told(s, net) + Told(more, net)
  {
    if s == [] {
      assert s + more == more;
    } else {
      assert (s + more)[1..] == s[1..] + more;
      ToldJoin(s[1..], more, net);
    }
  }

  lemma {:induction false} ToldAmong(s: seq<ClientTuple>, net: Network)
    ensures forall x :: x in Told(s, net) ==> x in s
  {
    if s != [] {
      ToldAmong(s[1..], net);
    }
  }

  // ----- steps

  datatype Event =
    | LogOn(client: ClientTuple, net: Network)
    | GetClients(client: ClientTuple)
    | LogOff(client: ClientTuple, net: Network)

  datatype Reply = ServerTuple | Closed | NotFound | Clients(count: int, tuples: seq<ClientTuple>) | LoggedOff

  /** The members after an event. */
  function After(ms: seq<ClientTuple>, e: Event): seq<ClientTuple> {
    match e
    case LogOn(c, _) => if c in ms then ms else ms + [c]
    case GetClients(_) => ms
    case LogOff(c, _) => Without(ms, c)
  }

  /** The members that are told of an event. */
  function ToldOf(ms: seq<ClientTuple>, e: Event): seq<ClientTuple> {
    match e
    case LogOn(c, net) => if c in ms then [] else Told(ms, net)
    case GetClients(_) => []
    case LogOff(c, net) => if c in ms then Told(Without(ms, c), net) else []
  }

  function ReplyTo(ms: seq<ClientTuple>, e: Event): Reply {
    match e
    case LogOn(c, _) => if c in ms then Closed else ServerTuple
    case GetClients(c) => if c in ms then Clients(|ms|, ms) else NotFound
    case LogOff(c, _) => if c in ms then LoggedOff else NotFound
  }

  predicate NoRepeats(s: seq<ClientTuple>) {
    forall i, j :: 0 <= i < j < |s| ==> s[i] != s[j]
  }

  lemma {:induction false} WithoutEffect(s: seq<ClientTuple>, c: ClientTuple)
    requires NoRepeats(s)
    ensures NoRepeats(Without(s, c)) && (forall x :: x in Without(s, c) <==> x in s && x != c)
    ensures |Without(s, c)| == |s| - if c in s then 1 else 0
  {
    if s != [] {
      var t := s[1..];
      WithoutEffect(t, c);
      assert forall x :: x in s <==> x == s[0] || x in t;
      assert s[0] !in t;
    }
  }

  lemma AfterEffect(ms: seq<ClientTuple>, e: Event)
    requires NoRepeats(ms)
    ensures NoRepeats(After(ms, e))
    ensures forall x :: x in After(ms, e) <==>
      if e.GetClients? || x != e.client then x in ms else e.LogOn?
  {
    if e.LogOff? {
      WithoutEffect(ms, e.client);
    }
  }

  // ----- the server

  class Server {
    const cList: ClientList
    var clientsLoggedOn: int

    ghost function Members(): seq<ClientTuple>
      reads cList
    {
      cList.Contents()
    }

    /** No client is on the list twice, and the counter is the list's length. */
    ghost predicate Valid()
      reads this, cList, cList.Repr()
    {
      cList.Valid() && NoRepeats(Members()) && clientsLoggedOn == |Members()|
    }

    constructor ()
      ensures Valid() && Members() == [] && fresh(cList)
    {
      cList := new ClientList();
      clientsLoggedOn := 0;
    }

    /** Tells all but the last one on the list, who is the new client. */
    method NotifyUserOn(ct: ClientTuple, net: Network) returns (told: seq<ClientTuple>)
      requires cList.Valid() && Members() != []
      ensures told == Told(Members()[..|Members()| - 1], net)
    {
      ghost var s := Members()[..|Members()| - 1];
      var curr := cList.list;
      ghost var i := 0;
      told := [];
      assert s[0..] == s;
      while curr.next != null
        invariant 0 <= i < |cList.nodes| && curr == cList.nodes[i]
        invariant told + Told(s[i..], net) == Told(s, net)
        decreases |cList.nodes| - i
      {
        NextTold(s, net, i, told);
        assert s[i] == curr.thisTuple;
        match net(curr.thisTuple) {
          case Unreachable =>
          case NotApproved => return;
          case Arrives => told := told + [curr.thisTuple];
        }
        curr := curr.next;
        i := i + 1;
      }
      assert s[i..] == [];
    }

    /** Tells all on the list, from which the client has been deleted. */
    method NotifyUserOff(ct: ClientTuple, net: Network) returns (told: seq<ClientTuple>)
      requires cList.Valid()
      ensures told == Told(Members(), net)
    {
      ghost var s := Members();
      var curr := cList.list;
      ghost var i := 0;
      told := [];
      if curr == null { return; }
      assert s[0..] == s;
      while curr.next != null
        invariant 0 <= i < |cList.nodes| && curr == cList.nodes[i]
        invariant told + Told(s[i..], net) == Told(s, net)
        decreases |cList.nodes| - i
      {
        NextTold(s, net, i, told);
        assert s[i] == curr.thisTuple;
        match net(curr.thisTuple) {
          case Unreachable =>
          case NotApproved => return;
          case Arrives => told := told + [curr.thisTuple];
        }
        curr := curr.next;
        i := i + 1;
      }
      NextTold(s, net, i, told);
      assert s[i] == curr.thisTuple && s[i + 1..] == [];
      if net(curr.thisTuple).Arrives? {
        told := told + [curr.thisTuple];
      }
    }

    method LogOn(c: ClientTuple, net: Network) returns (reply: Reply, told: seq<ClientTuple>)
      requires Valid()
      modifies this`clientsLoggedOn, cList, cList.Repr()
      ensures Valid() && Members() == After(old(Members()), Event.LogOn(c, net))
      ensures reply == ReplyTo(old(Members()), Event.LogOn(c, net)) && told == ToldOf(old(Members()), Event.LogOn(c, net))
      ensures forall n :: n in cList.Repr() ==> n in old(cList.Repr()) || fresh(n)
    {
      reply, told := Closed, [];
      var known := cList.In(c);
      if !known {
        cList.Add(c);
        told := NotifyUserOn(c, net);
        clientsLoggedOn := clientsLoggedOn + 1;
        reply := ServerTuple;
      }
    }

    /** Announces the number of clients, and sends as many. */
    method GetClients(c: ClientTuple) returns (reply: Reply)
      requires Valid()
      ensures reply == ReplyTo(Members(), Event.GetClients(c))
    {
      var known := cList.In(c);
      if !known { return NotFound; }
      var tuples := [];
      var curr := cList.list;
      ghost var i := 0;
      while curr.next != null
        invariant 0 <= i < |cList.nodes| && curr == cList.nodes[i] && tuples == Members()[..i]
        decreases |cList.nodes| - i
      {
        tuples := tuples + [curr.thisTuple];
        curr := curr.next;
        i := i + 1;
      }
      tuples := tuples + [curr.thisTuple];
      assert tuples == Members();
      reply := Clients(clientsLoggedOn, tuples);
    }

    method LogOff(c: ClientTuple, net: Network) returns (reply: Reply, told: seq<ClientTuple>)
      requires Valid()
      modifies this`clientsLoggedOn, cList, cList.Repr()
      ensures Valid() && Members() == After(old(Members()), Event.LogOff(c, net))
      ensures reply == ReplyTo(old(Members()), Event.LogOff(c, net)) && told == ToldOf(old(Members()), Event.LogOff(c, net))
      ensures forall n :: n in cList.Repr() ==> n in old(cList.Repr()) || fresh(n)
    {
      reply, told := NotFound, [];
      var known := cList.In(c);
      if !known {
        WithoutNone(Members(), c);
        return;
      }
      WithoutEffect(Members(), c);
      cList.Delete(c);
      clientsLoggedOn := clientsLoggedOn - 1;
      reply := LoggedOff;
      told := NotifyUserOff(c, net);
    }
  }

  lemma NextTold(s: seq<ClientTuple>, net: Network, i: nat, told: seq<ClientTuple>)
    requires i < |s| && told + Told(s[i..], net) == Told(s, net)
    ensures match net(s[i])
      case Arrives => told + [s[i]] + Told(s[i + 1..], net) == Told(s, net)
      case Unreachable => told + Told(s[i + 1..], net) == Told(s, net)
      case NotApproved => told == Told(s, net)
  {
    assert s[i..][1..] == s[i + 1..];
    assert told + [s[i]] + Told(s[i + 1..], net) == told + ([s[i]] + Told(s[i + 1..], net));
  }

  // ----- runs

  function AfterAll(ms: seq<ClientTuple>, es: seq<Event>): seq<ClientTuple>
    decreases es
  {
    if es == [] then ms else AfterAll(After(ms, es[0]), es[1..])
  }

  /** The last time client `c` logged on or off, it logged on; `before` tells
      what it was when it never did. */
  predicate LastLoggedOn(es: seq<Event>, c: ClientTuple, before: bool)
    decreases es
  {
    if es == [] then before
    else LastLoggedOn(es[1..], c,
                      if es[0].GetClients? || es[0].client != c then before else es[0].LogOn?)
  }

  /** In every reachable state no client is listed twice, and listed is exactly
      who logged on after it last logged off. */
  lemma {:induction false} LoggedOnIff(ms: seq<ClientTuple>, es: seq<Event>, c: ClientTuple)
    requires NoRepeats(ms)
    ensures NoRepeats(AfterAll(ms, es))
    ensures c in AfterAll(ms, es) <==> LastLoggedOn(es, c, c in ms)
    decreases es
  {
    if es != [] {
      AfterEffect(ms, es[0]);
      LoggedOnIff(After(ms, es[0]), es[1..], c);
    }
  }

  /** The members are exactly the clients that are logged on, each once. */
  ghost predicate AreLoggedOn(ts: seq<ClientTuple>, es: seq<Event>) {
    NoRepeats(ts) && forall x :: x in ts <==> LastLoggedOn(es, x, false)
  }

  lemma MembersAre(es: seq<Event>)
    ensures AreLoggedOn(AfterAll([], es), es)
  {
    forall x ensures x in AfterAll([], es) <==> LastLoggedOn(es, x, false) {
      LoggedOnIff([], es, x);
    }
    LoggedOnIff([], es, ClientTuple(0, 0));
  }

  /** The server's answers, after any run from its start: a client that is logged
      on gets all who are, each once, and as many as are announced. */
  lemma GetClientsReply(es: seq<Event>, c: ClientTuple)
    ensures var reply := ReplyTo(AfterAll([], es), GetClients(c));
      && (reply.Clients? <==> LastLoggedOn(es, c, false)) && (!reply.Clients? ==> reply == NotFound)
      && (reply.Clients? ==> reply.count == |reply.tuples| && AreLoggedOn(reply.tuples, es))
  {
    MembersAre(es);
  }

  lemma LogReplies(es: seq<Event>, c: ClientTuple, net: Network)
    ensures ReplyTo(AfterAll([], es), LogOn(c, net)) == if LastLoggedOn(es, c, false) then Closed else ServerTuple
    ensures ReplyTo(AfterAll([], es), LogOff(c, net)) == if LastLoggedOn(es, c, false) then LoggedOff else NotFound
  {
    MembersAre(es);
  }

  /** Whom the server tells, when every notification arrives: of a new client all
      others, of a client that logs off all others, and of nothing else anybody. */
  lemma ToldWhom(es: seq<Event>, e: Event, x: ClientTuple)
    requires !e.GetClients? ==> forall y :: e.net(y).Arrives?
    ensures x in ToldOf(AfterAll([], es), e) <==>
      && LastLoggedOn(es, x, false) && !e.GetClients? && x != e.client && (e.LogOn? <==> !LastLoggedOn(es, e.client, false))
  {
    var ms := AfterAll([], es);
    MembersAre(es);
    if !e.GetClients? {
      ToldAllIff(ms, e.net);
      ToldAllIff(Without(ms, e.client), e.net);
      WithoutEffect(ms, e.client);
    }
  }

  // ----- the clients' own lists

  /** The list that client `c` makes of the server's: all but itself. */
  function Others(s: seq<ClientTuple>, c: ClientTuple): seq<ClientTuple> {
    if s == [] then [] else (if s[0] == c then [] else [s[0]]) + Others(s[1..], c)
  }

  /** A client's list after an event of which it may have been told. */
  function Viewed(view: seq<ClientTuple>, ms: seq<ClientTuple>, e: Event, c: ClientTuple): seq<ClientTuple> {
    if c !in ToldOf(ms, e) then view
    else match e
      case LogOn(d, _) => view + [d]
      case GetClients(_) => view
      case LogOff(d, _) => Without(view, d)
  }

  lemma {:induction false} OthersMore(s: seq<ClientTuple>, d: ClientTuple, c: ClientTuple)
    ensures Others(s + [d], c) == Others(s, c) + if d == c then [] else [d]
  {
    if s != [] {
      assert (s + [d])[1..] == s[1..] + [d];
      OthersMore(s[1..], d, c);
    }
  }

  lemma {:induction false} OthersWithout(s: seq<ClientTuple>, d: ClientTuple, c: ClientTuple)
    requires d != c
    ensures Others(Without(s, d), c) == Without(Others(s, c), d)
    ensures |Without(Others(s, c), d)| == |Others(s, c)| - if d in s then 1 else 0
  {
    if s != [] {
      var rest := Others(s[1..], c);
      assert [] + rest == rest && ([s[0]] + rest)[1..] == rest;
      if s[0] != d {
        OthersWithout(s[1..], d, c);
        assert ([s[0]] + Without(s[1..], d))[1..] == Without(s[1..], d);
      }
    }
  }

  /** A right list stays right exactly when nothing changes or its client is
      told. */
  lemma StaysRightIff(ms: seq<ClientTuple>, e: Event, c: ClientTuple)
    requires NoRepeats(ms) && c in ms && (e.GetClients? || e.client != c)
    ensures Viewed(Others(ms, c), ms, e, c) == Others(After(ms, e), c) <==> After(ms, e) == ms || c in ToldOf(ms, e)
  {
    match e
    case LogOn(d, _) => OthersMore(ms, d, c);
    case GetClients(_) =>
    case LogOff(d, _) =>
      OthersWithout(ms, d, c);
      if d !in ms { WithoutNone(ms, d); }
  }

  function ViewedAll(view: seq<ClientTuple>, ms: seq<ClientTuple>, es: seq<Event>, c: ClientTuple): seq<ClientTuple>
    decreases es
  {
    if es == [] then view else ViewedAll(Viewed(view, ms, es[0], c), After(ms, es[0]), es[1..], c)
  }

  /** No event of the run is about client `c` itself, and it is told of every
      one that changes the list. */
  predicate Informed(ms: seq<ClientTuple>, es: seq<Event>, c: ClientTuple)
    decreases es
  {
    es != [] ==>
      && (es[0].GetClients? || es[0].client != c)
      && (After(ms, es[0]) == ms || c in ToldOf(ms, es[0]))
      && Informed(After(ms, es[0]), es[1..], c)
  }

  /** From the moment it gets the list, an informed client's own list is the
      server's without itself, in the same order. */
  lemma {:induction false} ListsStayRight(ms: seq<ClientTuple>, es: seq<Event>, c: ClientTuple)
    requires NoRepeats(ms) && c in ms && Informed(ms, es, c)
    ensures ViewedAll(Others(ms, c), ms, es, c) == Others(AfterAll(ms, es), c)
    decreases es
  {
    if es != [] {
      AfterEffect(ms, es[0]);
      StaysRightIff(ms, es[0], c);
      ListsStayRight(After(ms, es[0]), es[1..], c);
    }
  }

  /** Every notification arrives, and none is about client `c` itself. */
  ghost predicate AllArrive(es: seq<Event>, c: ClientTuple) {
    forall i :: 0 <= i < |es| ==>
      es[i].GetClients? || (es[i].client != c && forall x :: es[i].net(x).Arrives?)
  }

  lemma {:induction false} ArrivalsInform(ms: seq<ClientTuple>, es: seq<Event>, c: ClientTuple)
    requires NoRepeats(ms) && c in ms && AllArrive(es, c)
    ensures Informed(ms, es, c)
    decreases es
  {
    if es != [] {
      var e := es[0];
      AfterEffect(ms, e);
      if !e.GetClients? {
        ToldAllIff(ms, e.net);
        ToldAllIff(Without(ms, e.client), e.net);
        WithoutEffect(ms, e.client);
        if e.client !in ms { WithoutNone(ms, e.client); }
      }
      assert forall i :: 0 <= i < |es[1..]| ==> es[1..][i] == es[i + 1];
      ArrivalsInform(After(ms, e), es[1..], c);
    }
  }

  lemma {:induction false} OthersAre(s: seq<ClientTuple>, c: ClientTuple)
    requires NoRepeats(s)
    ensures NoRepeats(Others(s, c)) && forall x :: x in Others(s, c) <==> x in s && x != c
  {
    if s != [] {
      assert forall x :: x in s <==> x == s[0] || x in s[1..];
      OthersAre(s[1..], c);
      assert s[0] !in s[1..];
    }
  }

  lemma {:induction false} RunsJoin(ms: seq<ClientTuple>, es: seq<Event>, more: seq<Event>)
    ensures AfterAll(ms, es + more) == AfterAll(AfterAll(ms, es), more)
    decreases es
  {
    if es == [] {
      assert es + more == more;
    } else {
      assert (es + more)[0] == es[0] && (es + more)[1..] == es[1..] + more;
      RunsJoin(After(ms, es[0]), es[1..], more);
    }
  }

  /** From any run of the server on: a client that is logged on asks for the list,
      drops itself from what it is sent, and is informed from then on. Its list
      then has exactly those who are logged on, each once, but itself. */
  lemma ClientKnowsAll(es: seq<Event>, c: ClientTuple, more: seq<Event>)
    requires LastLoggedOn(es, c, false) && Informed(AfterAll([], es), more, c)
    ensures var reply := ReplyTo(AfterAll([], es), GetClients(c));
      && reply.Clients?
      && var view := ViewedAll(Others(reply.tuples, c), reply.tuples, more, c);
      NoRepeats(view) && forall x :: x in view <==> x != c && LastLoggedOn(es + more, x, false)
  {
    GetClientsReply(es, c);
    MembersAre(es);
    var ms := AfterAll([], es);
    assert ReplyTo(ms, GetClients(c)).tuples == ms;
    ListsStayRight(ms, more, c);
    RunsJoin([], es, more);
    MembersAre(es + more);
    OthersAre(AfterAll([], es + more), c);
  }
}
