/** The doubly linked list of clients, which the server and every client keep. */
module ClientLists {
  datatype ClientTuple = ClientTuple(ipAddress: int, portNum: int)

  /** The list without the first occurrence of a client. */
  function Without(s: seq<ClientTuple>, c: ClientTuple): seq<ClientTuple> {
    if s == [] then [] else if s[0] == c then s[1..] else [s[0]] + Without(s[1..], c)
  }

  lemma {:induction false} WithoutFirst(s: seq<ClientTuple>, c: ClientTuple, i: nat)
    requires i < |s| && s[i] == c && forall k :: 0 <= k < i ==> s[k] != c
    ensures Without(s, c) == s[..i] + s[i + 1..]
  {
    if i > 0 {
      WithoutFirst(s[1..], c, i - 1);
      assert s[..i] == [s[0]] + s[1..][..i - 1] && s[i + 1..] == s[1..][i..];
    }
  }

  lemma {:induction false} WithoutNone(s: seq<ClientTuple>, c: ClientTuple)
    requires c !in s
    ensures Without(s, c) == s
  {
    if s != [] {
      WithoutNone(s[1..], c);
    }
  }

  class ClientNode {
    const thisTuple: ClientTuple
    var next: ClientNode?
    var previous: ClientNode?

    constructor (ct: ClientTuple, prev: ClientNode?)
      ensures thisTuple == ct && next == null && previous == prev
    {
      thisTuple, next, previous := ct, null, prev;
    }
  }

  class ClientList {
    var list: ClientNode?
    ghost var nodes: seq<ClientNode>

    ghost function Repr(): set<ClientNode>
      reads this
    {
      set n | n in nodes
    }

    /** The head, next and previous link exactly the nodes, in order. */
    ghost predicate Valid()
      reads this, Repr()
    {
      && list == (if nodes == [] then null else nodes[0])
      && (forall i {:trigger nodes[i].previous} ::
            0 <= i < |nodes| ==> nodes[i].previous == if i == 0 then null else nodes[i - 1])
      && (forall i {:trigger nodes[i].next} ::
            0 <= i < |nodes| ==> nodes[i].next == if i == |nodes| - 1 then null else nodes[i + 1])
      && (forall i, j :: 0 <= i < j < |nodes| ==> nodes[i] != nodes[j])
    }

    ghost function Contents(): (s: seq<ClientTuple>)
      reads this
      ensures |s| == |nodes|
    {
      seq(|nodes|, i requires 0 <= i < |nodes| reads this => nodes[i].thisTuple)
    }

    constructor ()
      ensures Valid() && Contents() == [] && nodes == []
    {
      list, nodes := null, [];
    }

    method In(ct: ClientTuple) returns (found: bool)
      requires Valid()
      ensures found <==> ct in Contents()
    {
      var curr := list;
      if curr == null { return false; }
      ghost var i := 0;
      while curr.next != null
        invariant 0 <= i < |nodes| && curr == nodes[i]
        invariant forall k :: 0 <= k < i ==> Contents()[k] != ct
        decreases |nodes| - i
      {
        assert Contents()[i] == curr.thisTuple;
        if ct == curr.thisTuple { return true; }
        curr := curr.next;
        i := i + 1;
      }
      assert Contents()[i] == curr.thisTuple;
      found := ct == curr.thisTuple;
    }

    method Add(ct: ClientTuple)
      requires Valid()
      modifies this, Repr()
      ensures Valid() && Contents() == old(Contents()) + [ct]
      ensures forall n :: n in Repr() ==> n in old(Repr()) || fresh(n)
    {
      var curr := list;
      if curr == null {
        curr := new ClientNode(ct, null);
        list, nodes := curr, [curr];
        return;
      }
      ghost var i := 0;
      while curr.next != null
        invariant 0 <= i < |nodes| && curr == nodes[i]
        decreases |nodes| - i
      {
        curr := curr.next;
        i := i + 1;
      }
      var node := new ClientNode(ct, curr);
      curr.next := node;
      nodes := nodes + [node];
      assert Contents() == old(Contents()) + [ct];
    }

    /** Takes a node out of the list. */
    method Unlink(curr: ClientNode, ghost i: nat)
      requires Valid() && i < |nodes| && nodes[i] == curr
      modifies this, Repr()
      ensures Valid() && nodes == old(nodes)[..i] + old(nodes)[i + 1..]
    {
      ghost var n := nodes;
      if curr.next != null {
        curr.next.previous := curr.previous;
      }
      if curr.previous != null {
        curr.previous.next := curr.next;
      }
      if curr == list {
        list := curr.next;
      }
      assert n[i].next == (if i == |n| - 1 then null else n[i + 1]) && n[i].previous == (if i == 0 then null else n[i - 1]);
      nodes := n[..i] + n[i + 1..];
      forall k | 0 <= k < |nodes|
        ensures nodes[k].previous == (if k == 0 then null else nodes[k - 1])
             && nodes[k].next == (if k == |nodes| - 1 then null else nodes[k + 1])
      {
        var j := if k < i then k else k + 1;
        assert nodes[k] == n[j];
        assert j != i + 1 ==> n[j].previous == old(n[j].previous);
        assert j != i - 1 ==> n[j].next == old(n[j].next);
      }
    }

    /** Deletes the first node of a client, if there is one. */
    method Delete(ct: ClientTuple)
      requires Valid()
      modifies this, Repr()
      ensures Valid() && Contents() == Without(old(Contents()), ct)
      ensures forall n :: n in Repr() ==> n in old(Repr())
    {
      var curr := list;
      if curr == null { return; }
      ghost var i := 0;
      ghost var s := Contents();
      while curr.next != null
        invariant 0 <= i < |nodes| && curr == nodes[i] && nodes == old(nodes) && Valid() && list == old(list)
        invariant Contents() == s && forall k :: 0 <= k < i ==> s[k] != ct
        decreases |nodes| - i
      {
        assert s[i] == curr.thisTuple;
        if curr.thisTuple == ct {
          WithoutFirst(s, ct, i);
          Unlink(curr, i);
          assert Contents() == s[..i] + s[i + 1..];
          return;
        }
        curr := curr.next;
        i := i + 1;
      }
      assert s[i] == curr.thisTuple;
      if curr.thisTuple == ct {
        WithoutFirst(s, ct, i);
        Unlink(curr, i);
        assert Contents() == s[..i] + s[i + 1..];
      } else {
        WithoutNone(s, ct);
      }
    }
  }
}
