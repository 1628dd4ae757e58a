/** Freeing a transaction tree without a stack: the walk unlinks and frees one
    leaf at a time. */
module FreeTrees {
  import opened Layouts

  /** Children before parents, left before right. */
  ghost function PostOrder(l: Layout): seq<TransTree> {
    match l
    case Leaf(n) => [n]
    case One(n, r) => PostOrder(r) + [n]
    case Two(n, a, r) => PostOrder(a) + PostOrder(r) + [n]
  }

  /** `s` has exactly these nodes, each once. */
  ghost predicate Once(s: seq<TransTree>, nodes: set<TransTree>) {
    && (forall n :: n in s ==> n in nodes) && (forall n :: n in nodes ==> n in s)
    && (forall i, j :: 0 <= i < j < |s| ==> s[i] != s[j])
  }

  lemma OnceBoth(s: seq<TransTree>, a: set<TransTree>, t: seq<TransTree>, b: set<TransTree>)
    requires Once(s, a) && Once(t, b) && a !! b
    ensures Once(s + t, a + b)
  {
    var u := s + t;
    forall i, j | 0 <= i < j < |u| ensures u[i] != u[j] {
      if i < |s| && |s| <= j {
        assert u[i] in s && u[j] in t;
      }
    }
  }

  /** The order frees every node of the tree exactly once. */
  lemma {:induction false} PostOrderOnce(l: Layout, p: TransTree?)
    requires Linked(l, p)
    ensures Once(PostOrder(l), Nodes(l))
  {
    match l
    case Leaf(_) =>
    case One(n, r) =>
      PostOrderOnce(r, n);
      OnceBoth(PostOrder(r), Nodes(r), [n], {n});
      assert Nodes(r) + {n} == Nodes(l);
    case Two(n, a, r) =>
      PostOrderOnce(a, n);
      PostOrderOnce(r, n);
      OnceBoth(PostOrder(a), Nodes(a), PostOrder(r), Nodes(r));
      OnceBoth(PostOrder(a) + PostOrder(r), Nodes(a) + Nodes(r), [n], {n});
      assert Nodes(a) + Nodes(r) + {n} == Nodes(l);
  }

  /** Those elements of `s` that are among `nodes`. */
  ghost function Among(s: seq<TransTree>, nodes: set<TransTree>): seq<TransTree> {
    if s == [] then [] else (if s[0] in nodes then [s[0]] else []) + Among(s[1..], nodes)
  }

  lemma ThreeJoined(a: seq<TransTree>, b: seq<TransTree>, c: seq<TransTree>)
    ensures a + (b + c) == a + b + c
  {
  }

  lemma {:induction false} AmongBoth(s: seq<TransTree>, t: seq<TransTree>, nodes: set<TransTree>)
    ensures Among(s + t, nodes) == Among(s, nodes) + Among(t, nodes)
  {
    if s == [] {
      assert s + t == t;
    } else {
      assert (s + t)[1..] == s[1..] + t;
      AmongBoth(s[1..], t, nodes);
      ThreeJoined(if s[0] in nodes then [s[0]] else [], Among(s[1..], nodes), Among(t, nodes));
    }
  }

  lemma {:induction false} LeavesAreNodes(l: Layout)
    ensures forall n :: n in LeafNodes(l) ==> n in Nodes(l)
  {
    match l
    case Leaf(_) =>
    case One(_, r) => LeavesAreNodes(r);
    case Two(_, a, r) =>
      LeavesAreNodes(a);
      LeavesAreNodes(r);
  }

  /** The leaves are freed from left to right. */
  lemma {:induction false} LeavesInOrder(l: Layout, p: TransTree?, leaves: set<TransTree>)
    requires Linked(l, p) && forall n :: n in Nodes(l) ==> (n in leaves <==> n in LeafNodes(l))
    ensures Among(PostOrder(l), leaves) == LeafNodes(l)
  {
    LeavesAreNodes(l);
    match l
    case Leaf(_) =>
    case One(n, r) =>
      LeavesAreNodes(r);
      LeavesInOrder(r, n, leaves);
      AmongBoth(PostOrder(r), [n], leaves);
    case Two(n, a, r) =>
      LeavesAreNodes(a);
      LeavesAreNodes(r);
      LeavesInOrder(a, n, leaves);
      LeavesInOrder(r, n, leaves);
      AmongBoth(PostOrder(a), PostOrder(r), leaves);
      AmongBoth(PostOrder(a) + PostOrder(r), [n], leaves);
  }

  /** Every node but the root is freed before its parent. */
  lemma {:induction false} PostOrderChildrenFirst(l: Layout, p: TransTree?, i: nat)
    requires Linked(l, p) && i < |PostOrder(l)|
    ensures i == |PostOrder(l)| - 1 ==> PostOrder(l)[i] == l.node
    ensures i < |PostOrder(l)| - 1 ==> exists j :: i < j < |PostOrder(l)| && PostOrder(l)[j] == PostOrder(l)[i].parent
  {
    match l
    case Leaf(_) =>
    case One(n, r) =>
      var s := PostOrder(r);
      assert PostOrder(l)[|s|] == n;
      if i < |s| {
        PostOrderChildrenFirst(r, n, i);
        if i < |s| - 1 {
          var j :| i < j < |s| && s[j] == s[i].parent;
          assert PostOrder(l)[j] == s[j];
        }
      }
    case Two(n, a, r) =>
      var s, t := PostOrder(a), PostOrder(r);
      assert PostOrder(l)[|s| + |t|] == n;
      if i < |s| {
        PostOrderChildrenFirst(a, n, i);
        if i < |s| - 1 {
          var j :| i < j < |s| && s[j] == s[i].parent;
          assert PostOrder(l)[j] == s[j];
        }
      } else if i < |s| + |t| {
        PostOrderChildrenFirst(r, n, i - |s|);
        if i - |s| < |t| - 1 {
          var j :| i - |s| < j < |t| && t[j] == t[i - |s|].parent;
          assert PostOrder(l)[|s| + j] == t[j];
        }
      }
  }

  /** What the walk still frees after the subtree in the hole. */
  ghost function Pending(c: Context): seq<TransTree> {
    match c
    case Top => []
    case InLeft(p, r, up) => PostOrder(r) + [p] + Pending(up)
    case InOnly(p, up) => [p] + Pending(up)
    case InRight(p, _, up) => [p] + Pending(up)
  }

  /** Nothing hangs to the left of the walk: it has been freed. */
  ghost predicate LeftFreed(c: Context) {
    match c
    case Top => true
    case InLeft(_, _, up) => LeftFreed(up)
    case InOnly(_, up) => LeftFreed(up)
    case InRight(_, _, _) => false
  }

  ghost predicate OnCourse(whole: Layout, l: Layout, c: Context, freed: seq<TransTree>) {
    freed + PostOrder(l) + Pending(c) == PostOrder(whole)
  }

  /** What hangs at the hole's parent when the hole's leaf is gone. */
  ghost function WithoutChild(c: Context): Layout
    requires !c.Top?
  {
    if c.InLeft? then One(c.parent, c.right) else Leaf(c.parent)
  }

  lemma FreeLeaf(whole: Layout, n: TransTree, c: Context, freed: seq<TransTree>)
    requires OnCourse(whole, Leaf(n), c, freed) && !c.Top? && LeftFreed(c)
    ensures OnCourse(whole, WithoutChild(c), c.up, freed + [n])
    ensures |freed| < |PostOrder(whole)|
  {
    if c.InLeft? {
      assert freed + PostOrder(Leaf(n)) + Pending(c)
          == freed + [n] + (PostOrder(c.right) + [c.parent]) + Pending(c.up);
    }
  }

  lemma GoDown(whole: Layout, l: Layout, c: Context, freed: seq<TransTree>)
    requires OnCourse(whole, l, c, freed)
    ensures l.Two? ==> OnCourse(whole, l.left, InLeft(l.node, l.right, c), freed)
    ensures l.One? ==> OnCourse(whole, l.right, InOnly(l.node, c), freed)
  {
    if l.Two? {
      assert freed + PostOrder(l) + Pending(c)
          == freed + PostOrder(l.left) + (PostOrder(l.right) + [l.node] + Pending(c));
    }
  }

  /** What the walk does to nodes: reads or writes a field of one, or frees it. */
  datatype Event = Used(node: TransTree) | Freed(node: TransTree)

  ghost function FreedIn(trace: seq<Event>): seq<TransTree> {
    if trace == [] then []
    else FreedIn(trace[..|trace| - 1]) + if trace[|trace| - 1].Freed? then [trace[|trace| - 1].node] else []
  }

  /** No event concerns a node that has been freed before it. */
  ghost predicate NoUseAfterFree(trace: seq<Event>) {
    trace != [] ==>
      var before := trace[..|trace| - 1];
      NoUseAfterFree(before) && trace[|trace| - 1].node !in FreedIn(before)
  }

  lemma {:induction false} FreedInListed(trace: seq<Event>, i: nat)
    requires i < |trace| && trace[i].Freed?
    ensures trace[i].node in FreedIn(trace)
  {
    if i < |trace| - 1 {
      FreedInListed(trace[..|trace| - 1], i);
    }
  }

  /** Whatever comes after a node has been freed concerns another node. */
  lemma {:induction false} NothingAfterFree(trace: seq<Event>, i: nat, j: nat)
    requires NoUseAfterFree(trace) && i < j < |trace| && trace[i].Freed?
    ensures trace[j].node != trace[i].node
  {
    var before := trace[..|trace| - 1];
    assert before[i] == trace[i];
    if j < |before| {
      NothingAfterFree(before, i, j);
    } else {
      FreedInListed(before, i);
    }
  }

  /** The trace of a walk that has freed these nodes. */
  ghost predicate Traced(trace: seq<Event>, freed: seq<TransTree>) {
    FreedIn(trace) == freed && NoUseAfterFree(trace)
  }

  lemma OneMoreEvent(trace: seq<Event>, freed: seq<TransTree>, e: Event)
    requires Traced(trace, freed) && e.node !in freed
    ensures Traced(trace + [e], freed + if e.Freed? then [e.node] else [])
  {
    assert (trace + [e])[..|trace|] == trace;
  }

  lemma OneMoreUse(trace: seq<Event>, freed: seq<TransTree>, n: TransTree)
    requires Traced(trace, freed) && n !in freed
    ensures Traced(trace + [Used(n)], freed)
  {
    OneMoreEvent(trace, freed, Used(n));
    assert freed + [] == freed;
  }

  /** Takes a leaf off its parent. */
  method Unlink(node: TransTree, tmpParent: TransTree, ghost c: Context)
    requires Standing(Leaf(node), c) && !c.Top? && LeftFreed(c) && tmpParent == c.parent
    modifies tmpParent
    ensures Standing(WithoutChild(c), c.up)
  {
    if tmpParent.right == node {
      tmpParent.right := null;
    } else {
      tmpParent.left := null;
    }
  }

  /** `trace` records every use of a node and every call of free: the nodes are
      freed in post-order, and none is used or freed after it has been freed. */
  method FreeTree(root: TransTree, ghost layout: Layout) returns (ghost trace: seq<Event>)
    requires layout.node == root && Linked(layout, null)
    modifies Nodes(layout)
    ensures FreedIn(trace) == PostOrder(layout) && NoUseAfterFree(trace)
  {
    trace := [];
    ghost var freed: seq<TransTree> := [];
    var node, tmpParent: TransTree? := root, null;
    ghost var focus, c := layout, Top;
    while true
      invariant Standing(focus, c) && LeftFreed(c) && node == focus.node && tmpParent == HoleParent(c)
      invariant Nodes(focus) + ContextNodes(c) <= Nodes(layout)
      invariant OnCourse(layout, focus, c, freed) && Traced(trace, freed)
      invariant forall n :: n in freed ==> n !in Nodes(focus) && n !in ContextNodes(c)
      decreases |PostOrder(layout)| - |freed|, Size(focus)
    {
      OneMoreUse(trace, freed, node);
      trace := trace + [Used(node)];
      if node.left != null {
        node := node.left;
        OneMoreUse(trace, freed, node);
        trace := trace + [Used(node)];
        tmpParent := node.parent;
        GoDown(layout, focus, c, freed);
        c, focus := InLeft(focus.node, focus.right, c), focus.left;
      } else if node.right != null {
        node := node.right;
        OneMoreUse(trace, freed, node);
        trace := trace + [Used(node)];
        tmpParent := node.parent;
        GoDown(layout, focus, c, freed);
        c, focus := InOnly(focus.node, c), focus.right;
      } else {
        if tmpParent == null {
          OneMoreEvent(trace, freed, Freed(node));
          trace := trace + [Freed(node)];
          return;
        }
        FreeLeaf(layout, node, c, freed);
        OneMoreUse(trace, freed, tmpParent);
        trace := trace + [Used(tmpParent)];
        Unlink(node, tmpParent, c);
        OneMoreEvent(trace, freed, Freed(node));
        trace, freed := trace + [Freed(node)], freed + [node];
        focus, c := WithoutChild(c), c.up;
        node := tmpParent;
        OneMoreUse(trace, freed, node);
        trace := trace + [Used(node)];
        tmpParent := node.parent;
      }
    }
  }
}
