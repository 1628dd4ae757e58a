/** Looking a path up in a directory tree, name by name: what this finds is what
    is sent, and what the mirror has. */
module Lookups {
  import opened Words
  import opened Wire
  import opened Forests

  /** What a path leads to. */
  function At(es: seq<Entry>, q: Path): Option<Node>
    decreases es
  {
    if es == [] || q == [] then None
    else if es[0].name != q[0] then At(es[1..], q)
    else if |q| == 1 then Some(es[0].node)
    else match es[0].node
      case File(_) => None
      case Dir(entries) => At(entries, q[1..])
  }

  lemma {:induction false} NotNamed(es: seq<Entry>, q: Path)
    requires q != [] && !Named(es, q[0])
    ensures At(es, q) == None
  {
    if es != [] {
      assert es[0].name != q[0];
      forall i | 0 <= i < |es[1..]| ensures es[1..][i].name != q[0] {
        assert es[i + 1].name != q[0];
      }
      NotNamed(es[1..], q);
    }
  }

  // ----- the paths of a tree

  function ItemOf(node: Node): Item {
    if node.File? then Contents(node.data) else Directory
  }

  ghost predicate Holds(fs: Files, p: Path, q: Path, found: Option<Node>) {
    if found.None? then p + q !in fs else p + q in fs && fs[p + q] == ItemOf(found.value)
  }

  lemma BelowName(p: Path, n: Name, q: Path)
    requires q != []
    ensures q[0] == n ==> p + q == p + [n] + q[1..]
    ensures Below(p + q, p) && (p + q)[|p|] == q[0]
  {
  }

  lemma HoldsFirst(p: Path, e: Entry, q: Path)
    requires WellFormed([e]) && q != [] && q[0] == e.name
    requires e.node.Dir? && |q| > 1 ==>
      Holds(FilesOf(p + [e.name], e.node.entries), p + [e.name], q[1..], At(e.node.entries, q[1..]))
    ensures Holds(FilesOfEntry(p + [e.name], e.node), p, q, At([e], q))
  {
    BelowName(p, e.name, q);
    assert |q| == 1 <==> p + q == p + [e.name];
    if e.node.Dir? && |q| == 1 {
      FilesOfBelow(p + [e.name], e.node.entries);
    }
  }

  /** A tree has exactly the paths that lead somewhere in it, with what they lead
      to. */
  lemma {:induction false} FilesAre(p: Path, es: seq<Entry>, q: Path)
    requires WellFormed(es)
    ensures Holds(FilesOf(p, es), p, q, At(es, q))
    decreases es
  {
    if q == [] {
      FilesOfBelow(p, es);
      assert p + q == p;
    } else if es != [] {
      var e, rest := es[0], es[1..];
      FilesAre(p, rest, q);
      BelowName(p, e.name, q);
      FilesOfBelow(p, rest);
      FilesOfEntryBelow(p, e.name, e.node);
      if q[0] == e.name {
        if e.node.Dir? && |q| > 1 {
          FilesAre(p + [e.name], e.node.entries, q[1..]);
        }
        HoldsFirst(p, e, q);
      }
    }
  }

  // ----- the records of a tree

  /** The text of a path: its names with a slash between two of them. */
  lemma JoinIs(p: Path, n: Name)
    requires ProperPath(p)
    ensures Join([]) == [] && Join(p + [n]) == if p == [] then n else Join(p) + [47] + n
  {
    JoinMore(p, n);
    TokensOfJoin(p);
  }

  predicate IsSent(node: Node) {
    node.File? || node.entries == []
  }

  function RecordOf(path: seq<Byte>, node: Node): Record {
    if node.File? then Record(path, node.data) else Record(path + [47], [])
  }

  /** Record `r` is sent for what is at `q`: a file, or an empty directory. */
  ghost predicate SentFor(es: seq<Entry>, p: Path, q: Path, r: Record) {
    At(es, q).Some? && IsSent(At(es, q).value) && r == RecordOf(Join(p + q), At(es, q).value)
  }

  lemma AtName(es: seq<Entry>, p: Path, r: Record)
    requires es != [] && IsSent(es[0].node) && r == RecordOf(Join(p + [es[0].name]), es[0].node)
    ensures SentFor(es, p, [es[0].name], r)
  {
  }

  lemma SentForFirst(p: Path, es: seq<Entry>, r: Record)
    requires es != [] && WellFormed(es) && ProperPath(p)
    requires es[0].node.Dir? ==>
      (r in Flatten(Join(p + [es[0].name]), es[0].node.entries) <==>
        exists q :: SentFor(es[0].node.entries, p + [es[0].name], q, r))
    ensures r in FlattenEntry(Under(Join(p), es[0].name), es[0].node) <==>
      exists q :: q != [] && q[0] == es[0].name && SentFor(es, p, q, r)
  {
    var e, n := es[0], p + [es[0].name];
    JoinMore(p, e.name);
    var all := FlattenEntry(Under(Join(p), e.name), e.node);
    if r in all {
      if e.node.Dir? && e.node.entries != [] {
        var q :| SentFor(e.node.entries, n, q, r);
        BelowName(p, e.name, [e.name] + q);
        assert ([e.name] + q)[1..] == q;
        assert SentFor(es, p, [e.name] + q, r);
      } else {
        AtName(es, p, r);
      }
    }
    forall q | q != [] && q[0] == e.name && SentFor(es, p, q, r) ensures r in all {
      BelowName(p, e.name, q);
      assert |q| == 1 ==> p + q == n;
      assert |q| > 1 ==> SentFor(e.node.entries, n, q[1..], r);
    }
  }

  /** Exactly the files and the empty directories are sent, each under its path. */
  lemma {:induction false} RecordsAre(p: Path, es: seq<Entry>, r: Record)
    requires WellFormed(es) && ProperPath(p)
    ensures r in Flatten(Join(p), es) <==> exists q :: SentFor(es, p, q, r)
    decreases es
  {
    if es != [] {
      var e, rest := es[0], es[1..];
      RecordsAre(p, rest, r);
      if e.node.Dir? {
        RecordsAre(p + [e.name], e.node.entries, r);
      }
      SentForFirst(p, es, r);
      forall q | SentFor(rest, p, q, r) ensures SentFor(es, p, q, r) {
        if q[0] == e.name { NotNamed(rest, q); }
      }
      assert forall q :: SentFor(es, p, q, r) && q[0] != e.name ==> SentFor(rest, p, q, r);
    }
  }
}
