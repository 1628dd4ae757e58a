/** What a mirror becomes when it is not empty: sending the same tree again
    changes nothing, and what is behind the end of a shorter file stays. */
module Resends {
  import opened Words
  import opened Wire
  import opened Forests

  /** All directories on the way to `p`, and `p` itself, are there. */
  predicate Reachable(fs: Files, p: Path) {
    forall k :: 0 < k <= |p| ==> p[..k] in fs && fs[p[..k]] == Directory
  }

  lemma {:induction false} MkdirAllAgain(fs: Files, p: Path, k: nat)
    requires k <= |p| && forall j :: 0 < j <= k ==> p[..j] in fs
    ensures MkdirAll(fs, p, k) == fs
  {
    if k > 0 {
      MkdirAllAgain(fs, p, k - 1);
    }
  }

  lemma ReachableMore(fs: Files, p: Path, n: Name)
    requires Reachable(fs, p) && p + [n] in fs && fs[p + [n]] == Directory
    ensures Reachable(fs, p + [n])
  {
    var q := p + [n];
    forall k | 0 < k <= |q| ensures q[..k] in fs && fs[q[..k]] == Directory {
      assert k <= |p| ==> q[..k] == p[..k];
      assert k == |q| ==> q[..k] == q;
    }
  }

  lemma OnWayTo(fs: Files, p: Path, n: Name)
    requires Reachable(fs, p)
    ensures MkdirAll(fs, p + [n], |p|) == fs
    ensures p + [n] in fs ==> MkdirAll(fs, p + [n], |p| + 1) == fs
  {
    var q := p + [n];
    assert forall j :: 0 < j <= |p| ==> q[..j] == p[..j];
    MkdirAllAgain(fs, q, |p|);
    assert q[..|q|] == q;
    if q in fs {
      MkdirAllAgain(fs, q, |q|);
    }
  }

  /** A file that exists is written from its start: a shorter one leaves what lies
      behind its end. */
  lemma FileOverFile(fs: Files, p: Path, n: Name, was: seq<Byte>, data: seq<Byte>)
    requires ProperPath(p + [n]) && Reachable(fs, p) && p + [n] in fs && fs[p + [n]] == Contents(was)
    ensures Receivable(Record(Join(p + [n]), data))
    ensures Received(fs, Record(Join(p + [n]), data)) ==
      (fs[p + [n] := Contents(if |was| <= |data| then data else data + was[|data|..])], true)
  {
    ReceivedPath(fs, p + [n], data);
    OnWayTo(fs, p, n);
    assert data + [] == data;
    assert |was| == |data| ==> was[|data|..] == [];
  }

  /** A file cannot take a directory's place: the transfer stops. */
  lemma FileOverDirectory(fs: Files, p: Path, n: Name, data: seq<Byte>)
    requires ProperPath(p + [n]) && Reachable(fs, p) && p + [n] in fs && fs[p + [n]] == Directory
    ensures Receivable(Record(Join(p + [n]), data))
    ensures Received(fs, Record(Join(p + [n]), data)) == (fs, false)
  {
    ReceivedPath(fs, p + [n], data);
    OnWayTo(fs, p, n);
  }

  /** Nor can a file be made in a file's place as if it were a directory. */
  lemma FileAsDirectory(fs: Files, p: Path, n: Name, data: seq<Byte>)
    requires ProperPath(p + [n]) && p != [] && (forall k :: 0 < k <= |p| ==> p[..k] in fs) && p in fs && fs[p].Contents?
    requires p + [n] !in fs
    ensures Receivable(Record(Join(p + [n]), data))
    ensures Received(fs, Record(Join(p + [n]), data)) == (fs, false)
  {
    var q := p + [n];
    ReceivedPath(fs, q, data);
    assert forall j :: 0 < j <= |p| ==> q[..j] == p[..j];
    MkdirAllAgain(fs, q, |p|);
    assert q[..|p|] == p;
  }

  /** Nothing behind such a record is received. */
  lemma {:induction false} StopsThere(fs: Files, a: seq<Record>, b: seq<Record>)
    requires AllReceivable(a) && AllReceivable(a + b) && !ReceivedAll(fs, a).1
    ensures ReceivedAll(fs, a + b) == ReceivedAll(fs, a)
    decreases a
  {
    assert Receivable(a[0]);
    assert (a + b)[0] == a[0] && (a + b)[1..] == a[1..] + b;
    if Received(fs, a[0]).1 {
      StopsThere(Received(fs, a[0]).0, a[1..], b);
    }
  }

  ghost predicate Has(fs: Files, part: Files) {
    forall q :: q in part ==> q in fs && fs[q] == part[q]
  }

  lemma FileAgain(fs: Files, p: Path, n: Name, data: seq<Byte>)
    requires ProperPath(p + [n]) && Reachable(fs, p) && p + [n] in fs && fs[p + [n]] == Contents(data)
    ensures Receivable(Record(Join(p + [n]), data)) && ReceivedAll(fs, [Record(Join(p + [n]), data)]) == (fs, true)
  {
    FileOverFile(fs, p, n, data, data);
    ReceivedOne(fs, Record(Join(p + [n]), data));
    assert fs[p + [n] := Contents(data)] == fs;
  }

  lemma DirectoryAgain(fs: Files, p: Path, n: Name)
    requires ProperPath(p + [n]) && Reachable(fs, p) && p + [n] in fs
    ensures var r := Record(Join(p + [n]) + [SLASH], []); Receivable(r) && ReceivedAll(fs, [r]) == (fs, true)
  {
    var r := Record(Join(p + [n]) + [SLASH], []);
    ReceivedPath(fs, p + [n], []);
    OnWayTo(fs, p, n);
    ReceivedOne(fs, r);
  }

  lemma {:induction false} EntryAgain(fs: Files, p: Path, e: Entry)
    requires ProperPath(p) && WellFormed([e]) && Reachable(fs, p) && Has(fs, FilesOfEntry(p + [e.name], e.node))
    ensures var rs := FlattenEntry(Under(Join(p), e.name), e.node); AllReceivable(rs) && ReceivedAll(fs, rs) == (fs, true)
    decreases e, 0
  {
    var q := p + [e.name];
    JoinMore(p, e.name);
    match e.node
    case File(data) =>
      assert q in FilesOfEntry(q, e.node);
      FileAgain(fs, p, e.name, data);
    case Dir(entries) =>
      FilesOfBelow(q, entries);
      assert q !in FilesOf(q, entries);
      assert q in FilesOfEntry(q, e.node) && FilesOfEntry(q, e.node)[q] == Directory;
      if entries == [] {
        DirectoryAgain(fs, p, e.name);
      } else {
        ReachableMore(fs, p, e.name);
        assert Has(fs, FilesOf(q, entries)) by {
          forall x | x in FilesOf(q, entries) ensures x in fs && fs[x] == FilesOf(q, entries)[x] {
            assert x in FilesOfEntry(q, e.node);
          }
        }
        TreeAgain(fs, q, entries);
      }
  }

  lemma {:induction false} TreeAgain(fs: Files, p: Path, es: seq<Entry>)
    requires ProperPath(p) && WellFormed(es) && Reachable(fs, p) && Has(fs, FilesOf(p, es))
    ensures var rs := Flatten(Join(p), es); AllReceivable(rs) && ReceivedAll(fs, rs) == (fs, true)
    decreases es, 1
  {
    if es != [] {
      var e, rest := es[0], es[1..];
      FilesOfEntryBelow(p, e.name, e.node);
      FilesOfBelow(p, rest);
      EntryAgain(fs, p, e);
      TreeAgain(fs, p, rest);
      ReceivedConcat(fs, FlattenEntry(Under(Join(p), e.name), e.node), Flatten(Join(p), rest));
    }
  }

  /** Sending a tree to the mirror that already has it changes nothing. */
  lemma SentTwice(es: seq<Entry>)
    requires WellFormed(es)
    ensures var rs := Flatten([], es); AllReceivable(rs) && ReceivedAll(FilesOf([], es), rs) == (FilesOf([], es), true)
  {
    assert Join([]) == [];
    TreeAgain(FilesOf([], es), [], es);
  }
}
