/** What becomes of files whose size does not fit the record. */
module LargeFiles {
  import opened Words
  import opened Wire
  import opened Forests
  import opened Lookups

  // ----- files that are too large

  /** The tree with the part of each file that is sent: its size is truncated. */
  function CutAll(es: seq<Entry>): seq<Entry>
    decreases es
  {
    if es == [] then [] else [Entry(es[0].name, Cut(es[0].node))] + CutAll(es[1..])
  }

  function Cut(node: Node): Node
    decreases node
  {
    match node
    case File(data) => File(data[..|data| % 0x1_0000_0000])
    case Dir(entries) => Dir(CutAll(entries))
  }

  lemma {:induction false} CutNames(es: seq<Entry>)
    ensures |CutAll(es)| == |es|
    ensures forall i :: 0 <= i < |es| ==> CutAll(es)[i].name == es[i].name
    ensures forall n :: Named(CutAll(es), n) <==> Named(es, n)
  {
    if es != [] {
      CutNames(es[1..]);
    }
  }

  lemma {:induction false} CutWellFormed(es: seq<Entry>)
    requires WellFormed(es)
    ensures WellFormed(CutAll(es))
    decreases es
  {
    if es != [] {
      CutNames(es[1..]);
      CutWellFormed(es[1..]);
      if es[0].node.Dir? {
        CutWellFormed(es[0].node.entries);
      }
      var c := CutAll(es);
      assert c[1..] == CutAll(es[1..]);
    }
  }

  /** The same bytes are sent for the tree and for what is left of it, and those
      are the records that a receiver gets. */
  lemma {:induction false} CutSendsSame(dir: seq<Byte>, es: seq<Entry>)
    requires forall r :: r in Flatten(dir, es) ==> |r.path| < 0x1_0000
    ensures EncodeAll(Flatten(dir, CutAll(es))) == EncodeAll(Flatten(dir, es))
    ensures forall r :: r in Flatten(dir, CutAll(es)) ==> |r.path| < 0x1_0000 && |r.data| < 0x1_0000_0000
    decreases es, 1
  {
    if es != [] {
      var e, c := es[0], CutAll(es);
      assert c[1..] == CutAll(es[1..]);
      CutEntrySendsSame(Under(dir, e.name), e.node);
      CutSendsSame(dir, es[1..]);
      EncodeAllConcat(FlattenEntry(Under(dir, e.name), e.node), Flatten(dir, es[1..]));
      EncodeAllConcat(FlattenEntry(Under(dir, e.name), Cut(e.node)), Flatten(dir, CutAll(es[1..])));
    }
  }

  lemma SentAgain(r: Record)
    requires |r.path| < 0x1_0000
    ensures var c := Record(r.path, r.data[..|r.data| % 0x1_0000_0000]); EncodeAll([c]) == EncodeAll([r]) && |c.data| < 0x1_0000_0000
  {
    var c := Record(r.path, r.data[..|r.data| % 0x1_0000_0000]);
    assert Sent(c) == Sent(r);
  }

  lemma {:induction false} CutEntrySendsSame(path: seq<Byte>, node: Node)
    requires forall r :: r in FlattenEntry(path, node) ==> |r.path| < 0x1_0000
    ensures EncodeAll(FlattenEntry(path, Cut(node))) == EncodeAll(FlattenEntry(path, node))
    ensures forall r :: r in FlattenEntry(path, Cut(node)) ==> |r.path| < 0x1_0000 && |r.data| < 0x1_0000_0000
    decreases node, 0
  {
    match node
    case File(data) =>
      assert Record(path, data) in FlattenEntry(path, node);
      SentAgain(Record(path, data));
    case Dir(entries) =>
      CutNames(entries);
      if entries == [] {
        assert Record(path + [SLASH], []) in FlattenEntry(path, node);
      } else {
        CutSendsSame(path, entries);
      }
  }

  // ----- which trees lose nothing

  predicate Small(node: Node)
    decreases node
  {
    match node
    case File(data) => |data| < 0x1_0000_0000
    case Dir(entries) => AllSmall(entries)
  }

  predicate AllSmall(es: seq<Entry>)
    decreases es
  {
    es != [] ==> Small(es[0].node) && AllSmall(es[1..])
  }

  lemma {:induction false} CutNothing(es: seq<Entry>)
    requires AllSmall(es)
    ensures CutAll(es) == es
    decreases es
  {
    if es != [] {
      var e := es[0];
      CutNothing(es[1..]);
      match e.node {
        case File(data) => assert data[..|data|] == data;
        case Dir(entries) => CutNothing(entries);
      }
      assert Entry(e.name, Cut(e.node)) == e && es == [e] + es[1..];
    }
  }

  /** The files of the first entry and those of the others are told apart by
      their names. */
  lemma FilesSplit(p: Path, e: Entry, f: Entry, rest: seq<Entry>, rest': seq<Entry>)
    requires e.name == f.name && !Named(rest, e.name) && !Named(rest', e.name)
    requires FilesOfEntry(p + [e.name], e.node) + FilesOf(p, rest)
          == FilesOfEntry(p + [f.name], f.node) + FilesOf(p, rest')
    ensures FilesOfEntry(p + [e.name], e.node) == FilesOfEntry(p + [f.name], f.node)
    ensures FilesOf(p, rest) == FilesOf(p, rest')
  {
    var a, b, c, d := FilesOfEntry(p + [e.name], e.node), FilesOf(p, rest),
                      FilesOfEntry(p + [f.name], f.node), FilesOf(p, rest');
    FilesOfEntryBelow(p, e.name, e.node);
    FilesOfEntryBelow(p, f.name, f.node);
    FilesOfBelow(p, rest);
    FilesOfBelow(p, rest');
    Apart(a, b, c, d);
  }

  lemma Apart(a: Files, b: Files, c: Files, d: Files)
    requires a + b == c + d && a.Keys !! b.Keys && c.Keys !! d.Keys && a.Keys !! d.Keys && b.Keys !! c.Keys
    ensures a == c && b == d
  {
    forall q ensures (q in a <==> q in c) && (q in b <==> q in d) {
      assert q in a + b <==> q in c + d;
    }
    forall q | q in a ensures a[q] == c[q] { assert (a + b)[q] == (c + d)[q]; }
    forall q | q in b ensures b[q] == d[q] { assert (a + b)[q] == (c + d)[q]; }
  }

  lemma {:induction false} SmallIfSameFiles(p: Path, es: seq<Entry>)
    requires WellFormed(es) && FilesOf(p, CutAll(es)) == FilesOf(p, es)
    ensures AllSmall(es)
    decreases es
  {
    if es != [] {
      var e, rest, c := es[0], es[1..], CutAll(es);
      CutNames(rest);
      assert c[0].name == e.name && c[1..] == CutAll(rest);
      FilesSplit(p, c[0], e, CutAll(rest), rest);
      SmallIfSameFiles(p, rest);
      var q := p + [e.name];
      match e.node {
        case File(data) =>
          assert FilesOfEntry(q, Cut(e.node))[q] == FilesOfEntry(q, e.node)[q];
        case Dir(entries) =>
          FilesOfBelow(q, entries);
          FilesOfBelow(q, CutAll(entries));
          Apart(map[q := Directory], FilesOf(q, CutAll(entries)), map[q := Directory], FilesOf(q, entries));
          SmallIfSameFiles(q, entries);
      }
    }
  }

  /** What is left of a tree is the tree if and only if every file is smaller than
      2^32 bytes. */
  lemma CutIsTreeIff(es: seq<Entry>)
    requires WellFormed(es)
    ensures FilesOf([], CutAll(es)) == FilesOf([], es) <==> AllSmall(es)
  {
    if AllSmall(es) { CutNothing(es); }
    if FilesOf([], CutAll(es)) == FilesOf([], es) { SmallIfSameFiles([], es); }
  }

  // ----- in terms of what is found at a path

  lemma {:induction false} CutAt(es: seq<Entry>, q: Path)
    ensures At(CutAll(es), q) == if At(es, q).None? then None else Some(Cut(At(es, q).value))
    decreases es
  {
    if es != [] && q != [] {
      var c := CutAll(es);
      assert c[0].name == es[0].name && c[0].node == Cut(es[0].node) && c[1..] == CutAll(es[1..]);
      CutAt(es[1..], q);
      if es[0].node.Dir? {
        CutAt(es[0].node.entries, q[1..]);
      }
    }
  }

  /** The mirror has exactly the paths of the tree: every directory, and of every
      file as many bytes as its size is modulo 2^32. */
  ghost predicate IsMirror(fs: Files, es: seq<Entry>) {
    forall q: Path ::
      && (q in fs <==> At(es, q).Some?)
      && (q in fs ==> fs[q] == match At(es, q).value
            case File(data) => Contents(data[..|data| % 0x1_0000_0000])
            case Dir(_) => Directory)
  }

  lemma CutIsMirror(es: seq<Entry>)
    requires WellFormed(es)
    ensures IsMirror(FilesOf([], CutAll(es)), es)
  {
    CutWellFormed(es);
    forall q: Path
      ensures q in FilesOf([], CutAll(es)) <==> At(es, q).Some?
      ensures q in FilesOf([], CutAll(es)) ==> FilesOf([], CutAll(es))[q] == ItemOf(Cut(At(es, q).value))
    {
      FilesAre([], CutAll(es), q);
      CutAt(es, q);
      assert [] + q == q;
    }
  }

  /** Every file of the tree is smaller than 2^32 bytes. */
  ghost predicate NoLargeFile(es: seq<Entry>) {
    forall q, data :: At(es, q) == Some(File(data)) ==> |data| < 0x1_0000_0000
  }

  lemma {:induction false} SmallAt(es: seq<Entry>, q: Path)
    requires AllSmall(es) && At(es, q).Some?
    ensures Small(At(es, q).value)
    decreases es
  {
    if es[0].name != q[0] {
      SmallAt(es[1..], q);
    } else if |q| > 1 {
      SmallAt(es[0].node.entries, q[1..]);
    }
  }

  lemma {:induction false} LargeAt(es: seq<Entry>)
    requires WellFormed(es) && NoLargeFile(es)
    ensures AllSmall(es)
    decreases es
  {
    if es != [] {
      var e, rest := es[0], es[1..];
      forall q, data | At(rest, q) == Some(File(data)) ensures |data| < 0x1_0000_0000 {
        if q[0] == e.name { NotNamed(rest, q); }
        assert At(es, q) == Some(File(data));
      }
      LargeAt(rest);
      if e.node.File? {
        assert At(es, [e.name]) == Some(e.node);
      } else {
        forall q, data | At(e.node.entries, q) == Some(File(data)) ensures |data| < 0x1_0000_0000 {
          assert ([e.name] + q)[1..] == q;
          assert At(es, [e.name] + q) == Some(File(data));
        }
        LargeAt(e.node.entries);
      }
    }
  }

  /** The mirror is the tree if and only if it has no such file. */
  lemma MirrorIsTreeIff(es: seq<Entry>)
    requires WellFormed(es)
    ensures FilesOf([], CutAll(es)) == FilesOf([], es) <==> NoLargeFile(es)
  {
    CutIsTreeIff(es);
    if AllSmall(es) {
      forall q, data | At(es, q) == Some(File(data)) ensures |data| < 0x1_0000_0000 {
        SmallAt(es, q);
      }
    }
    if NoLargeFile(es) { LargeAt(es); }
  }

  /** A file of 2^32 bytes arrives empty. */
  lemma LargeFileArrivesEmpty(name: Name, data: seq<Byte>)
    requires Proper(name) && |data| == 4294967296
    ensures FilesOf([], CutAll([Entry(name, File(data))])) == map[[name] := Contents([])]
  {
    var es := [Entry(name, File(data))];
    assert es[1..] == [] && [] + [name] == [name];
    assert CutAll(es) == [Entry(name, File([]))];
    assert CutAll(es)[1..] == [];
  }
}
