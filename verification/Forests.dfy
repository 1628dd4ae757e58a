/** Directory trees: the records a tree is sent as, what receiving them makes,
    and the theorem that this is the same tree. */
module Forests {
  import opened Words
  import opened Wire

  type Name = seq<Byte>

  const SLASH: Byte := 47

  /** A name that a directory can list. */
  predicate Proper(n: Name) {
    n != [] && SLASH !in n && 0 !in n && n != [46] && n != [46, 46]
  }

  datatype Entry = Entry(name: Name, node: Node)

  /** The entries of a directory come in the order in which they are listed. */
  datatype Node = File(data: seq<Byte>) | Dir(entries: seq<Entry>)

  predicate Named(es: seq<Entry>, n: Name) {
    exists i :: 0 <= i < |es| && es[i].name == n
  }

  predicate WellFormed(es: seq<Entry>) {
    es != [] ==>
      && Proper(es[0].name) && !Named(es[1..], es[0].name) && WellFormed(es[1..])
      && (es[0].node.Dir? ==> WellFormed(es[0].node.entries))
  }

  // ----- flattening

  function Under(dir: seq<Byte>, name: Name): seq<Byte> {
    if dir == [] then name else dir + [SLASH] + name
  }

  /** The records of the entries of a directory, which is the root when `dir` is
      empty. An empty directory is sent as a path with a slash at its end. */
  function Flatten(dir: seq<Byte>, es: seq<Entry>): seq<Record>
    decreases es
  {
    if es == [] then []
    else FlattenEntry(Under(dir, es[0].name), es[0].node) + Flatten(dir, es[1..])
  }

  function FlattenEntry(path: seq<Byte>, node: Node): seq<Record>
    decreases node
  {
    match node
    case File(data) => [Record(path, data)]
    case Dir(entries) => if entries == [] then [Record(path + [SLASH], [])] else Flatten(path, entries)
  }

  // ----- paths

  type Path = seq<Name>

  predicate ProperPath(p: Path) {
    forall i :: 0 <= i < |p| ==> Proper(p[i])
  }

  function Join(p: Path): seq<Byte> {
    if p == [] then [] else Under(Join(p[..|p| - 1]), p[|p| - 1])
  }

  /** How far the first token goes. */
  function Until(s: seq<Byte>): (k: nat)
    ensures k <= |s| && SLASH !in s[..k] && (k < |s| ==> s[k] == SLASH)
  {
    if s == [] || s[0] == SLASH then 0 else 1 + Until(s[1..])
  }

  /** The tokens between slashes, as strtok gives them. */
  function Tokens(s: seq<Byte>): Path
    decreases |s|
  {
    if s == [] then []
    else if s[0] == SLASH then Tokens(s[1..])
    else [s[..Until(s)]] + Tokens(s[Until(s)..])
  }

  lemma {:induction false} UntilThen(a: seq<Byte>, b: seq<Byte>)
    requires SLASH !in a && (b == [] || b[0] == SLASH)
    ensures Until(a + b) == |a|
  {
    if a == [] {
      assert a + b == b;
    } else {
      assert (a + b)[1..] == a[1..] + b;
      UntilThen(a[1..], b);
    }
  }

  lemma {:induction false} TokensMore(a: seq<Byte>, b: seq<Byte>)
    requires b != [] && b[0] == SLASH
    ensures Tokens(a + b) == Tokens(a) + Tokens(b)
    decreases |a|
  {
    if a == [] {
      assert a + b == b;
    } else if a[0] == SLASH {
      assert (a + b)[1..] == a[1..] + b;
      TokensMore(a[1..], b);
    } else {
      var k := Until(a);
      assert a + b == a[..k] + (a[k..] + b);
      UntilThen(a[..k], a[k..] + b);
      assert (a + b)[..k] == a[..k] && (a + b)[k..] == a[k..] + b;
      TokensMore(a[k..], b);
      AfterFirst(a[..k], Tokens(a[k..]), Tokens(b));
    }
  }

  /** Everything but the slashes. */
  function WithoutSlashes(s: seq<Byte>): seq<Byte> {
    if s == [] then [] else (if s[0] == SLASH then [] else [s[0]]) + WithoutSlashes(s[1..])
  }

  function AllOf(p: Path): seq<Byte> {
    if p == [] then [] else p[0] + AllOf(p[1..])
  }

  lemma {:induction false} FirstWithoutSlashes(a: seq<Byte>, b: seq<Byte>)
    requires SLASH !in a
    ensures WithoutSlashes(a + b) == a + WithoutSlashes(b)
  {
    if a == [] {
      assert a + b == b;
    } else {
      assert (a + b)[1..] == a[1..] + b;
      FirstWithoutSlashes(a[1..], b);
    }
  }

  /** The tokens of any text, however many slashes it has, are what is between
      them: no token is empty or has a slash, and nothing else is left out. */
  lemma {:induction false} TokensAre(s: seq<Byte>)
    ensures forall n :: n in Tokens(s) ==> n != [] && SLASH !in n
    ensures AllOf(Tokens(s)) == WithoutSlashes(s)
    decreases |s|
  {
    if s != [] {
      if s[0] == SLASH {
        TokensAre(s[1..]);
      } else {
        var k := Until(s);
        TokensAre(s[k..]);
        FirstWithoutSlashes(s[..k], s[k..]);
        assert s == s[..k] + s[k..];
      }
    }
  }

  lemma AfterFirst(n: Name, s: Path, t: Path)
    ensures [n] + (s + t) == [n] + s + t
  {
  }

  lemma TokensOfName(n: Name)
    requires Proper(n)
    ensures Tokens(n) == [n] && Tokens([SLASH] + n) == [n]
  {
    assert n + [] == n;
    UntilThen(n, []);
    assert ([SLASH] + n)[1..] == n;
  }

  /** The tokens of a path, with or without a slash at its end, are its names. */
  lemma {:induction false} TokensOfJoin(p: Path)
    requires ProperPath(p)
    ensures Tokens(Join(p)) == p && Tokens(Join(p) + [SLASH]) == p && (p != [] ==> Join(p) != [])
  {
    if p != [] {
      var q, n := p[..|p| - 1], p[|p| - 1];
      TokensOfJoin(q);
      TokensOfName(n);
      if q != [] {
        assert Join(q) + [SLASH] + n == Join(q) + ([SLASH] + n);
        TokensMore(Join(q), [SLASH] + n);
      } else {
        assert Join(q) == [];
      }
      assert Tokens(Join(p)) == q + [n] == p;
    }
    TokensMore(Join(p), [SLASH]);
    assert Tokens([SLASH]) == [] && p + [] == p;
  }

  lemma JoinMore(p: Path, n: Name)
    requires ProperPath(p)
    ensures Join(p + [n]) == Under(Join(p), n)
  {
    assert (p + [n])[..|p|] == p;
  }

  lemma {:induction false} JoinGrows(p: Path, k: nat)
    requires ProperPath(p) && k < |p|
    ensures |Join(p[..k])| < |Join(p)|
  {
    if k < |p| - 1 {
      assert p[..|p| - 1][..k] == p[..k];
      JoinGrows(p[..|p| - 1], k);
    }
    TokensOfJoin(p[..|p| - 1]);
  }

  // ----- the receiving side

  datatype Item = Directory | Contents(data: seq<Byte>)

  type Files = map<Path, Item>

  predicate HasParent(fs: Files, p: Path)
    requires p != []
  {
    |p| == 1 || (p[..|p| - 1] in fs && fs[p[..|p| - 1]].Directory?)
  }

  /** Making a directory fails, without further notice, when the path exists or
      its parent does not. */
  function Mkdir(fs: Files, p: Path): Files
    requires p != []
  {
    if p in fs || !HasParent(fs, p) then fs else fs[p := Directory]
  }

  /** Makes the first `k` directories on the way to `p`. */
  function MkdirAll(fs: Files, p: Path, k: nat): Files
    requires k <= |p|
  {
    if k == 0 then fs else Mkdir(MkdirAll(fs, p, k - 1), p[..k])
  }

  /** How many of the path's tokens are made directories: all of them, up to one
      at which the tokens so far spell the whole path. */
  function DirsToMake(path: seq<Byte>, tokens: Path, from: nat): (k: nat)
    requires from <= |tokens|
    ensures from <= k <= |tokens|
    decreases |tokens| - from
  {
    if from == |tokens| || Join(tokens[..from + 1]) == path then from else DirsToMake(path, tokens, from + 1)
  }

  /** The file as it is when it has been opened: an existing file keeps its
      contents, a new one is empty; nothing can be opened in a directory's place
      or without a parent. */
  function Opened(fs: Files, p: Path): Option<Files>
    requires p != []
  {
    if p in fs then (if fs[p].Contents? then Some(fs) else None)
    else if HasParent(fs, p) then Some(fs[p := Contents([])])
    else None
  }

  /** Writing from the start of a file does not cut what lies behind. */
  function Overwritten(was: seq<Byte>, data: seq<Byte>): seq<Byte> {
    data + if |data| < |was| then was[|data|..] else []
  }

  function Stored(fs: Files, p: Path, data: seq<Byte>): Files
    requires p in fs && fs[p].Contents?
  {
    fs[p := Contents(Overwritten(fs[p].data, data))]
  }

  predicate MarksDirectory(path: seq<Byte>) {
    path != [] && path[|path| - 1] == SLASH
  }

  /** A path that leads below the mirror directory. */
  predicate Acceptable(path: seq<Byte>) {
    path != [] && path[0] != SLASH && ProperPath(Tokens(path))
  }

  lemma FirstToken(path: seq<Byte>)
    requires Acceptable(path)
    ensures Tokens(path) != []
  {
  }

  /** Receiving what is to be at `p`: makes the first `k` directories, and then
      the file unless the path marks a directory; and whether the file could be
      opened. */
  function ReceivedAt(fs: Files, p: Path, k: nat, marksDirectory: bool, data: seq<Byte>): (Files, bool)
    requires p != [] && k <= |p|
  {
    var made := MkdirAll(fs, p, k);
    if marksDirectory then (made, true)
    else
      var files := Opened(made, p);
      if files == None then (made, false) else (Stored(files.value, p, data), true)
  }

  function Received(fs: Files, r: Record): (Files, bool)
    requires Acceptable(r.path)
  {
    FirstToken(r.path);
    ReceivedAt(fs, Tokens(r.path), DirsToMake(r.path, Tokens(r.path), 0), MarksDirectory(r.path), r.data)
  }

  /** A record that a sender makes: nothing is sent for a directory. */
  predicate Receivable(r: Record) {
    Acceptable(r.path) && (MarksDirectory(r.path) ==> r.data == [])
  }

  predicate AllReceivable(rs: seq<Record>) {
    forall r :: r in rs ==> Receivable(r)
  }

  /** Receiving ends at the first file that cannot be opened. */
  function ReceivedAll(fs: Files, rs: seq<Record>): (Files, bool)
    requires AllReceivable(rs)
    decreases rs
  {
    if rs == [] then (fs, true)
    else
      assert Receivable(rs[0]);
      var x := Received(fs, rs[0]);
      if x.1 then ReceivedAll(x.0, rs[1..]) else x
  }

  lemma {:induction false} ReceivedConcat(fs: Files, a: seq<Record>, b: seq<Record>)
    requires AllReceivable(a) && AllReceivable(b)
    requires ReceivedAll(fs, a).1
    ensures AllReceivable(a + b) && ReceivedAll(fs, a + b) == ReceivedAll(ReceivedAll(fs, a).0, b)
    decreases a
  {
    if a == [] {
      assert a + b == b;
    } else {
      assert (a + b)[1..] == a[1..] + b;
      assert Receivable(a[0]);
      ReceivedConcat(Received(fs, a[0]).0, a[1..], b);
    }
  }

  // ----- what a tree is on the receiving side

  /** All paths of a directory's entries. */
  function FilesOf(p: Path, es: seq<Entry>): Files
    decreases es
  {
    if es == [] then map[] else FilesOfEntry(p + [es[0].name], es[0].node) + FilesOf(p, es[1..])
  }

  function FilesOfEntry(p: Path, node: Node): Files
    decreases node
  {
    match node
    case File(data) => map[p := Contents(data)]
    case Dir(entries) => map[p := Directory] + FilesOf(p, entries)
  }

  /** `q` lies below the directory `p`. */
  predicate Below(q: Path, p: Path) {
    |p| < |q| && q[..|p|] == p
  }

  lemma {:induction false} FilesOfBelow(p: Path, es: seq<Entry>)
    ensures forall q :: q in FilesOf(p, es) ==> Below(q, p) && Named(es, q[|p|])
    decreases es
  {
    if es != [] {
      FilesOfEntryBelow(p, es[0].name, es[0].node);
      FilesOfBelow(p, es[1..]);
      forall q | q in FilesOf(p, es) ensures Below(q, p) && Named(es, q[|p|]) {
        if q in FilesOf(p, es[1..]) {
          var i :| 0 <= i < |es[1..]| && es[1..][i].name == q[|p|];
          assert es[i + 1].name == q[|p|];
        } else {
          assert es[0].name == q[|p|];
        }
      }
    }
  }

  lemma {:induction false} FilesOfEntryBelow(p: Path, n: Name, node: Node)
    ensures forall q :: q in FilesOfEntry(p + [n], node) ==> Below(q, p) && q[|p|] == n
    decreases node
  {
    if node.Dir? {
      FilesOfBelow(p + [n], node.entries);
      forall q | q in FilesOf(p + [n], node.entries) ensures Below(q, p) && q[|p|] == n {
        assert q[..|p| + 1] == p + [n] && q[..|p|] == q[..|p| + 1][..|p|];
        assert q[|p|] == q[..|p| + 1][|p|];
      }
    }
  }

  predicate OnWay(q: Path, p: Path) {
    q != [] && q <= p
  }

  /** The directories on the way to `p`, and `p` itself. */
  function DirsTo(p: Path): (d: Files)
    ensures forall q :: q in d <==> OnWay(q, p)
    ensures forall q :: q in d ==> d[q] == Directory
  {
    if p == [] then map[]
    else
      assert forall q :: OnWay(q, p) <==> OnWay(q, p[..|p| - 1]) || q == p;
      DirsTo(p[..|p| - 1])[p := Directory]
  }

  // ----- receiving the records of a tree

  /** Nothing but directories is on the way to `p`. */
  predicate Clear(fs: Files, p: Path) {
    forall k :: 0 < k <= |p| && p[..k] in fs ==> fs[p[..k]].Directory?
  }

  /** No name of the entries is in use in directory `p`. */
  predicate Unused(fs: Files, p: Path, es: seq<Entry>) {
    forall q :: q in fs && Below(q, p) ==> !Named(es, q[|p|])
  }

  lemma DirsToMore(p: Path, n: Name)
    ensures DirsTo(p + [n]) == DirsTo(p)[p + [n] := Directory]
  {
    assert (p + [n])[..|p|] == p;
  }

  lemma MkdirMakes(fs: Files, p: Path, n: Name)
    requires Clear(fs, p + [n])
    ensures Mkdir(fs + DirsTo(p), p + [n]) == fs + DirsTo(p + [n])
  {
    var q := p + [n];
    DirsToMore(p, n);
    assert q[..|p|] == p && q[..|q|] == q;
    assert fs + DirsTo(p)[q := Directory] == (fs + DirsTo(p))[q := Directory];
    if q in fs {
      assert (fs + DirsTo(p))[q] == Directory;
    }
  }

  lemma {:induction false} MkdirAllMakes(fs: Files, p: Path, k: nat)
    requires k <= |p| && Clear(fs, p)
    ensures MkdirAll(fs, p, k) == fs + DirsTo(p[..k])
  {
    if k == 0 {
      assert DirsTo(p[..0]) == map[];
    } else {
      MkdirAllMakes(fs, p, k - 1);
      assert p[..k] == p[..k - 1] + [p[k - 1]];
      assert forall j :: 0 <= j <= k ==> p[..k][..j] == p[..j];
      MkdirMakes(fs, p[..k - 1], p[k - 1]);
    }
  }

  lemma {:induction false} DirsToMakeIs(path: seq<Byte>, p: Path, from: nat, n: nat)
    requires from <= n <= |p| && (n < |p| ==> Join(p[..n + 1]) == path)
    requires forall k :: from < k <= n ==> Join(p[..k]) != path
    ensures DirsToMake(path, p, from) == n
    decreases n - from
  {
    if from < n {
      DirsToMakeIs(path, p, from + 1, n);
    }
  }

  /** On the way to a file all directories but the last are made, on the way to
      a directory all. */
  lemma DirsToMakeForPath(p: Path)
    requires ProperPath(p) && p != []
    ensures DirsToMake(Join(p), p, 0) == |p| - 1 && DirsToMake(Join(p) + [SLASH], p, 0) == |p|
  {
    forall k | 0 <= k < |p| ensures |Join(p[..k])| < |Join(p)| {
      JoinGrows(p, k);
    }
    assert p[..|p|] == p;
    DirsToMakeIs(Join(p), p, 0, |p| - 1);
    DirsToMakeIs(Join(p) + [SLASH], p, 0, |p|);
  }

  lemma {:induction false} JoinEnds(p: Path)
    requires ProperPath(p) && p != []
    ensures Join(p) != [] && Join(p)[0] != SLASH && Join(p)[|Join(p)| - 1] != SLASH
  {
    var q, n := p[..|p| - 1], p[|p| - 1];
    assert n[0] in n && n[|n| - 1] in n;
    if q != [] {
      JoinEnds(q);
    }
  }

  lemma JoinAcceptable(p: Path)
    requires ProperPath(p) && p != []
    ensures Acceptable(Join(p)) && Tokens(Join(p)) == p && !MarksDirectory(Join(p))
    ensures Acceptable(Join(p) + [SLASH]) && Tokens(Join(p) + [SLASH]) == p && MarksDirectory(Join(p) + [SLASH])
  {
    JoinEnds(p);
    TokensOfJoin(p);
  }

  lemma ClearMore(fs: Files, p: Path, n: Name)
    requires Clear(fs, p) && p + [n] !in fs
    ensures Clear(fs, p + [n])
  {
    var q := p + [n];
    assert q[..|q|] == q;
    assert forall k :: 0 <= k <= |p| ==> q[..k] == p[..k];
  }

  /** A record at path `p`, as a file or with a slash behind it. */
  lemma ReceivedPath(fs: Files, p: Path, data: seq<Byte>)
    requires ProperPath(p) && p != []
    ensures Receivable(Record(Join(p), data)) && Receivable(Record(Join(p) + [SLASH], []))
    ensures Received(fs, Record(Join(p), data)) == ReceivedAt(fs, p, |p| - 1, false, data)
    ensures Received(fs, Record(Join(p) + [SLASH], [])) == ReceivedAt(fs, p, |p|, true, [])
  {
    JoinAcceptable(p);
    DirsToMakeForPath(p);
  }

  lemma NewFile(made: Files, q: Path, data: seq<Byte>)
    requires q != [] && q !in made && HasParent(made, q)
    ensures Opened(made, q) == Some(made[q := Contents([])])
    ensures Stored(made[q := Contents([])], q, data) == made + map[q := Contents(data)]
  {
    assert Overwritten([], data) == data;
  }

  lemma ReceivedFile(fs: Files, p: Path, n: Name, data: seq<Byte>)
    requires Clear(fs, p) && p + [n] !in fs
    ensures ReceivedAt(fs, p + [n], |p|, false, data) == (fs + DirsTo(p) + map[p + [n] := Contents(data)], true)
  {
    var q, made := p + [n], fs + DirsTo(p);
    ClearMore(fs, p, n);
    MkdirAllMakes(fs, q, |p|);
    assert q[..|p|] == p;
    assert p != [] ==> OnWay(p, p);
    NewFile(made, q, data);
  }

  lemma AddDirectory(fs: Files, way: Files, q: Path)
    ensures fs + way[q := Directory] == fs + way + map[q := Directory]
  {
  }

  lemma ReceivedEmptyDirectory(fs: Files, p: Path, n: Name, data: seq<Byte>)
    requires Clear(fs, p) && p + [n] !in fs
    ensures ReceivedAt(fs, p + [n], |p| + 1, true, data) == (fs + DirsTo(p) + map[p + [n] := Directory], true)
  {
    var q := p + [n];
    ClearMore(fs, p, n);
    assert q[..|q|] == q;
    MkdirAllMakes(fs, q, |q|);
    DirsToMore(p, n);
    AddDirectory(fs, DirsTo(p), q);
  }

  lemma ReceivedOne(fs: Files, r: Record)
    requires Receivable(r)
    ensures ReceivedAll(fs, [r]) == Received(fs, r)
  {
    assert [r][1..] == [];
  }

  lemma NamedMore(e: Entry, rest: seq<Entry>)
    ensures forall n :: Named([e] + rest, n) <==> n == e.name || Named(rest, n)
  {
    var es := [e] + rest;
    assert es[0] == e;
    forall n | Named(rest, n) ensures Named(es, n) {
      var i :| 0 <= i < |rest| && rest[i].name == n;
      assert es[i + 1].name == n;
    }
  }

  /** The files after an entry has been received leave the way clear for the
      entries behind it. */
  lemma EntryLeaves(fs: Files, p: Path, e: Entry, rest: seq<Entry>)
    requires Clear(fs, p) && Unused(fs, p, [e] + rest) && !Named(rest, e.name)
    ensures var fs' := fs + DirsTo(p) + FilesOfEntry(p + [e.name], e.node);
      Clear(fs', p) && Unused(fs', p, rest)
  {
    FilesOfEntryBelow(p, e.name, e.node);
    NamedMore(e, rest);
    var fs' := fs + DirsTo(p) + FilesOfEntry(p + [e.name], e.node);
    forall k | 0 < k <= |p| && p[..k] in fs' ensures fs'[p[..k]].Directory? {
      assert p[..k] in DirsTo(p);
    }
  }

  lemma DirsAgain(fs: Files, p: Path, made: Files, rest: Files)
    requires forall q :: q in made || q in rest ==> Below(q, p)
    ensures fs + DirsTo(p) + made + DirsTo(p) + rest == fs + DirsTo(p) + (made + rest)
  {
  }

  lemma EntryUnused(fs: Files, p: Path, e: Entry, rest: seq<Entry>, q: Path)
    requires Unused(fs, p, [e] + rest) && (q == p + [e.name] || Below(q, p + [e.name]))
    ensures q !in fs
  {
    assert ([e] + rest)[0] == e;
    assert q[|p|] == (p + [e.name])[|p|] && q[..|p|] == p by {
      if q != p + [e.name] {
        assert q[..|p| + 1] == p + [e.name] && q[..|p|] == q[..|p| + 1][..|p|] && q[|p|] == q[..|p| + 1][|p|];
      }
    }
    assert Below(q, p) && Named([e] + rest, q[|p|]);
  }

  lemma NothingBelow(fs: Files, p: Path, e: Entry, rest: seq<Entry>, entries: seq<Entry>)
    requires Unused(fs, p, [e] + rest)
    ensures Unused(fs, p + [e.name], entries)
  {
    forall q | q in fs ensures !Below(q, p + [e.name]) {
      if Below(q, p + [e.name]) {
        EntryUnused(fs, p, e, rest, q);
      }
    }
  }

  lemma SubtreeFiles(fs: Files, way: Files, q: Path, below: Files)
    ensures fs + way[q := Directory] + below == fs + way + (map[q := Directory] + below)
  {
  }

  lemma {:induction false} ReceivedEntry(fs: Files, p: Path, e: Entry, rest: seq<Entry>)
    requires ProperPath(p) && WellFormed([e] + rest) && Clear(fs, p) && Unused(fs, p, [e] + rest)
    ensures var rs := FlattenEntry(Under(Join(p), e.name), e.node);
      AllReceivable(rs) && ReceivedAll(fs, rs) == (fs + DirsTo(p) + FilesOfEntry(p + [e.name], e.node), true)
    decreases e, 0
  {
    var q := p + [e.name];
    EntryUnused(fs, p, e, rest, q);
    JoinMore(p, e.name);
    match e.node
    case File(data) =>
      ReceivedPath(fs, q, data);
      ReceivedFile(fs, p, e.name, data);
      ReceivedOne(fs, Record(Join(q), data));
    case Dir(entries) =>
      if entries == [] {
        ReceivedPath(fs, q, []);
        ReceivedEmptyDirectory(fs, p, e.name, []);
        ReceivedOne(fs, Record(Join(q) + [SLASH], []));
        assert FilesOfEntry(q, e.node) == map[q := Directory];
      } else {
        ReceivedSubtree(fs, p, e, rest, entries);
      }
  }

  lemma {:induction false} ReceivedSubtree(fs: Files, p: Path, e: Entry, rest: seq<Entry>, entries: seq<Entry>)
    requires ProperPath(p) && WellFormed([e] + rest) && Clear(fs, p) && Unused(fs, p, [e] + rest)
    requires e.node == Dir(entries) && entries != []
    ensures var rs := Flatten(Join(p + [e.name]), entries);
      AllReceivable(rs) && ReceivedAll(fs, rs) == (fs + DirsTo(p) + FilesOfEntry(p + [e.name], e.node), true)
    decreases entries, 2
  {
    var q := p + [e.name];
    assert ([e] + rest)[0] == e;
    EntryUnused(fs, p, e, rest, q);
    ClearMore(fs, p, e.name);
    NothingBelow(fs, p, e, rest, entries);
    ReceivedTree(fs, q, entries);
    DirsToMore(p, e.name);
    SubtreeFiles(fs, DirsTo(p), q, FilesOf(q, entries));
  }

  lemma {:induction false} ReceivedTree(fs: Files, p: Path, es: seq<Entry>)
    requires ProperPath(p) && WellFormed(es) && es != [] && Clear(fs, p) && Unused(fs, p, es)
    ensures var rs := Flatten(Join(p), es);
      AllReceivable(rs) && ReceivedAll(fs, rs) == (fs + DirsTo(p) + FilesOf(p, es), true)
    decreases es, 1
  {
    var e, rest := es[0], es[1..];
    assert es == [e] + rest;
    var made := FilesOfEntry(p + [e.name], e.node);
    var first := FlattenEntry(Under(Join(p), e.name), e.node);
    ReceivedEntry(fs, p, e, rest);
    if rest == [] {
      assert first + [] == first && made + map[] == made;
    } else {
      EntryLeaves(fs, p, e, rest);
      ReceivedTree(fs + DirsTo(p) + made, p, rest);
      ReceivedConcat(fs, first, Flatten(Join(p), rest));
      FilesOfBelow(p, es);
      DirsAgain(fs, p, made, FilesOf(p, rest));
    }
  }

  /** A tree that is received in an empty mirror directory is the tree that was
      sent: files, contents and empty directories. */
  lemma MirrorIsTree(es: seq<Entry>)
    requires WellFormed(es)
    ensures AllReceivable(Flatten([], es)) && ReceivedAll(map[], Flatten([], es)) == (FilesOf([], es), true)
  {
    if es != [] {
      ReceivedTree(map[], [], es);
      assert map[] + DirsTo([]) + FilesOf([], es) == FilesOf([], es);
    }
  }

  // ----- the order of listing

  /** The same names with the same things behind them, listed in any order. */
  predicate SameEntries(a: seq<Entry>, b: seq<Entry>)
    decreases a, 1
  {
    && (forall i {:trigger ListedIn(a[i], b)} :: 0 <= i < |a| ==> ListedIn(a[i], b))
    && (forall j {:trigger Lists(a, b[j])} :: 0 <= j < |b| ==> Lists(a, b[j]))
  }

  predicate ListedIn(e: Entry, es: seq<Entry>)
    decreases e, 0
  {
    exists j :: 0 <= j < |es| && e.name == es[j].name && SameNode(e.node, es[j].node)
  }

  predicate Lists(es: seq<Entry>, e: Entry)
    decreases es, 0
  {
    exists i :: 0 <= i < |es| && es[i].name == e.name && SameNode(es[i].node, e.node)
  }

  predicate SameNode(a: Node, b: Node)
    decreases a, 0
  {
    match (a, b)
    case (File(d), File(e)) => d == e
    case (Dir(x), Dir(y)) => SameEntries(x, y)
    case _ => false
  }

  predicate HasFile(p: Path, e: Entry, q: Path, item: Item) {
    q in FilesOfEntry(p + [e.name], e.node) && FilesOfEntry(p + [e.name], e.node)[q] == item
  }

  /** A path is there exactly when some entry has it. */
  lemma {:induction false} FilesOfIff(p: Path, es: seq<Entry>, q: Path, item: Item)
    requires WellFormed(es)
    ensures q in FilesOf(p, es) && FilesOf(p, es)[q] == item <==> exists i :: 0 <= i < |es| && HasFile(p, es[i], q, item)
  {
    if es != [] {
      FilesOfIff(p, es[1..], q, item);
      FilesOfEntryBelow(p, es[0].name, es[0].node);
      FilesOfBelow(p, es[1..]);
      if i :| 0 <= i < |es| && HasFile(p, es[i], q, item) {
        if i > 0 { assert es[1..][i - 1] == es[i]; }
      }
      if i :| 0 <= i < |es[1..]| && HasFile(p, es[1..][i], q, item) {
        assert es[i + 1] == es[1..][i];
      }
    }
  }

  /** Both entries make the same files. */
  predicate Alike(p: Path, e: Entry, f: Entry) {
    e.name == f.name && FilesOfEntry(p + [e.name], e.node) == FilesOfEntry(p + [f.name], f.node)
  }

  predicate HasAlike(p: Path, e: Entry, es: seq<Entry>) {
    exists j :: 0 <= j < |es| && Alike(p, e, es[j])
  }

  lemma AlikeFiles(p: Path, a: seq<Entry>, b: seq<Entry>, q: Path)
    requires WellFormed(a) && WellFormed(b) && q in FilesOf(p, a)
    requires forall i :: 0 <= i < |a| ==> HasAlike(p, a[i], b)
    ensures q in FilesOf(p, b) && FilesOf(p, b)[q] == FilesOf(p, a)[q]
  {
    var item := FilesOf(p, a)[q];
    FilesOfIff(p, a, q, item);
    FilesOfIff(p, b, q, item);
    var i :| 0 <= i < |a| && HasFile(p, a[i], q, item);
    var j :| 0 <= j < |b| && Alike(p, a[i], b[j]);
    assert HasFile(p, b[j], q, item);
  }

  lemma AlikeAll(p: Path, a: seq<Entry>, b: seq<Entry>)
    requires WellFormed(a) && WellFormed(b)
    requires forall i :: 0 <= i < |a| ==> HasAlike(p, a[i], b)
    requires forall j :: 0 <= j < |b| ==> HasAlike(p, b[j], a)
    ensures FilesOf(p, a) == FilesOf(p, b)
  {
    forall q | q in FilesOf(p, a) ensures q in FilesOf(p, b) && FilesOf(p, b)[q] == FilesOf(p, a)[q] {
      AlikeFiles(p, a, b, q);
    }
    forall q | q in FilesOf(p, b) ensures q in FilesOf(p, a) {
      AlikeFiles(p, b, a, q);
    }
  }

  lemma {:induction false} SameFiles(p: Path, a: seq<Entry>, b: seq<Entry>)
    requires WellFormed(a) && WellFormed(b) && SameEntries(a, b)
    ensures FilesOf(p, a) == FilesOf(p, b)
    decreases a
  {
    forall i | 0 <= i < |a| ensures HasAlike(p, a[i], b) {
      assert ListedIn(a[i], b);
      var j :| 0 <= j < |b| && a[i].name == b[j].name && SameNode(a[i].node, b[j].node);
      SameAlike(p, a, i, b, j);
    }
    forall j | 0 <= j < |b| ensures HasAlike(p, b[j], a) {
      assert Lists(a, b[j]);
      var i :| 0 <= i < |a| && a[i].name == b[j].name && SameNode(a[i].node, b[j].node);
      SameAlike(p, a, i, b, j);
    }
    AlikeAll(p, a, b);
  }

  lemma {:induction false} SameAlike(p: Path, a: seq<Entry>, i: nat, b: seq<Entry>, j: nat)
    requires WellFormed(a) && WellFormed(b) && i < |a| && j < |b|
    requires a[i].name == b[j].name && SameNode(a[i].node, b[j].node)
    ensures Alike(p, a[i], b[j]) && Alike(p, b[j], a[i])
    decreases a[i]
  {
    if a[i].node.Dir? {
      WellFormedEntry(a, i);
      WellFormedEntry(b, j);
      SameFiles(p + [a[i].name], a[i].node.entries, b[j].node.entries);
    }
  }

  lemma {:induction false} WellFormedEntry(es: seq<Entry>, i: nat)
    requires WellFormed(es) && i < |es| && es[i].node.Dir?
    ensures WellFormed(es[i].node.entries)
  {
    if i > 0 {
      WellFormedEntry(es[1..], i - 1);
    }
  }

  /** The order in which directories list their entries makes no difference to
      the mirror. */
  lemma OrderDoesNotMatter(a: seq<Entry>, b: seq<Entry>)
    requires WellFormed(a) && WellFormed(b) && SameEntries(a, b)
    ensures AllReceivable(Flatten([], a)) && AllReceivable(Flatten([], b))
    ensures ReceivedAll(map[], Flatten([], a)) == ReceivedAll(map[], Flatten([], b))
  {
    MirrorIsTree(a);
    MirrorIsTree(b);
    SameFiles([], a, b);
  }
}
