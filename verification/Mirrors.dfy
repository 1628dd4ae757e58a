/** The two ends of a transfer: the recursion that sends a directory, and the
    loop that receives records into a mirror directory. */
module Mirrors {
  import opened Words
  import opened Wire
  import opened Forests
  import opened LargeFiles

  // ----- the sender

  /** What is to be sent for the entries from `i` on. */
  ghost function ToSend(dir: seq<Byte>, es: seq<Entry>, i: nat): seq<Byte>
    requires i <= |es|
  {
    EncodeAll(Flatten(dir, es[i..]))
  }

  lemma FirstToSend(dir: seq<Byte>, es: seq<Entry>, i: nat)
    requires i < |es|
    ensures ToSend(dir, es, i)
         == EncodeAll(FlattenEntry(Under(dir, es[i].name), es[i].node)) + ToSend(dir, es, i + 1)
  {
    assert es[i..][0] == es[i] && es[i..][1..] == es[i + 1..];
    EncodeAllConcat(FlattenEntry(Under(dir, es[i].name), es[i].node), Flatten(dir, es[i + 1..]));
  }

  lemma Regroup(a: seq<Byte>, b: seq<Byte>, c: seq<Byte>)
    ensures a + b + c == a + (b + c)
  {
  }

  /** Of `all`, `sent` and entry `i` have been sent: what remains. */
  lemma SentEntry(sent: seq<Byte>, all: seq<Byte>, dir: seq<Byte>, es: seq<Entry>, i: nat)
    requires i < |es| && sent + ToSend(dir, es, i) == all
    ensures sent + EncodeAll(FlattenEntry(Under(dir, es[i].name), es[i].node)) + ToSend(dir, es, i + 1) == all
  {
    FirstToSend(dir, es, i);
    Regroup(sent, EncodeAll(FlattenEntry(Under(dir, es[i].name), es[i].node)), ToSend(dir, es, i + 1));
  }

  lemma AllSent(sent: seq<Byte>, dir: seq<Byte>, es: seq<Entry>)
    ensures sent + ToSend(dir, es, |es|) == sent && ToSend(dir, es, 0) == EncodeAll(Flatten(dir, es))
  {
    assert es[0..] == es && es[|es|..] == [];
  }

  lemma EncodeOne(r: Record)
    ensures EncodeAll([r]) == Encode(r)
  {
    assert [r][1..] == [] && Encode(r) + [] == Encode(r);
  }

  /** Sends one entry: a file's record, or all of a directory. */
  method SyncSendEntry(path: seq<Byte>, node: Node, pipe: Pipe, maxBuffsize: nat)
    requires maxBuffsize > 0 && path != []
    modifies pipe
    ensures pipe.bytes == old(pipe.bytes) + EncodeAll(FlattenEntry(path, node))
    decreases node, 1
  {
    match node {
      case Dir(entries) =>
        SyncSendDir(path, entries, pipe, maxBuffsize);
      case File(data) =>
        SyncSendFile(pipe, Record(path, data), maxBuffsize);
        EncodeOne(Record(path, data));
    }
  }

  /** Sends all that is below a directory, or the mark of an empty one. */
  method SyncSendDir(dirPath: seq<Byte>, entries: seq<Entry>, pipe: Pipe, maxBuffsize: nat)
    requires maxBuffsize > 0 && dirPath != []
    modifies pipe
    ensures pipe.bytes == old(pipe.bytes) + EncodeAll(FlattenEntry(dirPath, Dir(entries)))
    decreases entries, 0
  {
    var fileFound := false;
    var i := 0;
    ghost var all := pipe.bytes + ToSend(dirPath, entries, 0);
    AllSent(pipe.bytes, dirPath, entries);
    while i < |entries|
      invariant 0 <= i <= |entries| && (fileFound <==> i > 0)
      invariant pipe.bytes + ToSend(dirPath, entries, i) == all && (i == 0 ==> pipe.bytes == old(pipe.bytes))
    {
      fileFound := true;
      SentEntry(pipe.bytes, all, dirPath, entries, i);
      var path := dirPath + [SLASH] + entries[i].name;
      assert path == Under(dirPath, entries[i].name);
      SyncSendEntry(path, entries[i].node, pipe, maxBuffsize);
      i := i + 1;
    }
    AllSent(pipe.bytes, dirPath, entries);
    if !fileFound {
      SyncSendFile(pipe, Record(dirPath + [SLASH], []), maxBuffsize);
      EncodeOne(Record(dirPath + [SLASH], []));
    }
  }

  /** Sends the whole input directory, and the zero length behind it. */
  method SyncSend(entries: seq<Entry>, pipe: Pipe, maxBuffsize: nat)
    requires maxBuffsize > 0 && WellFormed(entries)
    modifies pipe
    ensures pipe.bytes == old(pipe.bytes) + EncodeAll(Flatten([], entries)) + END
  {
    var i := 0;
    ghost var all := pipe.bytes + ToSend([], entries, 0);
    AllSent(pipe.bytes, [], entries);
    while i < |entries|
      invariant 0 <= i <= |entries|
      invariant pipe.bytes + ToSend([], entries, i) == all
    {
      SentEntry(pipe.bytes, all, [], entries, i);
      WellFormedName(entries, i);
      SyncSendEntry(entries[i].name, entries[i].node, pipe, maxBuffsize);
      i := i + 1;
    }
    AllSent(pipe.bytes, [], entries);
    pipe.Write(END);
  }

  lemma {:induction false} WellFormedName(es: seq<Entry>, i: nat)
    requires WellFormed(es) && i < |es|
    ensures Proper(es[i].name)
  {
    if i > 0 {
      WellFormedName(es[1..], i - 1);
    }
  }

  // ----- the receiver

  /** Puts bytes into a file at a place. */
  function PutAt(was: seq<Byte>, offset: nat, data: seq<Byte>): seq<Byte>
    requires offset <= |was|
  {
    was[..offset] + data + if offset + |data| < |was| then was[offset + |data|..] else []
  }

  /** Chunks written one behind the other are one write of them all. */
  lemma PutNext(was: seq<Byte>, a: seq<Byte>, b: seq<Byte>)
    ensures PutAt(Overwritten(was, a), |a|, b) == Overwritten(was, a + b)
  {
  }

  lemma StoredNothing(fs: Files, p: Path)
    requires p in fs && fs[p].Contents?
    ensures Stored(fs, p, []) == fs
  {
    assert Overwritten(fs[p].data, []) == fs[p].data;
  }

  /** The mirror directory, with the file that was opened last and the place in
      it. */
  class Mirror {
    var files: Files
    var file: Path
    var offset: nat

    ghost predicate Valid()
      reads this
    {
      file in files && files[file].Contents? && offset <= |files[file].data|
    }

    constructor ()
      ensures files == map[]
    {
      files, file, offset := map[], [], 0;
    }

    method Mkdir(tree: seq<Byte>)
      requires Tokens(tree) != []
      modifies this`files
      ensures files == Forests.Mkdir(old(files), Tokens(tree))
    {
      var p := Tokens(tree);
      if p !in files && HasParent(files, p) {
        files := files[p := Directory];
      }
    }

    method Open(path: seq<Byte>) returns (ok: bool)
      requires Tokens(path) != []
      modifies this
      ensures ok == Opened(old(files), Tokens(path)).Some?
      ensures ok ==> Some(files) == Opened(old(files), Tokens(path)) && Valid() && file == Tokens(path) && offset == 0
      ensures !ok ==> files == old(files)
    {
      var p := Tokens(path);
      var made := Opened(files, p);
      ok := made.Some?;
      if ok {
        files, file, offset := made.value, p, 0;
      }
    }

    method Write(buffer: seq<Byte>)
      requires Valid()
      modifies this`files, this`offset
      ensures Valid() && offset == old(offset) + |buffer|
      ensures files == old(files)[file := Contents(PutAt(old(files)[file].data, old(offset), buffer))]
    {
      files := files[file := Contents(PutAt(files[file].data, offset, buffer))];
      offset := offset + |buffer|;
    }

    /** Makes the directories on the way of a path, token by token. */
    method MakeWay(path: seq<Byte>)
      requires Acceptable(path)
      modifies this`files
      ensures files == MkdirAll(old(files), Tokens(path), DirsToMake(path, Tokens(path), 0))
    {
      var tokens := Tokens(path);
      FirstToken(path);
      ghost var k := DirsToMake(path, tokens, 0);
      assert tokens[..1] == [tokens[0]] && Join(tokens[..1]) == tokens[0];
      if tokens[0] != path {
        var tree := tokens[0];
        WayStep(tokens, 1);
        Mkdir(tree);
        var i := 1;
        while i < |tokens|
          invariant 1 <= i <= |tokens| && tree == Join(tokens[..i])
          invariant k == DirsToMake(path, tokens, i) && files == MkdirAll(old(files), tokens, i)
        {
          WayStep(tokens, i + 1);
          tree := tree + [SLASH] + tokens[i];
          if path == tree { break; }
          Mkdir(tree);
          i := i + 1;
        }
      }
    }

    /** The tokens so far spell a path, and the tokens of this path are they. */
    lemma WayStep(tokens: Path, i: nat)
      requires ProperPath(tokens) && 0 < i <= |tokens|
      ensures Join(tokens[..i]) == Under(Join(tokens[..i - 1]), tokens[i - 1])
      ensures Tokens(Join(tokens[..i])) == tokens[..i] && (i > 1 ==> Join(tokens[..i - 1]) != [])
    {
      assert tokens[..i][..i - 1] == tokens[..i - 1];
      TokensOfJoin(tokens[..i]);
      TokensOfJoin(tokens[..i - 1]);
    }

    /** Reads a path, makes its way and opens its file. */
    method ReadFilePath(pipe: Pipe, length: nat, maxBuffsize: nat) returns (ok: bool, path: seq<Byte>)
      requires maxBuffsize > 0 && length <= |pipe.bytes| && Acceptable(pipe.bytes[..length])
      modifies this, pipe
      ensures path == old(pipe.bytes)[..length] && pipe.bytes == old(pipe.bytes)[length..]
      ensures var p := Tokens(path);
        var made := MkdirAll(old(files), p, DirsToMake(path, p, 0));
        if MarksDirectory(path) then ok && files == made
        else
          && p != [] && ok == Opened(made, p).Some?
          && if ok then Some(files) == Opened(made, p) && Valid() && file == p && offset == 0 else files == made
    {
      path := ReadPath(pipe, length, maxBuffsize);
      FirstToken(path);
      MakeWay(path);
      if path[|path| - 1] != SLASH {
        ok := Open(path);
      } else {
        ok := true;
      }
    }

    /** Reads the contents of a file in chunks and writes them behind each other. */
    method ReadFile(pipe: Pipe, fileSize: nat, maxBuffsize: nat)
      requires maxBuffsize > 0 && fileSize <= |pipe.bytes|
      requires fileSize > 0 ==> Valid() && offset == 0
      modifies this`files, this`offset, pipe
      ensures pipe.bytes == old(pipe.bytes)[fileSize..] && file == old(file)
      ensures files == if fileSize == 0 then old(files) else Stored(old(files), file, old(pipe.bytes)[..fileSize])
    {
      if fileSize == 0 { return; }
      var remaining := fileSize;
      ghost var was, data := files[file].data, pipe.bytes;
      assert Overwritten(was, data[..0]) == was;
      while remaining >= maxBuffsize
        invariant 0 <= remaining <= fileSize && Valid() && offset == fileSize - remaining
        invariant pipe.bytes == data[fileSize - remaining..]
        invariant files == old(files)[file := Contents(Overwritten(was, data[..fileSize - remaining]))]
      {
        var buffer := pipe.Read(maxBuffsize);
        ghost var done := data[..fileSize - remaining];
        PutNext(was, done, buffer);
        assert done + buffer == data[..fileSize - remaining + maxBuffsize];
        Write(buffer);
        remaining := remaining - maxBuffsize;
      }
      var buffer := pipe.Read(remaining);
      ghost var done := data[..fileSize - remaining];
      PutNext(was, done, buffer);
      assert done + buffer == data[..fileSize];
      Write(buffer);
    }

    /** Receives one record: its path's length has been read. */
    method ReceiveRecord(pipe: Pipe, length: nat, maxBuffsize: nat, ghost r: Record, ghost rest: seq<Byte>)
        returns (ok: bool)
      requires maxBuffsize > 0 && IsRecord(r, rest, length, pipe.bytes) && Receivable(r)
      modifies this, pipe
      ensures Received(old(files), r) == (files, ok)
      ensures ok ==> pipe.bytes == rest
    {
      ghost var all := pipe.bytes;
      var path;
      ok, path := ReadFilePath(pipe, length, maxBuffsize);
      if !ok { return; }
      var size := pipe.Read(4);
      assert size == all[length..length + 4] && pipe.bytes == all[length + 4..];
      assert pipe.bytes[..|r.data|] == r.data && pipe.bytes[|r.data|..] == rest;
      ReadFile(pipe, Number(size), maxBuffsize);
      if r.data == [] && !MarksDirectory(path) {
        StoredNothing(files, file);
      }
    }

    /** Receives records up to the zero length, or to a file that cannot be
        opened. */
    method SyncReceive(pipe: Pipe, maxBuffsize: nat, ghost rs: seq<Record>, ghost rest: seq<Byte>) returns (ok: bool)
      requires maxBuffsize > 0 && Parse(pipe.bytes) == Some((rs, rest)) && AllReceivable(rs)
      modifies this, pipe
      ensures (files, ok) == ReceivedAll(old(files), rs)
      ensures ok ==> pipe.bytes == rest
    {
      ghost var todo, stream := rs, pipe.bytes;
      var header := pipe.Read(2);
      var pathLength := Number(header);
      ok := true;
      while ok && pathLength != 0
        invariant ok ==> Parse(stream) == Some((todo, rest)) && AtRecord(stream, pathLength, pipe.bytes)
        invariant ok ==> AllReceivable(todo) && ReceivedAll(files, todo) == ReceivedAll(old(files), rs)
        invariant !ok ==> (files, ok) == ReceivedAll(old(files), rs)
        decreases if ok then |todo| + 1 else 0
      {
        ghost var tail := NextRecord(stream, todo, rest, pathLength, pipe.bytes);
        assert Receivable(todo[0]);
        ok := ReceiveRecord(pipe, pathLength, maxBuffsize, todo[0], tail);
        if ok {
          header := pipe.Read(2);
          pathLength := Number(header);
          todo, stream := todo[1..], tail;
        }
      }
      if ok {
        NoMore(stream, todo, rest);
      }
    }
  }

  /** The stream starts with this length, and goes on with these bytes. */
  ghost predicate AtRecord(stream: seq<Byte>, length: nat, bytes: seq<Byte>) {
    |stream| >= 2 && length == Number(stream[..2]) && bytes == stream[2..]
  }

  /** Behind its length a record has its path, its size, and its data. */
  ghost predicate IsRecord(r: Record, rest: seq<Byte>, length: nat, bytes: seq<Byte>) {
    && length == |r.path| && |bytes| >= length + 4 + |r.data|
    && bytes[..length] == r.path && Number(bytes[length..length + 4]) == |r.data|
    && bytes[length + 4..length + 4 + |r.data|] == r.data && bytes[length + 4 + |r.data|..] == rest
  }

  lemma NextRecord(stream: seq<Byte>, rs: seq<Record>, end: seq<Byte>, length: nat, bytes: seq<Byte>)
      returns (rest: seq<Byte>)
    requires Parse(stream) == Some((rs, end)) && AtRecord(stream, length, bytes) && length > 0
    ensures rs != [] && IsRecord(rs[0], rest, length, bytes)
    ensures Parse(rest) == Some((rs[1..], end)) && |rest| >= 2
  {
    var s := AfterField(stream, 2);
    rest := AfterField(s, 4);
    assert s == bytes[length..];
    var r := Record(Field(stream, 2), Field(s, 4));
    assert rs == [r] + Parse(rest).value.0;
    assert s[..4] == bytes[length..length + 4];
  }

  lemma NoMore(stream: seq<Byte>, rs: seq<Record>, end: seq<Byte>)
    requires Parse(stream) == Some((rs, end)) && |stream| >= 2 && Number(stream[..2]) == 0
    ensures rs == [] && stream[2..] == end
  {
  }

  // ----- a whole transfer

  /** Sends a tree through an empty pipe and receives it in an empty mirror, in
      chunks of any sizes. No path has 2^16 bytes. The mirror is the tree if and
      only if no file has 2^32 bytes; in any case it has what is left of it when
      the sizes are truncated. */
  method Transfer(entries: seq<Entry>, sendSize: nat, receiveSize: nat) returns (mirror: Mirror, ok: bool)
    requires WellFormed(entries) && sendSize > 0 && receiveSize > 0
    requires forall r :: r in Flatten([], entries) ==> |r.path| < 0x1_0000
    ensures ok && mirror.files == FilesOf([], CutAll(entries)) && IsMirror(mirror.files, entries)
    ensures mirror.files == FilesOf([], entries) <==> NoLargeFile(entries)
  {
    var pipe := new Pipe([]);
    SyncSend(entries, pipe, sendSize);
    ghost var cut := CutAll(entries);
    StreamOfTree(entries);
    mirror := new Mirror();
    ok := mirror.SyncReceive(pipe, receiveSize, Flatten([], cut), []);
    CutWellFormed(entries);
    MirrorIsTree(cut);
    CutIsMirror(entries);
    MirrorIsTreeIff(entries);
  }

  lemma StreamOfTree(entries: seq<Entry>)
    requires WellFormed(entries) && forall r :: r in Flatten([], entries) ==> |r.path| < 0x1_0000
    ensures var rs := Flatten([], CutAll(entries));
      Parse([] + EncodeAll(Flatten([], entries)) + END) == Some((rs, [])) && AllReceivable(rs)
  {
    var rs := Flatten([], CutAll(entries));
    CutWellFormed(entries);
    MirrorIsTree(CutAll(entries));
    CutSendsSame([], entries);
    forall r | r in rs ensures Fits(r) {
      assert Receivable(r);
    }
    RoundTripIff(rs, []);
    NothingAround(EncodeAll(rs), END);
  }

  lemma NothingAround(a: seq<Byte>, b: seq<Byte>)
    ensures [] + a + b == a + (b + [])
  {
  }
}
