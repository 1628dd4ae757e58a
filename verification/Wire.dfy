/** The byte stream between two clients: records of a path and the contents of
    a file, written and read in chunks, and a zero length at the end. */
module Wire {
  import opened Words

  type Byte = b: int | 0 <= b < 256

  /** What a path's length and a file's size are counted in. */
  const SHORT: int := 0x1_0000
  const UNSIGNED: int := 0x1_0000_0000

  datatype Record = Record(path: seq<Byte>, data: seq<Byte>)

  // ----- numbers

  /** The bytes of a number, lowest first. */
  function Bytes(n: nat, width: nat): (s: seq<Byte>)
    ensures |s| == width
  {
    if width == 0 then [] else [n % 256] + Bytes(n / 256, width - 1)
  }

  function Number(s: seq<Byte>): nat {
    if s == [] then 0 else s[0] + 256 * Number(s[1..])
  }

  function Capacity(width: nat): (c: nat)
    ensures c > 0
  {
    if width == 0 then 1 else 256 * Capacity(width - 1)
  }

  lemma {:induction false} NumberOfBytes(n: nat, width: nat)
    requires n < Capacity(width)
    ensures Number(Bytes(n, width)) == n
  {
    if width > 0 {
      NumberOfBytes(n / 256, width - 1);
    }
  }

  /** The bytes are those of the number in base 256, lowest first. */
  lemma {:induction false} BytesAre(n: nat, width: nat, more: nat)
    requires more < 256
    ensures Bytes(more + 256 * n, width + 1) == [more] + Bytes(n, width)
    ensures Capacity(0) == 1 && Capacity(width + 1) == 256 * Capacity(width)
  {
  }

  /** How much the two fields can count. */
  lemma Capacities()
    ensures Capacity(2) == 0x1_0000 && Capacity(4) == 0x1_0000_0000
  {
    assert Capacity(1) == 256 && Capacity(3) == 256 * Capacity(2);
  }

  // ----- records

  /** The part of a record that is sent: its length and size are truncated. */
  function Sent(r: Record): Record {
    Record(r.path[..|r.path| % SHORT], r.data[..|r.data| % UNSIGNED])
  }

  function Encode(r: Record): seq<Byte> {
    Bytes(|Sent(r).path|, 2) + Sent(r).path + (Bytes(|Sent(r).data|, 4) + Sent(r).data)
  }

  function EncodeAll(rs: seq<Record>): seq<Byte> {
    if rs == [] then [] else Encode(rs[0]) + EncodeAll(rs[1..])
  }

  const END: seq<Byte> := [0, 0]

  /** A field: a number, and that many bytes. */
  predicate HasField(s: seq<Byte>, width: nat) {
    |s| >= width && |s| >= width + Number(s[..width])
  }

  function Field(s: seq<Byte>, width: nat): seq<Byte>
    requires HasField(s, width)
  {
    s[width..width + Number(s[..width])]
  }

  function AfterField(s: seq<Byte>, width: nat): seq<Byte>
    requires HasField(s, width)
  {
    s[width + Number(s[..width])..]
  }

  lemma FieldThen(x: seq<Byte>, width: nat, rest: seq<Byte>)
    requires |x| < Capacity(width)
    ensures var s := Bytes(|x|, width) + x + rest;
      HasField(s, width) && Field(s, width) == x && AfterField(s, width) == rest
  {
    NumberOfBytes(|x|, width);
    ThreeParts(Bytes(|x|, width), x, rest);
  }

  lemma ThreeParts(a: seq<Byte>, b: seq<Byte>, c: seq<Byte>)
    ensures (a + b + c)[..|a|] == a && (a + b + c)[|a|..|a| + |b|] == b && (a + b + c)[|a| + |b|..] == c
  {
  }

  /** The records before the zero length, and what comes behind it; nothing if
      the stream ends too early. */
  function Parse(s: seq<Byte>): Option<(seq<Record>, seq<Byte>)>
    decreases |s|
  {
    if !HasField(s, 2) then None
    else if Field(s, 2) == [] then Some(([], AfterField(s, 2)))
    else
      var s' := AfterField(s, 2);
      if !HasField(s', 4) then None
      else More(Record(Field(s, 2), Field(s', 4)), Parse(AfterField(s', 4)))
  }

  function More(r: Record, p: Option<(seq<Record>, seq<Byte>)>): Option<(seq<Record>, seq<Byte>)> {
    if p == None then None else Some(([r] + p.value.0, p.value.1))
  }

  lemma ParseEnd(rest: seq<Byte>)
    ensures Parse(END + rest) == Some(([], rest))
  {
    FieldThen([], 2, rest);
    assert Bytes(0, 2) == END by { assert Bytes(0, 1) == [0]; }
    assert END + [] == END;
  }

  /** What the receiver makes of one record and all that follows it. */
  lemma ParseRecord(r: Record, rest: seq<Byte>)
    ensures var tail := Bytes(|Sent(r).data|, 4) + Sent(r).data + rest;
      Parse(Encode(r) + rest) == if |r.path| % SHORT == 0 then Some(([], tail)) else More(Sent(r), Parse(rest))
  {
    var path, data := Sent(r).path, Sent(r).data;
    var tail := Bytes(|data|, 4) + data + rest;
    assert Capacity(2) == SHORT by { assert Capacity(1) == 256; }
    assert Capacity(4) == UNSIGNED by { assert Capacity(2) == SHORT && Capacity(3) == 256 * SHORT; }
    assert Encode(r) + rest == Bytes(|path|, 2) + path + tail;
    FieldThen(path, 2, tail);
    FieldThen(data, 4, rest);
  }

  /** No field is cut, and the path is not taken for the end. */
  predicate Fits(r: Record) {
    0 < |r.path| < 0x1_0000 && |r.data| < 0x1_0000_0000
  }

  /** A record whose path has 1 to 65535 bytes and whose file is smaller than
      2^32 bytes comes back whole. */
  lemma RecordComesBack(r: Record, rest: seq<Byte>)
    requires 0 < |r.path| < Capacity(2) && |r.data| < Capacity(4)
    ensures Capacity(2) == 0x1_0000 && Capacity(4) == 0x1_0000_0000
    ensures Parse(EncodeAll([r]) + (END + rest)) == Some(([r], rest))
  {
    Capacities();
    assert forall x :: x in [r] ==> x == r;
    RoundTripIff([r], rest);
  }

  /** On the wire it is the length of the path in two bytes, the path, the size of
      the file in four, and its contents. */
  lemma EncodedAs(r: Record)
    requires |r.path| < 0x1_0000 && |r.data| < 0x1_0000_0000
    ensures Encode(r) == Bytes(|r.path|, 2) + r.path + (Bytes(|r.data|, 4) + r.data)
  {
    assert r.path[..|r.path|] == r.path && r.data[..|r.data|] == r.data;
  }

  /** Of a longer file only the size modulo 2^32 is sent, and as many bytes. */
  lemma EncodedCut(r: Record)
    requires |r.path| < 0x1_0000
    ensures Encode(r) == Encode(Record(r.path, r.data[..|r.data| % 0x1_0000_0000]))
  {
    var c := Record(r.path, r.data[..|r.data| % 0x1_0000_0000]);
    assert c.data[..|c.data|] == c.data;
    assert Sent(c) == Sent(r);
  }

  lemma SentIff(r: Record)
    ensures Fits(r) <==> Sent(r) == r && |r.path| % SHORT != 0
  {
    if Sent(r) == r {
      assert |Sent(r).path| == |r.path| && |Sent(r).data| == |r.data|;
    }
  }

  lemma EncodeAllMore(r: Record, rs: seq<Record>, end: seq<Byte>)
    ensures EncodeAll([r] + rs) + end == Encode(r) + (EncodeAll(rs) + end)
  {
    assert ([r] + rs)[1..] == rs;
    assert EncodeAll([r] + rs) + end == Encode(r) + (EncodeAll(rs) + end);
  }

  /** The stream gives back exactly the records that were sent, is consumed up to
      its end and no further, exactly when no path is empty and no length or
      size is cut. */
  lemma {:induction false} RoundTripIff(rs: seq<Record>, rest: seq<Byte>)
    ensures Parse(EncodeAll(rs) + (END + rest)) == Some((rs, rest)) <==> forall r :: r in rs ==> Fits(r)
  {
    if rs == [] {
      assert EncodeAll(rs) + (END + rest) == END + rest;
      ParseEnd(rest);
    } else {
      var r, tail := rs[0], EncodeAll(rs[1..]) + (END + rest);
      assert rs == [r] + rs[1..];
      EncodeAllMore(r, rs[1..], END + rest);
      ParseRecord(r, tail);
      SentIff(r);
      RoundTripIff(rs[1..], rest);
      var p := Parse(tail);
      if |r.path| % SHORT != 0 && p.Some? {
        assert ([Sent(r)] + p.value.0)[1..] == p.value.0;
        assert p.value == (p.value.0, p.value.1);
      }
      assert (forall x :: x in rs ==> Fits(x)) <==> Fits(r) && forall x :: x in rs[1..] ==> Fits(x);
    }
  }

  /** A path of 2^16 bytes ends the transfer for everything behind it. */
  lemma LongPathEndsTransfer(r: Record, rs: seq<Record>)
    requires |r.path| % 0x1_0000 == 0
    ensures var p := Parse(EncodeAll([r] + rs) + END); p.Some? && p.value.0 == []
  {
    EncodeAllMore(r, rs, END);
    ParseRecord(r, EncodeAll(rs) + END);
  }

  lemma {:induction false} EncodeAllConcat(a: seq<Record>, b: seq<Record>)
    ensures EncodeAll(a + b) == EncodeAll(a) + EncodeAll(b)
  {
    if a == [] {
      assert a + b == b;
    } else {
      assert (a + b)[1..] == a[1..] + b;
      EncodeAllConcat(a[1..], b);
      assert EncodeAll(a + b) == EncodeAll(a) + EncodeAll(b);
    }
  }

  // ----- pipes

  /** A pipe, or an open file that is read from its start: the bytes that are
      still to be read. A read delivers the bytes it asks for. */
  class Pipe {
    var bytes: seq<Byte>

    constructor (s: seq<Byte>)
      ensures bytes == s
    {
      bytes := s;
    }

    method Write(s: seq<Byte>)
      modifies this
      ensures bytes == old(bytes) + s
    {
      bytes := bytes + s;
    }

    method Read(n: nat) returns (s: seq<Byte>)
      requires n <= |bytes|
      modifies this
      ensures s == old(bytes)[..n] && bytes == old(bytes)[n..]
    {
      s, bytes := bytes[..n], bytes[n..];
    }
  }

  /** Copies a chunk of the path into the buffer. */
  method FillBuffer(buffer: array<Byte>, path: seq<Byte>, from: nat, n: nat)
    requires n < buffer.Length && from + n <= |path|
    modifies buffer
    ensures buffer[..n] == path[from..from + n]
  {
    for i := 0 to n
      invariant buffer[..i] == path[from..from + i]
    {
      buffer[i] := path[i + from];
    }
  }

  /** Writes `length` bytes of the path in chunks. */
  method WritePath(pipe: Pipe, path: seq<Byte>, length: nat, maxBuffsize: nat)
    requires maxBuffsize > 0 && length <= |path|
    modifies pipe
    ensures pipe.bytes == old(pipe.bytes) + path[..length]
  {
    var buffer := new Byte[maxBuffsize + 1];
    var charsLeft, times := length, 0;
    while charsLeft >= maxBuffsize
      invariant 0 <= charsLeft && charsLeft + maxBuffsize * times == length
      invariant pipe.bytes == old(pipe.bytes) + path[..maxBuffsize * times]
      decreases charsLeft
    {
      FillBuffer(buffer, path, maxBuffsize * times, maxBuffsize);
      pipe.Write(buffer[..maxBuffsize]);
      assert maxBuffsize * (times + 1) == maxBuffsize * times + maxBuffsize;
      times, charsLeft := times + 1, charsLeft - maxBuffsize;
    }
    FillBuffer(buffer, path, maxBuffsize * times, charsLeft);
    pipe.Write(buffer[..charsLeft]);
  }

  /** Writes `size` bytes of an open file in chunks. */
  method WriteContents(pipe: Pipe, file: Pipe, size: nat, maxBuffsize: nat)
    requires maxBuffsize > 0 && size <= |file.bytes| && pipe != file
    modifies pipe, file
    ensures pipe.bytes == old(pipe.bytes) + old(file.bytes)[..size]
  {
    var remaining := size;
    while remaining >= maxBuffsize
      invariant 0 <= remaining <= size
      invariant file.bytes == old(file.bytes)[size - remaining..]
      invariant pipe.bytes == old(pipe.bytes) + old(file.bytes)[..size - remaining]
    {
      var buffer := file.Read(maxBuffsize);
      pipe.Write(buffer);
      remaining := remaining - maxBuffsize;
    }
    var buffer := file.Read(remaining);
    pipe.Write(buffer);
  }

  /** Writes the record of one file, or of an empty directory. */
  method SyncSendFile(pipe: Pipe, r: Record, maxBuffsize: nat)
    requires maxBuffsize > 0
    modifies pipe
    ensures pipe.bytes == old(pipe.bytes) + Encode(r)
  {
    var length := |r.path| % SHORT;
    pipe.Write(Bytes(length, 2));
    WritePath(pipe, r.path, length, maxBuffsize);
    var fileSize := |r.data| % UNSIGNED;
    pipe.Write(Bytes(fileSize, 4));
    if fileSize != 0 {
      var file := new Pipe(r.data);
      WriteContents(pipe, file, fileSize, maxBuffsize);
    }
  }

  /** Reads `length` bytes of a path in chunks into a new string. */
  method ReadPath(pipe: Pipe, length: nat, maxBuffsize: nat) returns (path: seq<Byte>)
    requires maxBuffsize > 0 && length <= |pipe.bytes|
    modifies pipe
    ensures path == old(pipe.bytes)[..length] && pipe.bytes == old(pipe.bytes)[length..]
  {
    var text := new Byte[length + 1];
    var remaining, times := length, 0;
    while remaining >= maxBuffsize
      invariant 0 <= remaining && remaining + maxBuffsize * times == length
      invariant pipe.bytes == old(pipe.bytes)[maxBuffsize * times..]
      invariant text[..maxBuffsize * times] == old(pipe.bytes)[..maxBuffsize * times]
      decreases remaining
    {
      var buffer := pipe.Read(maxBuffsize);
      CopyBuffer(text, buffer, maxBuffsize * times);
      assert maxBuffsize * (times + 1) == maxBuffsize * times + maxBuffsize;
      remaining, times := remaining - maxBuffsize, times + 1;
    }
    var buffer := pipe.Read(remaining);
    CopyBuffer(text, buffer, maxBuffsize * times);
    text[length] := 0;
    path := text[..length];
  }

  /** Copies the buffer into the string from place `from` on. */
  method CopyBuffer(text: array<Byte>, buffer: seq<Byte>, from: nat)
    requires from + |buffer| <= text.Length
    modifies text
    ensures text[..from + |buffer|] == old(text[..from]) + buffer
  {
    for i := 0 to |buffer|
      invariant text[..from + i] == old(text[..from]) + buffer[..i]
    {
      text[i + from] := buffer[i];
    }
  }
}
