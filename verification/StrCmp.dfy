/** The order of C strings, and fresh transaction identifiers. */
module StrCmp {
  import opened Words
  import opened Transactions

  /** strcmp(a, b) < 0. */
  predicate Less(a: Id, b: Id) {
    b != [] && (a == [] || a[0] < b[0] || (a[0] == b[0] && Less(a[1..], b[1..])))
  }

  lemma {:induction false} LessTransitive(a: Id, b: Id, c: Id)
    requires Less(a, b) && Less(b, c)
    ensures Less(a, c)
  {
    if a != [] && a[0] == b[0] && b[0] == c[0] {
      LessTransitive(a[1..], b[1..], c[1..]);
    }
  }

  /** Exactly one of less, equal and greater. */
  lemma {:induction false} LessTotal(a: Id, b: Id)
    ensures Less(a, b) <==> !(a == b || Less(b, a))
  {
    if a != [] && b != [] && a[0] == b[0] {
      LessTotal(a[1..], b[1..]);
      assert a == [a[0]] + a[1..] && b == [b[0]] + b[1..];
    }
  }

  lemma {:induction false} LessAfterPrefix(p: Id, a: Id, b: Id)
    requires Less(a, b)
    ensures Less(p + a, p + b)
  {
    if p == [] {
      assert p + a == a && p + b == b;
    } else {
      LessAfterPrefix(p[1..], a, b);
      assert (p + a)[1..] == p[1..] + a && (p + b)[1..] == p[1..] + b;
    }
  }

  /** `a` and `b` differ first at place `k`, where `a` ends or has the smaller
      character. */
  predicate FirstDifference(a: Id, b: Id, k: nat) {
    k <= |a| && k < |b| && a[..k] == b[..k] && (k == |a| || a[k] < b[k])
  }

  lemma DiffersLater(a: Id, b: Id, k: nat)
    requires FirstDifference(a, b, k)
    ensures k > 0 ==> a != [] && b != [] && a[0] == b[0]
  {
    if k > 0 {
      assert a[..k][0] == b[..k][0];
    }
  }

  /** The order of strcmp: the first difference decides. */
  lemma {:induction false} LessIff(a: Id, b: Id)
    ensures Less(a, b) <==> exists k :: FirstDifference(a, b, k)
  {
    if a == [] || b == [] || a[0] != b[0] {
      if Less(a, b) { assert FirstDifference(a, b, 0); }
      forall k: nat | FirstDifference(a, b, k) ensures Less(a, b) {
        DiffersLater(a, b, k);
      }
    } else {
      LessIff(a[1..], b[1..]);
      forall k: nat | FirstDifference(a, b, k) ensures FirstDifference(a[1..], b[1..], k - 1) {
        assert a[1..][..k - 1] == a[..k][1..] && b[1..][..k - 1] == b[..k][1..];
      }
      forall k: nat | FirstDifference(a[1..], b[1..], k) ensures FirstDifference(a, b, k + 1) {
        assert a[..k + 1] == [a[0]] + a[1..][..k] && b[..k + 1] == [b[0]] + b[1..][..k];
      }
    }
  }

  // ----- fresh identifiers

  const ID_SIZE: nat := 15

  /** Identifiers that fit the buffer: at most 14 printable characters. */
  predicate Fits(s: Id) {
    |s| < ID_SIZE && forall i :: 0 <= i < |s| ==> ' ' <= s[i] <= '~'
  }

  function Tildes(s: Id): (k: nat)
    ensures k <= |s| && (forall i :: 0 <= i < k ==> s[i] == '~') && (k < |s| ==> s[k] != '~')
  {
    if s != [] && s[0] == '~' then 1 + Tildes(s[1..]) else 0
  }

  /** The identifier after `s`: the first character that is not a tilde is
      raised, or a zero appended; none if only tildes fill the buffer. */
  function NextID(s: Id): Option<Id> {
    var k := Tildes(s);
    if k + 1 >= ID_SIZE then None
    else if k == |s| then Some(s + ['0'])
    else if s[k] < '0' then Some(s[k := '0'])
    else Some(s[k := ((s[k] as int + 1) % 128) as char])
  }

  /** A new identifier is strictly greater than the last one, and fits too. */
  lemma NextIDGreater(s: Id)
    requires Fits(s) && NextID(s).Some?
    ensures Less(s, NextID(s).value) && Fits(NextID(s).value)
  {
    var k := Tildes(s);
    var t := NextID(s).value;
    var a, b := s[k..], t[k..];
    assert s == s[..k] + a && t == s[..k] + b;
    assert k < |s| ==> a[0] == s[k] && a[0] < b[0];
    LessAfterPrefix(s[..k], a, b);
  }

  /** There is none exactly when 14 tildes have been reached. */
  lemma NextIDNoneIff(s: Id)
    requires Fits(s)
    ensures NextID(s) == None <==> s == seq(14, i => '~')
  {
    assert Tildes(s) == ID_SIZE - 1 ==> s == seq(ID_SIZE - 1, i => '~');
  }

  lemma {:induction false} TildesOf(k: nat, rest: Id)
    requires rest != [] ==> rest[0] != '~'
    ensures Tildes(seq(k, _ => '~') + rest) == k
  {
    var s := seq(k, _ => '~') + rest;
    if k == 0 {
      assert s == rest;
    } else {
      assert s[1..] == seq(k - 1, _ => '~') + rest;
      TildesOf(k - 1, rest);
    }
  }

  /** Behind the leading tildes one character is raised by one, or a zero put for
      it or appended; all others stay. */
  lemma NextIDRaises(k: nat, c: char, rest: Id)
    requires k < 14 && '0' <= c < '~'
    ensures NextID(seq(k, _ => '~') + [c] + rest) == Some(seq(k, _ => '~') + [(c as int + 1) as char] + rest)
  {
    var t := seq(k, _ => '~');
    TildesOf(k, [c] + rest);
    assert t + [c] + rest == t + ([c] + rest);
    assert (t + [c] + rest)[k := (c as int + 1) as char] == t + [(c as int + 1) as char] + rest;
  }

  lemma NextIDStarts(k: nat, c: char, rest: Id)
    requires k < 14
    ensures NextID(seq(k, _ => '~')) == Some(seq(k, _ => '~') + ['0'])
    ensures c < '0' ==> NextID(seq(k, _ => '~') + [c] + rest) == Some(seq(k, _ => '~') + ['0'] + rest)
  {
    var t := seq(k, _ => '~');
    TildesOf(k, []);
    assert t + [] == t;
    if c < '0' {
      TildesOf(k, [c] + rest);
      assert t + [c] + rest == t + ([c] + rest);
      assert (t + [c] + rest)[k := '0'] == t + ['0'] + rest;
    }
  }

  // ----- how many identifiers there are

  /** The `n`-th identifier after `s`, if there are so many. */
  function NthID(s: Id, n: nat): Option<Id> {
    if n == 0 then Some(s)
    else
      var t := NthID(s, n - 1);
      if t.None? then None else NextID(t.value)
  }

  /** How many characters can follow at a place: from the one after it, or from
      zero, up to the tilde. */
  function RoomAt(s: Id, i: nat): (n: nat) {
    if i >= |s| || s[i] < '0' then 79 else if s[i] <= '~' then 126 - s[i] as int else 0
  }

  function RoomFrom(s: Id, i: nat): nat
    decreases 14 - i
  {
    if i >= 14 then 0 else RoomAt(s, i) + RoomFrom(s, i + 1)
  }

  lemma {:induction false} RoomElsewhere(s: Id, t: Id, i: nat)
    requires forall j :: i <= j < 14 ==> RoomAt(t, j) == RoomAt(s, j)
    ensures RoomFrom(t, i) == RoomFrom(s, i)
    decreases 14 - i
  {
    if i < 14 {
      RoomElsewhere(s, t, i + 1);
    }
  }

  lemma {:induction false} RoomLess(s: Id, t: Id, i: nat, k: nat)
    requires i <= k < 14 && RoomAt(t, k) + 1 == RoomAt(s, k)
    requires forall j :: 0 <= j < 14 && j != k ==> RoomAt(t, j) == RoomAt(s, j)
    ensures RoomFrom(t, i) + 1 == RoomFrom(s, i)
    decreases 14 - i
  {
    if i == k {
      RoomElsewhere(s, t, i + 1);
    } else {
      RoomLess(s, t, i + 1, k);
    }
  }

  lemma {:induction false} NoRoom(s: Id, i: nat)
    requires forall j :: i <= j < 14 ==> RoomAt(s, j) == 0
    ensures RoomFrom(s, i) == 0
    decreases 14 - i
  {
    if i < 14 {
      NoRoom(s, i + 1);
    }
  }

  /** Each identifier leaves room for one less. */
  lemma NextIDTakesOne(s: Id)
    requires Fits(s)
    ensures match NextID(s)
      case None => RoomFrom(s, 0) == 0
      case Some(t) => Fits(t) && RoomFrom(t, 0) + 1 == RoomFrom(s, 0)
  {
    var k := Tildes(s);
    if k == 14 {
      NoRoom(s, 0);
    } else {
      NextIDGreater(s);
      RoomLess(s, NextID(s).value, 0, k);
    }
  }

  /** From identifier `s` on there are exactly as many as there is room for. */
  lemma {:induction false} NthIDIff(s: Id, n: nat)
    requires Fits(s)
    ensures NthID(s, n).Some? <==> n <= RoomFrom(s, 0)
    ensures NthID(s, n).Some? ==> Fits(NthID(s, n).value) && RoomFrom(NthID(s, n).value, 0) + n == RoomFrom(s, 0)
  {
    if n > 0 {
      NthIDIff(s, n - 1);
      if NthID(s, n - 1).Some? {
        NextIDTakesOne(NthID(s, n - 1).value);
      }
    }
  }

  lemma {:induction false} RoomOfNothing(i: nat)
    requires i <= 14
    ensures RoomFrom([], i) == 79 * (14 - i)
    decreases 14 - i
  {
    if i < 14 {
      RoomOfNothing(i + 1);
    }
  }

  /** A program that loads nothing can make 1106 transactions, and not one more. */
  lemma IDsFromNothing(n: nat)
    ensures NthID([], n).Some? <==> n <= 1106
  {
    RoomOfNothing(0);
    NthIDIff([], n);
  }

  /** The C string in a buffer: what comes before the first zero. */
  function CString(b: seq<char>): Id {
    if b == [] || b[0] == '\0' then [] else [b[0]] + CString(b[1..])
  }

  lemma {:induction false} CStringPadded(s: Id, b: seq<char>)
    requires |s| < |b| && b[..|s|] == s && b[|s|] == '\0' && forall i :: 0 <= i < |s| ==> s[i] != '\0'
    ensures CString(b) == s
  {
    if s != [] {
      assert b[0] == s[0] && b[1..][..|s| - 1] == s[1..];
      CStringPadded(s[1..], b[1..]);
      assert s == [s[0]] + s[1..];
    }
  }

  /** Looks for the next identifier in a zero-filled copy of the last one. */
  method NewID(maxID: Id) returns (r: Option<Id>)
    requires Fits(maxID)
    ensures r == NextID(maxID)
  {
    var buffer := new char[ID_SIZE](i => if 0 <= i < |maxID| then maxID[i] else '\0');
    var index := 0;
    CStringPadded(maxID, buffer[..]);
    while CString(buffer[..]) == maxID
      invariant 0 <= index < ID_SIZE && index <= Tildes(maxID)
      invariant
        || (CString(buffer[..]) == maxID
            && forall i :: 0 <= i < ID_SIZE ==> buffer[i] == if i < |maxID| then maxID[i] else '\0')
        || (CString(buffer[..]) != maxID && Some(CString(buffer[..])) == NextID(maxID))
      decreases ID_SIZE - index, CString(buffer[..]) == maxID
    {
      if index == ID_SIZE - 1 {
        return None;
      } else if buffer[index] < '0' {
        buffer[index] := '0';
        Changed(maxID, index, buffer[..]);
      } else if buffer[index] < '~' {
        buffer[index] := (buffer[index] as int + 1) as char;
        Changed(maxID, index, buffer[..]);
      } else {
        index := index + 1;
      }
    }
    r := Some(CString(buffer[..]));
  }

  /** The buffer with the first character that is not a tilde raised holds the
      next identifier. */
  lemma Changed(s: Id, k: nat, b: seq<char>)
    requires Fits(s) && |b| == ID_SIZE && k == Tildes(s) < ID_SIZE - 1
    requires forall i :: 0 <= i < ID_SIZE && i != k ==> b[i] == if i < |s| then s[i] else '\0'
    requires if k < |s| && s[k] >= '0' then b[k] as int == s[k] as int + 1 else b[k] == '0'
    ensures Some(CString(b)) == NextID(s) && CString(b) != s
  {
    var t := NextID(s).value;
    assert b[..|t|] == t;
    CStringPadded(t, b);
    NextIDGreater(s);
    LessTotal(s, t);
  }
}
