/** The chained-bucket hash table that keeps, for each wallet, the list of its
    transactions. */
module HashTables {
  import opened Words
  import opened Transactions
  import opened Searches

  /** One entry of a wallet's transaction list: the transaction and the wallet
      on its other side. */
  datatype Record = Record(transaction: Transaction, other: Id)

  // ----- the hash

  /** The value of a C char, which is signed. */
  function CharValue(c: char): int {
    var b := c as int % 256;
    if b < 128 then b else b - 256
  }

  /** The polynomial that the hash evaluates, without wrapping. */
  function Polynomial(s: Id): int {
    if s == [] then 5381 else 33 * Polynomial(s[..|s| - 1]) + CharValue(s[|s| - 1])
  }

  function Hash(s: Id, numOfEntries: nat): (slot: nat)
    requires numOfEntries > 0
    ensures slot < numOfEntries
  {
    (Polynomial(s) % WORD) % numOfEntries
  }

  /** A signed byte that is the character modulo 256. */
  lemma CharValueIs(c: char)
    ensures -128 <= CharValue(c) < 128 && (CharValue(c) - c as int) % 256 == 0
  {
  }

  function Power33(n: nat): nat {
    if n == 0 then 1 else 33 * Power33(n - 1)
  }

  /** The hash of a text from that of its beginning: every character shifts what
      came before by a factor of 33, and 5381 stands before the first one. */
  lemma {:induction false} PolynomialJoin(a: Id, b: Id)
    ensures Polynomial(a + b) == (Polynomial(a) - 5381) * Power33(|b|) + Polynomial(b)
  {
    if b == [] {
      assert a + b == a;
    } else {
      var d := b[..|b| - 1];
      assert (a + b)[..|a + b| - 1] == a + d;
      PolynomialJoin(a, d);
      assert (Polynomial(a) - 5381) * Power33(|b|) == 33 * ((Polynomial(a) - 5381) * Power33(|d|));
    }
  }

  lemma PolynomialOfOne(c: char)
    ensures Polynomial([c]) == 177573 + CharValue(c)
  {
    assert [c][..0] == [];
  }

  lemma WrapStep(h: int, c: int)
    ensures (33 * (h % WORD) + c) % WORD == (33 * h + c) % WORD
  {
    var q := h / WORD;
    assert 33 * h + c == 33 * (h % WORD) + c + (33 * q) * WORD;
  }

  /** The loop wraps at every step, and the result is the wrapped polynomial. */
  method Djb2Hash(ID: Id, numOfEntries: nat) returns (slot: nat)
    requires numOfEntries > 0
    ensures slot == Hash(ID, numOfEntries)
  {
    var hash: Word := 5381;
    for i := 0 to |ID|
      invariant hash == Polynomial(ID[..i]) % WORD
    {
      assert ID[..i + 1][..i] == ID[..i];
      WrapStep(Polynomial(ID[..i]), CharValue(ID[i]));
      hash := (33 * hash + CharValue(ID[i])) % WORD;
    }
    assert ID[..|ID|] == ID;
    slot := hash % numOfEntries;
  }

  // ----- lists and items

  class TransList {
    const thisTrans: Transaction
    const sourceDestWallet: Id
    ghost const holder: Id  // the wallet whose list this cell is made for
    ghost const index: nat  // and its place in that list
    var previous: TransList?
    var next: TransList?

    constructor (t: Transaction, other: Id, prev: TransList?, ghost wallet: Id, ghost i: nat)
      ensures thisTrans == t && sourceDestWallet == other && previous == prev && next == null
      ensures holder == wallet && index == i
    {
      thisTrans, sourceDestWallet, previous, next, holder, index := t, other, prev, null, wallet, i;
    }
  }

  /** The cells belong to the wallet and link each other in order; the last
      one points to `end`. */
  ghost predicate Chained(cells: seq<TransList>, wallet: Option<Id>, end: TransList?)
    reads cells
  {
    && (forall i {:trigger cells[i].holder} {:trigger cells[i].index} ::
          0 <= i < |cells| ==> wallet == Some(cells[i].holder) && cells[i].index == i)
    && (forall i {:trigger cells[i].previous} ::
          0 <= i < |cells| ==> cells[i].previous == if i == 0 then null else cells[i - 1])
    && (forall i {:trigger cells[i].next} ::
          0 <= i < |cells| ==> cells[i].next == if i == |cells| - 1 then end else cells[i + 1])
  }

  lemma ChainedMore(cells: seq<TransList>, wallet: Id, cell: TransList)
    requires cells != [] && Chained(cells, Some(wallet), cell)
    requires cell.holder == wallet && cell.index == |cells| && cell.previous == cells[|cells| - 1] && cell.next == null
    ensures Chained(cells + [cell], Some(wallet), null)
  {
  }

  /** Links a cell behind the last one. */
  method LinkCell(last: TransList, cell: TransList, ghost cells: seq<TransList>, ghost wallet: Id)
    requires cells != [] && Chained(cells, Some(wallet), null) && last == cells[|cells| - 1] && cell !in cells
    modifies last`next
    ensures Chained(cells, Some(wallet), cell)
  {
    assert forall i :: 0 <= i < |cells| - 1 ==> cells[i].index != last.index;
    last.next := cell;
  }

  class HashedItem {
    var first: TransList?
    var last: TransList?
    var walletID: Option<Id>
    var nextItem: HashedItem?
    ghost var cells: seq<TransList>
    ghost var records: seq<Record>  // what the cells say
    ghost const pos: nat  // the place of this item in its chain

    constructor (ghost k: nat)
      ensures pos == k
    {
      pos := k;
    }

    ghost function Repr(): set<TransList>
      reads this`cells
    {
      set c | c in cells
    }

    ghost predicate Blank()
      reads this`first, this`last, this`cells, this`records
    {
      cells == [] && records == [] && first == null && last == null
    }

    /** first, last, previous and next link exactly the cells, in order; an item
        without a wallet has none. */
    ghost predicate Valid()
      reads this`walletID, this`first, this`last, this`cells, this`records, Repr()
    {
      && (walletID.None? ==> cells == [])
      && first == (if cells == [] then null else cells[0])
      && last == (if cells == [] then null else cells[|cells| - 1])
      && Chained(cells, walletID, null)
      && |records| == |cells|
      && (forall i :: 0 <= i < |cells| ==> records[i] == Record(cells[i].thisTrans, cells[i].sourceDestWallet))
    }

    /** Makes the record empty, with this record behind it. */
    method Clear(next: HashedItem?)
      modifies this
      ensures walletID.None? && Blank() && nextItem == next
    {
      first, last, walletID, nextItem := null, null, None, next;
      cells, records := [], [];
    }

    /** Starts an empty list. */
    method AppendFirst(other: Id, t: Transaction) returns (trans: TransList)
      requires Valid() && walletID.Some? && first == null
      modifies this`first, this`last, this`cells, this`records
      ensures Valid() && records == old(records) + [Record(t, other)]
      ensures fresh(trans) && Repr() == old(Repr()) + {trans}
    {
      trans := new TransList(t, other, null, walletID.value, 0);
      first, last := trans, trans;
      cells, records := cells + [trans], records + [Record(t, other)];
    }

    /** Appends behind the last cell. */
    method AppendBehind(other: Id, t: Transaction) returns (trans: TransList)
      requires Valid() && walletID.Some? && first != null
      modifies this`last, this`cells, this`records, Repr()
      ensures Valid() && records == old(records) + [Record(t, other)]
      ensures fresh(trans) && Repr() == old(Repr()) + {trans}
    {
      trans := new TransList(t, other, last, walletID.value, |cells|);
      LinkCell(last, trans, cells, walletID.value);
      ChainedMore(cells, walletID.value, trans);
      last := trans;
      cells, records := cells + [trans], records + [Record(t, other)];
    }

    /** Appends to the list of an item. */
    method Append(other: Id, t: Transaction) returns (trans: TransList)
      requires Valid() && walletID.Some?
      modifies this`first, this`last, this`cells, this`records, Repr()
      ensures Valid() && records == old(records) + [Record(t, other)]
      ensures fresh(trans) && Repr() == old(Repr()) + {trans}
    {
      if first == null {
        trans := AppendFirst(other, t);
      } else {
        trans := AppendBehind(other, t);
      }
    }
  }

  // ----- buckets and chains

  const ITEM_SIZE: nat := 32

  /** `items` lists the records in `all` by their places, from `from` on. */
  ghost predicate Ordered(items: seq<HashedItem>, all: set<HashedItem>, from: nat) {
    && (forall k {:trigger items[k].pos} :: 0 <= k < |items| ==> items[k] in all && items[k].pos == from + k)
    && (forall i :: i in all ==> from <= i.pos < from + |items| && items[i.pos - from] == i)
  }

  /** Each record in `all` points to the next one in `items`. */
  ghost predicate Links(items: seq<HashedItem>, all: set<HashedItem>, from: nat)
    requires Ordered(items, all, from)
    reads all`nextItem
  {
    forall i :: i in all ==>
      i.nextItem == if i.pos == from + |items| - 1 then null else items[i.pos - from + 1]
  }

  /** The first |names| records have these wallets, the others none. */
  ghost predicate Named(all: set<HashedItem>, names: seq<Id>)
    reads all`walletID
  {
    forall i :: i in all ==> i.walletID == if i.pos < |names| then Some(names[i.pos]) else None
  }

  lemma OrderedConcat(a: seq<HashedItem>, s: set<HashedItem>, b: seq<HashedItem>, t: set<HashedItem>)
    requires Ordered(a, s, 0) && Ordered(b, t, |a|)
    ensures Ordered(a + b, s + t, 0) && s !! t
  {
    forall k | 0 <= k < |a + b| ensures (a + b)[k] in s + t && (a + b)[k].pos == k {
      if k < |a| { assert a[k].pos == k; } else { assert b[k - |a|].pos == k; }
    }
  }

  lemma LinksConcat(a: seq<HashedItem>, s: set<HashedItem>, b: seq<HashedItem>, t: set<HashedItem>)
    requires Ordered(a, s, 0) && Ordered(b, t, |a|) && b != [] && Ordered(a + b, s + t, 0)
    requires forall i :: i in s ==> i.nextItem == if i.pos == |a| - 1 then b[0] else a[i.pos + 1]
    requires Links(b, t, |a|)
    ensures Links(a + b, s + t, 0)
  {
  }

  /** The memory of one bucket: its records, not yet initialized. */
  method AllocateRecords(numOfRecords: nat, ghost from: nat) returns (hi: seq<HashedItem>)
    ensures |hi| == numOfRecords && fresh(hi)
    ensures forall k :: 0 <= k < |hi| ==> hi[k].pos == from + k
    ensures forall j, k :: 0 <= j < k < |hi| ==> hi[j] != hi[k]
  {
    hi := [];
    while |hi| < numOfRecords
      invariant |hi| <= numOfRecords && fresh(hi)
      invariant forall k :: 0 <= k < |hi| ==> hi[k].pos == from + k
      invariant forall j, k :: 0 <= j < k < |hi| ==> hi[j] != hi[k]
    {
      var item := new HashedItem(from + |hi|);
      hi := hi + [item];
    }
  }

  /** A new bucket with room for at least one record: all of its records are
      empty and linked in order. */
  method NewBucket(bucketSize: nat, ghost from: nat)
      returns (bucket: HashedItem, ghost items: seq<HashedItem>, ghost all: set<HashedItem>)
    requires bucketSize >= ITEM_SIZE
    ensures |items| == bucketSize / 32 && bucket == items[0] && fresh(all) && bucket in all
    ensures Ordered(items, all, from) && Links(items, all, from)
    ensures forall i :: i in all ==> i.walletID.None? && i.Blank()
  {
    var numOfRecords := bucketSize / ITEM_SIZE;
    var hi := AllocateRecords(numOfRecords, from);
    var index := 0;
    while index < numOfRecords
      invariant 0 <= index <= numOfRecords == |hi| && fresh(hi)
      invariant forall k :: 0 <= k < |hi| ==> hi[k].pos == from + k
      invariant forall k {:trigger hi[k].nextItem} ::
        0 <= k < index ==> hi[k].nextItem == if k == |hi| - 1 then null else hi[k + 1]
      invariant forall k {:trigger hi[k].walletID} :: 0 <= k < index ==> hi[k].walletID.None? && hi[k].Blank()
    {
      ghost var item := hi[index];
      hi[index].Clear(if index == numOfRecords - 1 then null else hi[index + 1]);
      forall k | 0 <= k < index + 1
        ensures hi[k].nextItem == (if k == |hi| - 1 then null else hi[k + 1]) && hi[k].walletID.None? && hi[k].Blank()
      {
        if k < index {
          assert hi[k].pos == from + k;
          assert hi[k] != item;
        }
      }
      index := index + 1;
    }
    bucket, items, all := hi[0], hi, set i | i in hi;
    forall i | i in all ensures from <= i.pos < from + |hi| && hi[i.pos - from] == i && i.walletID.None? && i.Blank()
      && i.nextItem == if i.pos == from + |hi| - 1 then null else hi[i.pos - from + 1]
    {
      var k :| 0 <= k < |hi| && hi[k] == i;
      assert hi[k].pos == from + k && hi[k].walletID.None?;
      assert hi[k].nextItem == if k == |hi| - 1 then null else hi[k + 1];
    }
  }

  function ListOf(contents: map<Id, seq<Record>>, wallet: Id): seq<Record> {
    if wallet in contents then contents[wallet] else []
  }

  function Appended(contents: map<Id, seq<Record>>, wallet: Id, r: Record): map<Id, seq<Record>> {
    contents[wallet := ListOf(contents, wallet) + [r]]
  }

  /** The contents have lists for exactly the wallets named, each once. */
  ghost predicate NamesOK(names: seq<Id>, contents: map<Id, seq<Record>>) {
    && (forall j, k :: 0 <= j < k < |names| ==> names[j] != names[k])
    && (forall k :: 0 <= k < |names| ==> names[k] in contents)
    && (forall id :: id in contents ==> id in names)
  }

  lemma NamesKept(names: seq<Id>, contents: map<Id, seq<Record>>, id: Id, r: Record)
    requires NamesOK(names, contents) && id in names
    ensures NamesOK(names, Appended(contents, id, r))
  {
  }

  lemma NamesGrown(names: seq<Id>, contents: map<Id, seq<Record>>, id: Id)
    requires NamesOK(names, contents) && id !in names
    ensures NamesOK(names + [id], contents[id := []])
  {
  }

  /** The record holds the list that the contents have for its wallet. */
  ghost predicate Holds(item: HashedItem, contents: map<Id, seq<Record>>)
    reads item`walletID, item`first, item`last, item`cells, item`records, item.Repr()
  {
    item.Valid() && item.records == if item.walletID.Some? then ListOf(contents, item.walletID.value) else []
  }

  /** So many places are whole buckets of this size. */
  predicate Whole(places: nat, room: nat)
    requires room > 0
  {
    places > 0 ==> places >= room && Whole(places - room, room)
  }

  /** One slot of the table: a chain of buckets, with its records in order.
      `names` are the wallets of the filled ones, which come before all empty
      ones. */
  class Chain {
    const bucketSize: nat
    const bucket: HashedItem
    ghost var items: seq<HashedItem>
    ghost var all: set<HashedItem>
    ghost var names: seq<Id>
    ghost var contents: map<Id, seq<Record>>
    ghost var pool: set<TransList>

    /** The chain links its records in order, the first |names| are filled. */
    ghost predicate Linked(items: seq<HashedItem>, all: set<HashedItem>, names: seq<Id>)
      reads all`nextItem, all`walletID
    {
      && items != [] && bucket == items[0] && bucketSize >= ITEM_SIZE && |names| <= |items|
      && Ordered(items, all, 0) && Links(items, all, 0) && Named(all, names)
    }

    /** All records hold what the contents have for them. */
    ghost predicate AllHold(all: set<HashedItem>, contents: map<Id, seq<Record>>, pool: set<TransList>)
      reads all`walletID, all`first, all`last, all`cells, all`records, pool
    {
      forall item :: item in all ==> item.Repr() <= pool && Holds(item, contents)
    }

    /** There are whole buckets only, and no more than one that is not full. */
    ghost predicate Compact(places: nat, used: nat)
      requires bucketSize >= 32
    {
      Whole(places, bucketSize / 32) && places <= used + bucketSize / 32
    }

    ghost predicate Valid()
      reads this, all, pool
    {
      Linked(items, all, names) && Compact(|items|, |names|) && NamesOK(names, contents) && AllHold(all, contents, pool)
    }

    constructor (size: nat)
      requires size >= ITEM_SIZE
      ensures Valid() && contents == map[] && fresh(all) && pool == {} && bucketSize == size
    {
      bucketSize := size;
      var first: HashedItem;
      ghost var made, records;
      first, made, records := NewBucket(size, 0);
      bucket := first;
      items, all, names, contents, pool := made, records, [], map[], {};
    }

    /** Other records than `item` have other wallets and other lists. */
    lemma ItemsApart(item: HashedItem)
      requires Valid() && item in all
      ensures forall other :: other in all && other != item ==>
        other.Repr() !! item.Repr() && (other.walletID.Some? ==> other.walletID != item.walletID)
    {
      assert Holds(item, contents);
      assert forall c :: c in item.Repr() ==> item.walletID == Some(c.holder);
      forall other | other in all && other != item
        ensures other.Repr() !! item.Repr() && (other.walletID.Some? ==> other.walletID != item.walletID)
      {
        assert Holds(other, contents);
        assert forall c :: c in other.Repr() ==> other.walletID == Some(c.holder);
      }
    }

    /** Record `item`, for wallet `id`, has list `list`; the others hold what the
        contents have for them. */
    ghost predicate AllButOne(item: HashedItem, id: Id, list: seq<Record>, contents: map<Id, seq<Record>>, pool: set<TransList>)
      reads this`all, all, pool
    {
      && item in all && item.Repr() <= pool
      && item.Valid() && item.walletID == Some(id) && item.records == list
      && forall o :: o in all && o != item ==>
           o.Repr() <= pool && Holds(o, contents) && o.walletID != Some(id)
    }

    lemma Note(item: HashedItem, id: Id, r: Record, pool': set<TransList>)
      requires AllButOne(item, id, ListOf(contents, id) + [r], contents, pool')
      ensures AllHold(all, Appended(contents, id, r), pool')
    {
    }

    ghost method SetFields(s: seq<HashedItem>, a: set<HashedItem>, n: seq<Id>, c: map<Id, seq<Record>>, p: set<TransList>)
      requires AllHold(a, c, p)
      modifies this`items, this`all, this`names, this`contents, this`pool
      ensures items == s && all == a && names == n && contents == c && pool == p
      ensures AllHold(a, c, p)
    {
      items, all, names, contents, pool := s, a, n, c, p;
      forall o | o in a ensures o.Repr() <= p && Holds(o, c) {
        assert old(Holds(o, c));
      }
    }

    /** Notes what the chain has become. */
    ghost method Become(s: seq<HashedItem>, a: set<HashedItem>, n: seq<Id>, c: map<Id, seq<Record>>, p: set<TransList>)
      requires Linked(s, a, n) && Compact(|s|, |n|) && NamesOK(n, c) && AllHold(a, c, p)
      modifies this`items, this`all, this`names, this`contents, this`pool
      ensures Valid() && items == s && all == a && names == n && contents == c && pool == p
    {
      SetFields(s, a, n, c, p);
    }

    method AppendToItem(item: HashedItem, ghost id: Id, other: Id, t: Transaction)
        returns (trans: TransList, ghost pool': set<TransList>)
      requires Valid() && item in all && item.walletID == Some(id)
      modifies item`first, item`last, item`cells, item`records, item.Repr()
      ensures Linked(items, all, names)
      ensures AllButOne(item, id, ListOf(contents, id) + [Record(t, other)], contents, pool')
      ensures forall x :: x in pool' ==> x in pool || fresh(x)
    {
      ItemsApart(item);
      assert Holds(item, contents);
      trans := item.Append(other, t);
      pool' := pool + {trans};
      forall o | o in all && o != item ensures o.Repr() <= pool && Holds(o, contents) && o.walletID != Some(id) {
        assert old(Holds(o, contents));
      }
    }

    /** Appends to the list of a filled record. */
    method AppendAt(item: HashedItem, other: Id, t: Transaction) returns (trans: TransList)
      requires Valid() && item in all && item.walletID.Some? && item.walletID.value in names
      modifies this`items, this`all, this`names, this`contents, this`pool, item`first, item`last, item`cells, item`records, item.Repr()
      ensures Valid() && items == old(items) && all == old(all) && names == old(names)
      ensures (forall x :: x in pool ==> x in old(pool) || fresh(x))
      ensures contents == Appended(old(contents), item.walletID.value, Record(t, other))
    {
      ghost var id, r := item.walletID.value, Record(t, other);
      ghost var c := Appended(contents, id, r);
      NamesKept(names, contents, id, r);
      ghost var wider;
      trans, wider := AppendToItem(item, id, other, t);
      Note(item, id, r, wider);
      Become(items, all, names, c, wider);
    }

    method SetWallet(item: HashedItem, wallet: Id)
      requires AllHold(all, contents, pool) && item in all && item.walletID.None?
      requires forall o :: o in all ==> o.walletID != Some(wallet)
      modifies item`walletID
      ensures item.walletID == Some(wallet) && AllHold(all, contents[wallet := []], pool)
    {
      assert Holds(item, contents);
      item.walletID := Some(wallet);
      forall o | o in all ensures o.Repr() <= pool && Holds(o, contents[wallet := []]) {
        assert old(Holds(o, contents));
        assert o != item ==> o.walletID != Some(wallet);
      }
    }

    method ClaimItem(item: HashedItem, wallet: Id)
      requires Valid() && item in all && item.walletID.None? && item.pos == |names| && wallet !in names
      modifies item`walletID
      ensures Linked(items, all, names + [wallet]) && AllHold(all, contents[wallet := []], pool)
      ensures item.walletID == Some(wallet)
    {
      SetWallet(item, wallet);
    }

    /** Gives the first empty record its wallet. */
    method Claim(item: HashedItem, wallet: Id)
      requires Valid() && item in all && item.walletID.None? && item.pos == |names| && wallet !in names
      modifies this`items, this`all, this`names, this`contents, this`pool, item`walletID
      ensures items == old(items) && all == old(all) && pool == old(pool)
      ensures Valid() && contents == old(contents)[wallet := []] && item.walletID == Some(wallet) && wallet in names
    {
      NamesGrown(names, contents, wallet);
      ClaimItem(item, wallet);
      Become(items, all, names + [wallet], contents[wallet := []], pool);
    }

    /** Records of a new bucket hold nothing, and the old ones what they held. */
    lemma HoldMore(all: set<HashedItem>, records: set<HashedItem>)
      requires AllHold(all, contents, pool)
      requires forall i :: i in records ==> i.walletID.None? && i.Blank()
      ensures AllHold(all + records, contents, pool)
    {
    }

    method SetNext(last: HashedItem, item: HashedItem, ghost a: set<HashedItem>)
      requires AllHold(a, contents, pool)
      modifies last`nextItem
      ensures last.nextItem == item && AllHold(a, contents, pool)
    {
      last.nextItem := item;
      forall o | o in a ensures o.Repr() <= pool && Holds(o, contents) {
        assert old(Holds(o, contents));
      }
    }

    method LinkBehind(last: HashedItem, item: HashedItem, ghost made: seq<HashedItem>, ghost records: set<HashedItem>)
      requires Linked(items, all, names) && last in all && last.nextItem == null && |names| == |items|
      requires Ordered(made, records, |items|) && Links(made, records, |items|) && made != [] && made[0] == item
      requires AllHold(all + records, contents, pool) && forall i :: i in records ==> i.walletID.None?
      modifies last`nextItem
      ensures Linked(items + made, all + records, names) && AllHold(all + records, contents, pool)
    {
      OrderedConcat(items, all, made, records);
      assert last.pos == |items| - 1 && items[last.pos] == last;
      SetNext(last, item, all + records);
      forall i | i in all ensures i.nextItem == if i.pos == |items| - 1 then made[0] else items[i.pos + 1] {
        assert items[i.pos] == i;
      }
      LinksConcat(items, all, made, records);
    }

    /** A new bucket whose records hold nothing yet. */
    method MakeBucket() returns (item: HashedItem, ghost made: seq<HashedItem>, ghost records: set<HashedItem>)
      requires Valid() && |names| == |items|
      ensures Linked(items, all, names) && AllHold(all + records, contents, pool) && |made| == bucketSize / 32
      ensures Ordered(made, records, |items|) && Links(made, records, |items|) && made != [] && made[0] == item
      ensures fresh(records) && item in records && item.pos == |names|
      ensures forall i :: i in records ==> i.walletID.None?
    {
      item, made, records := NewBucket(bucketSize, |items|);
      assert made[0].pos == |items|;
      HoldMore(all, records);
    }

    method LinkBucket(last: HashedItem)
        returns (item: HashedItem, ghost made: seq<HashedItem>, ghost records: set<HashedItem>)
      requires Valid() && last in all && last.nextItem == null && |names| == |items|
      modifies last`nextItem
      ensures Linked(items + made, all + records, names) && AllHold(all + records, contents, pool)
      ensures |made| == bucketSize / 32
      ensures fresh(records) && item in records && item.walletID.None? && item.pos == |names|
    {
      item, made, records := MakeBucket();
      LinkBehind(last, item, made, records);
    }

    /** Links a new bucket behind the last record of a full chain. */
    method Extend(last: HashedItem) returns (item: HashedItem)
      requires Valid() && last in all && last.nextItem == null && |names| == |items|
      modifies this`items, this`all, this`names, this`contents, this`pool, last`nextItem
      ensures Valid() && item in all && item.walletID.None? && item.pos == |names|
      ensures names == old(names) && contents == old(contents) && pool == old(pool)
      ensures forall x :: x in all ==> x in old(all) || fresh(x)
    {
      ghost var made, records;
      item, made, records := LinkBucket(last);
      Become(items + made, all + records, names, contents, pool);
    }

    lemma ClaimThenAppend(wallet: Id, r: Record)
      requires wallet !in contents
      ensures Appended(contents[wallet := []], wallet, r) == Appended(contents, wallet, r)
    {
      assert contents[wallet := []][wallet := [r]] == contents[wallet := [r]];
    }

    method ClaimAndAppend(item: HashedItem, wallet: Id, other: Id, t: Transaction) returns (trans: TransList)
      requires Valid() && item in all && item.walletID.None? && item.pos == |names| && wallet !in names
      modifies this`items, this`all, this`names, this`contents, this`pool, item, pool
      ensures Valid() && all == old(all) && (forall x :: x in pool ==> x in old(pool) || fresh(x))
      ensures contents == Appended(old(contents), wallet, Record(t, other))
    {
      ClaimThenAppend(wallet, Record(t, other));
      Claim(item, wallet);
      trans := AppendAt(item, other, t);
    }

    /** Walks the chain to the wallet's record, to the first empty record, or to
        the last record of a full chain. */
    method Walk(wallet: Id) returns (tmpItem: HashedItem)
      requires Valid()
      ensures tmpItem in all
      ensures tmpItem.walletID == Some(wallet)
           || (wallet !in names && tmpItem.walletID.None? && tmpItem.pos == |names|)
           || (wallet !in names && tmpItem.walletID.Some? && tmpItem.nextItem == null && |names| == |items|)
      ensures tmpItem.walletID == Some(wallet) ==> wallet in names
    {
      tmpItem := bucket;
      assert items[0].pos == 0;
      while tmpItem.walletID.Some?
        invariant tmpItem in all && tmpItem.pos <= |names|
        invariant forall j :: 0 <= j < tmpItem.pos ==> names[j] != wallet
        decreases |items| - tmpItem.pos
      {
        if tmpItem.walletID.value == wallet || tmpItem.nextItem == null {
          return;
        }
        assert items[tmpItem.pos + 1].pos == tmpItem.pos + 1;
        tmpItem := tmpItem.nextItem;
      }
    }

    /** Appends to the wallet's list, and makes a record for it if it has none. */
    method AddTransaction(wallet: Id, other: Id, t: Transaction) returns (trans: TransList)
      requires Valid()
      modifies this, all, pool
      ensures Valid() && (forall x :: x in pool ==> x in old(pool) || fresh(x))
      ensures forall x :: x in all ==> x in old(all) || fresh(x)
      ensures contents == Appended(old(contents), wallet, Record(t, other))
    {
      var tmpItem := Walk(wallet);
      if tmpItem.walletID == Some(wallet) {
        trans := AppendAt(tmpItem, other, t);
      } else {
        if tmpItem.walletID.Some? {
          tmpItem := Extend(tmpItem);
        }
        trans := ClaimAndAppend(tmpItem, wallet, other, t);
      }
    }

    /** Looks a wallet up. A wallet that has no record may only be looked up
        where the search does not come across an empty record on its way. */
    method Find(wallet: Id) returns (item: HashedItem?)
      requires Valid() && (wallet in names || names == [] || |names| == |items|)
      ensures item == null <==> wallet !in contents
      ensures item != null ==> item in all && item.walletID == Some(wallet)
    {
      item := bucket;
      assert items[0].pos == 0;
      if item.walletID == None {
        return null;
      }
      while item.walletID.value != wallet
        invariant item in all && item.walletID.Some?
        invariant forall j :: 0 <= j < item.pos ==> names[j] != wallet
        decreases |items| - item.pos
      {
        if item.nextItem == null {
          return null;
        }
        assert items[item.pos + 1].pos == item.pos + 1;
        item := item.nextItem;
      }
    }
  }

  // ----- sums over a list

  function SumOf(s: seq<Record>, start: int, end: int): nat {
    if s == [] then 0
    else (if Selects(start, end, s[0].transaction.dateTime) then s[0].transaction.value else 0) + SumOf(s[1..], start, end)
  }

  lemma {:induction false} SumOfMore(s: seq<Record>, r: Record, start: int, end: int)
    ensures SumOf(s + [r], start, end)
         == SumOf(s, start, end) + if Selects(start, end, r.transaction.dateTime) then r.transaction.value else 0
  {
    if s == [] {
      assert s + [r] == [r];
    } else {
      assert (s + [r])[1..] == s[1..] + [r];
      SumOfMore(s[1..], r, start, end);
    }
  }

  // A search between two dates: a start on the second day of the epoch or later.

  lemma {:induction false} SumOfConcat(s: seq<Record>, more: seq<Record>, start: int, end: int)
    ensures SumOf(s + more, start, end) == SumOf(s, start, end) + SumOf(more, start, end)
  {
    if s == [] {
      assert s + more == more;
    } else {
      assert (s + more)[1..] == s[1..] + more;
      SumOfConcat(s[1..], more, start, end);
    }
  }

  /** The unrestricted sum is the sum of all values. */
  lemma SumOfOne(r: Record, end: int)
    ensures SumOf([], 0, end) == 0 && SumOf([r], 0, end) == r.transaction.value
  {
    assert [r][1..] == [];
  }

  /** What is dated at or before the start, or at or after the end, adds nothing. */
  lemma {:induction false} OutsideDates(s: seq<Record>, start: int, end: int)
    requires start < 0 || start >= 86400
    requires forall i :: 0 <= i < |s| ==> s[i].transaction.dateTime <= start || s[i].transaction.dateTime >= end
    ensures SumOf(s, start, end) == 0
  {
    if s != [] {
      OutsideDates(s[1..], start, end);
    }
  }

  /** What is dated strictly between them adds all of its value. */
  lemma {:induction false} WithinDates(s: seq<Record>, start: int, end: int)
    requires start < 0 || start >= 86400
    requires forall i :: 0 <= i < |s| ==> start < s[i].transaction.dateTime < end
    ensures SumOf(s, start, end) == SumOf(s, 0, 0)
  {
    if s != [] {
      WithinDates(s[1..], start, end);
    }
  }

  /** A size_t sum wraps: it is the true sum modulo the word. */
  lemma WrapSum(a: int, b: Word)
    ensures Add(a % WORD, b) == (a + b) % WORD
  {
    var q := a / WORD;
    assert a + b == (a % WORD + b) + q * WORD;
  }

  /** Sums those of a record's list that a search selects. */
  method SumRecords(item: HashedItem, start: int, end: int) returns (sum: Word)
    requires item.Valid()
    ensures sum == SumOf(item.records, start, end) % WORD
  {
    sum := 0;
    var currTrans := item.first;
    ghost var i := 0;
    while currTrans != null
      invariant 0 <= i <= |item.cells| && currTrans == if i == |item.cells| then null else item.cells[i]
      invariant sum == SumOf(item.records[..i], start, end) % WORD
      decreases |item.cells| - i
    {
      assert item.records[..i + 1] == item.records[..i] + [item.records[i]];
      SumOfMore(item.records[..i], item.records[i], start, end);
      if Selects(start, end, currTrans.thisTrans.dateTime) {
        WrapSum(SumOf(item.records[..i], start, end), currTrans.thisTrans.value);
        sum := Add(sum, currTrans.thisTrans.value);
      }
      assert item.cells[i].next == if i == |item.cells| - 1 then null else item.cells[i + 1];
      currTrans := currTrans.next;
      i := i + 1;
    }
    assert item.records[..i] == item.records;
  }

  // ----- the table

  /** Every wallet's list is in the slot that its hash selects. */
  ghost predicate InSlots(slots: seq<map<Id, seq<Record>>>, contents: map<Id, seq<Record>>) {
    && |slots| > 0
    && (forall k, id :: 0 <= k < |slots| && id in slots[k] ==>
          Hash(id, |slots|) == k && id in contents && contents[id] == slots[k][id])
    && (forall id :: id in contents ==> id in slots[Hash(id, |slots|)])
  }

  lemma InSlotsAppended(slots: seq<map<Id, seq<Record>>>, contents: map<Id, seq<Record>>, wallet: Id, r: Record)
    requires InSlots(slots, contents)
    ensures var h := Hash(wallet, |slots|);
      && ListOf(contents, wallet) == ListOf(slots[h], wallet)
      && InSlots(slots[h := Appended(slots[h], wallet, r)], Appended(contents, wallet, r))
  {
    var h := Hash(wallet, |slots|);
    if wallet in contents {
      assert wallet in slots[h];
    }
    assert ListOf(contents, wallet) == ListOf(slots[h], wallet);
  }

  /** Chains that hold nothing and share nothing, and all their records. */
  ghost predicate EmptyChains(made: seq<Chain>, all: set<HashedItem>)
    reads made, all
  {
    && (forall k :: 0 <= k < |made| ==>
          made[k].all <= all && made[k].pool == {} && made[k].contents == map[] && made[k].Valid())
    && (forall j, k :: 0 <= j < k < |made| ==> made[j] != made[k] && made[j].all !! made[k].all)
  }

  lemma OneMoreChain(made: seq<Chain>, all: set<HashedItem>, chain: Chain)
    requires EmptyChains(made, all) && chain !in made && chain.all !! all
    requires chain.pool == {} && chain.contents == map[] && chain.Valid()
    ensures EmptyChains(made + [chain], all + chain.all)
  {
  }

  class HashTable {
    const numOfEntries: nat
    const Table: seq<Chain>
    ghost var slots: seq<map<Id, seq<Record>>>
    ghost var contents: map<Id, seq<Record>>
    ghost var items: set<HashedItem>
    ghost var cells: set<TransList>

    /** Different chains share nothing. */
    ghost predicate Apart()
      reads Table
    {
      forall j, k :: 0 <= j < k < |Table| ==>
        Table[j] != Table[k] && Table[j].all !! Table[k].all && Table[j].pool !! Table[k].pool
    }

    ghost predicate ChainOK(k: nat, slot: map<Id, seq<Record>>)
      requires k < |Table|
      reads Table[k], Table[k].all, Table[k].pool
    {
      Table[k].Valid() && Table[k].contents == slot
    }

    ghost predicate ChainsOK(slots: seq<map<Id, seq<Record>>>)
      reads Table, items, cells
      reads this`items, this`cells
    {
      && |slots| == |Table|
      && (forall k :: 0 <= k < |Table| ==> Table[k].all <= items && Table[k].pool <= cells)
      && (forall k :: 0 <= k < |Table| ==> ChainOK(k, slots[k]))
    }

    ghost predicate Valid()
      reads this, Table, items, cells
    {
      Apart() && numOfEntries == |Table| && ChainsOK(slots) && InSlots(slots, contents)
    }

    /** A table whose slots are all empty. */
    constructor (entries: nat, size: nat)
      requires entries > 0 && size >= ITEM_SIZE
      ensures Valid() && contents == map[] && fresh(Table) && fresh(items) && cells == {}
    {
      var made: seq<Chain> := [];
      ghost var all: set<HashedItem> := {};
      while |made| < entries
        invariant |made| <= entries && fresh(made) && fresh(all) && EmptyChains(made, all)
      {
        var chain := new Chain(size);
        OneMoreChain(made, all, chain);
        made, all := made + [chain], all + chain.all;
      }
      numOfEntries, Table, items, cells, contents := entries, made, all, {}, map[];
      slots := seq(entries, _ => map[]);
      new;
      assert forall k :: 0 <= k < |Table| ==> ChainOK(k, slots[k]);
    }

    /** All chains but one: they are sound, apart, and made of `others`. */
    ghost predicate OthersOK(hash: nat, slots: seq<map<Id, seq<Record>>>, others: set<object>)
      reads others
    {
      && |slots| == |Table|
      && (forall k :: 0 <= k < |Table| && k != hash ==>
            Table[k] in others && Table[k].all <= others && Table[k].pool <= others && ChainOK(k, slots[k]))
      && (forall j, k :: 0 <= j < k < |Table| && j != hash && k != hash ==>
            Table[j] != Table[k] && Table[j].all !! Table[k].all && Table[j].pool !! Table[k].pool)
    }

    /** One chain shares nothing with the others. */
    ghost predicate Alone(hash: nat, others: set<object>)
      requires hash < |Table|
      reads Table[hash]
    {
      Table[hash] !in others && (forall x :: x in Table[hash].all ==> x !in others)
      && (forall x :: x in Table[hash].pool ==> x !in others)
    }

    ghost function Others(hash: nat): set<object>
      requires hash < |Table|
      reads Table
      reads this`items, this`cells
    {
      (set k | 0 <= k < |Table| && k != hash :: Table[k]) + (items - Table[hash].all) + (cells - Table[hash].pool)
    }

    lemma SetApart(hash: nat)
      requires Apart() && ChainsOK(slots) && hash < |Table|
      ensures OthersOK(hash, slots, Others(hash)) && Alone(hash, Others(hash))
    {
    }

    lemma PutTogether(hash: nat, slots: seq<map<Id, seq<Record>>>, others: set<object>)
      requires hash < |Table| && OthersOK(hash, slots, others) && Alone(hash, others) && ChainOK(hash, slots[hash])
      ensures Apart() && forall k :: 0 <= k < |Table| ==> ChainOK(k, slots[k])
    {
    }

    /** Adds to one chain; the others stay as they are. */
    method AddToOne(hash: nat, ghost slots': seq<map<Id, seq<Record>>>, ghost others: set<object>,
                    wallet: Id, other: Id, t: Transaction)
        returns (trans: TransList)
      requires |slots| == |Table| && hash < |Table| && ChainOK(hash, slots[hash])
      requires slots' == slots[hash := Appended(slots[hash], wallet, Record(t, other))]
      requires OthersOK(hash, slots, others) && Alone(hash, others)
      modifies Table[hash], Table[hash].all, Table[hash].pool
      ensures OthersOK(hash, slots, others) && Alone(hash, others) && ChainOK(hash, slots'[hash])
      ensures forall x :: x in Table[hash].all ==> x in old(Table[hash].all) || fresh(x)
      ensures forall x :: x in Table[hash].pool ==> x in old(Table[hash].pool) || fresh(x)
    {
      trans := Table[hash].AddTransaction(wallet, other, t);
    }

    lemma OthersSame(hash: nat, slots': seq<map<Id, seq<Record>>>, others: set<object>)
      requires OthersOK(hash, slots, others) && |slots'| == |slots| && hash < |slots|
      requires slots' == slots[hash := slots'[hash]]
      ensures OthersOK(hash, slots', others)
    {
    }

    /** Adds to one chain, and all are sound and apart again. */
    method AddAndJoin(hash: nat, ghost slots': seq<map<Id, seq<Record>>>, wallet: Id, other: Id, t: Transaction)
        returns (trans: TransList)
      requires Apart() && ChainsOK(slots) && hash < |Table|
      requires slots' == slots[hash := Appended(slots[hash], wallet, Record(t, other))]
      modifies Table[hash], Table[hash].all, Table[hash].pool
      ensures Apart() && forall k :: 0 <= k < |Table| ==> ChainOK(k, slots'[k])
      ensures forall x :: x in Table[hash].all ==> x in old(Table[hash].all) || fresh(x)
      ensures forall x :: x in Table[hash].pool ==> x in old(Table[hash].pool) || fresh(x)
    {
      SetApart(hash);
      ghost var others := Others(hash);
      trans := AddToOne(hash, slots', others, wallet, other, t);
      OthersSame(hash, slots', others);
      PutTogether(hash, slots', others);
    }

    method AddToChain(hash: nat, ghost slots': seq<map<Id, seq<Record>>>, wallet: Id, other: Id, t: Transaction)
        returns (trans: TransList)
      requires Apart() && ChainsOK(slots) && hash < |Table|
      requires slots' == slots[hash := Appended(slots[hash], wallet, Record(t, other))]
      modifies this`items, this`cells, Table, items, cells
      ensures Apart() && ChainsOK(slots')
      ensures forall x :: x in items ==> x in old(items) || fresh(x)
      ensures forall x :: x in cells ==> x in old(cells) || fresh(x)
    {
      trans := AddAndJoin(hash, slots', wallet, other, t);
      items, cells := items + Table[hash].all, cells + Table[hash].pool;
    }

    /** Notes what the table has become. */
    ghost method Become(s: seq<map<Id, seq<Record>>>, c: map<Id, seq<Record>>)
      requires Apart() && numOfEntries == |Table| && ChainsOK(s) && InSlots(s, c)
      modifies this`slots, this`contents
      ensures Valid() && slots == s && contents == c
    {
      slots, contents := s, c;
      assert ChainsOK(s);
    }

    /** Appends to the wallet's list. */
    method AddTransaction(wallet: Id, other: Id, t: Transaction) returns (trans: TransList)
      requires Valid()
      modifies this, Table, items, cells
      ensures Valid()
      ensures forall x :: x in items ==> x in old(items) || fresh(x)
      ensures forall x :: x in cells ==> x in old(cells) || fresh(x)
      ensures contents == Appended(old(contents), wallet, Record(t, other))
    {
      var hash := Djb2Hash(wallet, numOfEntries);
      ghost var r := Record(t, other);
      InSlotsAppended(slots, contents, wallet, r);
      ghost var s, c := slots[hash := Appended(slots[hash], wallet, r)], Appended(contents, wallet, r);
      trans := AddToChain(hash, s, wallet, other, t);
      Become(s, c);
    }

    /** The search for a wallet without a record does not come across an empty
        record. */
    ghost predicate Searchable(wallet: Id)
      requires numOfEntries == |Table| > 0
      reads Table
    {
      var chain := Table[Hash(wallet, numOfEntries)];
      wallet in chain.names || chain.names == [] || |chain.names| == |chain.items|
    }

    /** The sum of those transactions of a wallet that a search selects; nothing
        if the wallet has none. */
    method FindSum(wallet: Id, start: int, end: int) returns (sum: Option<Word>)
      requires Valid() && Searchable(wallet)
      ensures sum == if wallet in contents then Some(SumOf(contents[wallet], start, end) % WORD) else None
    {
      var hash := Djb2Hash(wallet, numOfEntries);
      assert ChainOK(hash, slots[hash]) && (wallet in slots[hash] <==> wallet in contents);
      var item := Table[hash].Find(wallet);
      if item == null { return None; }
      assert Holds(item, Table[hash].contents);
      var s := SumRecords(item, start, end);
      sum := Some(s);
    }
  }
}
