/** Sorting the wallets by identifier, and finding one by binary search. */
module MergeSorts {
  import opened Transactions
  import opened StrCmp
  import opened Wallets

  // ----- the specification

  /** Merging takes the right element unless the left one is smaller. */
  function Merged(a: seq<Wallet>, b: seq<Wallet>): seq<Wallet> {
    if a == [] then b
    else if b == [] then a
    else if Less(a[0].walletID, b[0].walletID) then [a[0]] + Merged(a[1..], b)
    else [b[0]] + Merged(a, b[1..])
  }

  function MergeSorted(s: seq<Wallet>): seq<Wallet> {
    if |s| <= 1 then s
    else
      var k := (|s| - 1) / 2 + 1;
      Merged(MergeSorted(s[..k]), MergeSorted(s[k..]))
  }

  predicate Sorted(s: seq<Wallet>) {
    forall i, j :: 0 <= i < j < |s| ==> !Less(s[j].walletID, s[i].walletID)
  }

  lemma {:induction false} MergedElements(a: seq<Wallet>, b: seq<Wallet>)
    ensures multiset(Merged(a, b)) == multiset(a) + multiset(b)
    ensures |Merged(a, b)| == |a| + |b|
  {
    if a != [] && b != [] {
      assert a == [a[0]] + a[1..] && b == [b[0]] + b[1..];
      if Less(a[0].walletID, b[0].walletID) {
        MergedElements(a[1..], b);
      } else {
        MergedElements(a, b[1..]);
      }
    }
  }

  /** Not less is transitive. */
  lemma NotLessTransitive(a: Id, b: Id, c: Id)
    requires !Less(b, a) && !Less(c, b)
    ensures !Less(c, a)
  {
    LessTotal(b, a);
    LessTotal(c, b);
    LessTotal(c, a);
    if Less(a, b) && Less(b, c) {
      LessTransitive(a, b, c);
    }
  }

  lemma SortedCons(x: Wallet, s: seq<Wallet>)
    requires Sorted(s) && forall y :: y in s ==> !Less(y.walletID, x.walletID)
    ensures Sorted([x] + s)
  {
  }

  /** Nothing in a sorted list is below what its first element is not below. */
  lemma NotBelow(x: Id, s: seq<Wallet>)
    requires Sorted(s) && (s != [] ==> !Less(s[0].walletID, x))
    ensures forall y :: y in s ==> !Less(y.walletID, x)
  {
    forall y | y in s ensures !Less(y.walletID, x) {
      var j :| 0 <= j < |s| && s[j] == y;
      if j > 0 { NotLessTransitive(x, s[0].walletID, y.walletID); }
    }
  }

  lemma InMerged(a: seq<Wallet>, b: seq<Wallet>)
    ensures forall y :: y in Merged(a, b) ==> y in a || y in b
  {
    MergedElements(a, b);
    forall y | y in Merged(a, b) ensures y in a || y in b {
      assert y in multiset(Merged(a, b));
    }
  }

  lemma SortedTail(s: seq<Wallet>)
    requires Sorted(s) && s != []
    ensures Sorted(s[1..]) && forall y :: y in s[1..] ==> !Less(y.walletID, s[0].walletID)
  {
    forall y | y in s[1..] ensures !Less(y.walletID, s[0].walletID) {
      var j :| 0 <= j < |s[1..]| && s[1..][j] == y;
      assert s[j + 1] == y;
    }
  }

  lemma {:induction false} MergedSorted(a: seq<Wallet>, b: seq<Wallet>)
    requires Sorted(a) && Sorted(b)
    ensures Sorted(Merged(a, b))
  {
    if a != [] && b != [] {
      if Less(a[0].walletID, b[0].walletID) {
        LessTotal(a[0].walletID, b[0].walletID);
        SortedTail(a);
        NotBelow(a[0].walletID, b);
        InMerged(a[1..], b);
        MergedSorted(a[1..], b);
        SortedCons(a[0], Merged(a[1..], b));
      } else {
        SortedTail(b);
        NotBelow(b[0].walletID, a);
        InMerged(a, b[1..]);
        MergedSorted(a, b[1..]);
        SortedCons(b[0], Merged(a, b[1..]));
      }
    }
  }

  lemma Halves(s: seq<Wallet>, k: nat)
    requires k <= |s|
    ensures multiset(s) == multiset(s[..k]) + multiset(s[k..])
  {
    assert s == s[..k] + s[k..];
  }

  /** Sorting yields a sorted permutation. */
  lemma {:induction false} MergeSortedIsSort(s: seq<Wallet>)
    ensures Sorted(MergeSorted(s)) && multiset(MergeSorted(s)) == multiset(s) && |MergeSorted(s)| == |s|
  {
    if |s| > 1 {
      var k := (|s| - 1) / 2 + 1;
      MergeSortedIsSort(s[..k]);
      MergeSortedIsSort(s[k..]);
      MergedSorted(MergeSorted(s[..k]), MergeSorted(s[k..]));
      MergedElements(MergeSorted(s[..k]), MergeSorted(s[k..]));
      Halves(s, k);
    }
  }

  /** All wallets have this identifier. */
  predicate AllNamed(s: seq<Wallet>, id: Id) {
    forall i :: 0 <= i < |s| ==> s[i].walletID == id
  }

  lemma FirstThenRest(b: seq<Wallet>, a: seq<Wallet>)
    requires b != []
    ensures [b[0]] + (b[1..] + a) == b + a
  {
  }

  lemma {:induction false} EqualsMerged(a: seq<Wallet>, b: seq<Wallet>, id: Id)
    requires AllNamed(a, id) && AllNamed(b, id)
    ensures Merged(a, b) == b + a
  {
    LessTotal(id, id);
    if a != [] && b != [] {
      EqualsMerged(a, b[1..], id);
      FirstThenRest(b, a);
    } else if a == [] {
      assert b + a == b;
    } else {
      assert b + a == a;
    }
  }

  /** The sort is as unstable as can be: it reverses wallets of one identifier. */
  lemma {:induction false} EqualsReversed(s: seq<Wallet>, id: Id, i: nat)
    requires AllNamed(s, id) && i < |s|
    ensures |MergeSorted(s)| == |s| && AllNamed(MergeSorted(s), id)
    ensures MergeSorted(s)[i] == s[|s| - 1 - i]
  {
    if |s| > 1 {
      var k := (|s| - 1) / 2 + 1;
      var a, b := s[..k], s[k..];
      EqualsReversed(a, id, if i < |b| then 0 else i - |b|);
      EqualsReversed(b, id, if i < |b| then i else 0);
      EqualsMerged(MergeSorted(a), MergeSorted(b), id);
    }
  }

  // ----- the algorithm

  /** Which element the merge takes next: the left one? */
  predicate TakesLeft(w: seq<Wallet>, i: nat, middle: nat, j: nat, end: nat)
    requires i <= middle + 1 <= j <= end + 1 <= |w| && (i <= middle || j <= end)
  {
    i <= middle && (j > end || Less(w[i].walletID, w[j].walletID))
  }

  /** What is still to be merged. */
  ghost function Rest(w: seq<Wallet>, i: nat, middle: nat, j: nat, end: nat): seq<Wallet>
    requires i <= middle + 1 <= j <= end + 1 <= |w|
  {
    Merged(w[i..middle + 1], w[j..end + 1])
  }

  lemma MergeStep(w: seq<Wallet>, i: nat, middle: nat, j: nat, end: nat)
    requires i <= middle + 1 <= j <= end + 1 <= |w| && (i <= middle || j <= end)
    ensures Rest(w, i, middle, j, end) ==
      if TakesLeft(w, i, middle, j, end) then [w[i]] + Rest(w, i + 1, middle, j, end)
      else [w[j]] + Rest(w, i, middle, j + 1, end)
  {
    var a, b := w[i..middle + 1], w[j..end + 1];
    assert i <= middle ==> a[0] == w[i] && a[1..] == w[i + 1..middle + 1];
    assert j <= end ==> b[0] == w[j] && b[1..] == w[j + 1..end + 1];
    if a == [] {
      assert Merged(a, b[1..]) == b[1..];
    } else if b == [] {
      assert Merged(a[1..], b) == a[1..];
    }
  }

  /** With `done` merged, the rest of the merge leads to `goal`. */
  ghost predicate LeadsTo(done: seq<Wallet>, w: seq<Wallet>, i: nat, middle: nat, j: nat, end: nat, goal: seq<Wallet>) {
    i <= middle + 1 <= j <= end + 1 <= |w| && done + Rest(w, i, middle, j, end) == goal
  }

  lemma Advance(done: seq<Wallet>, w: seq<Wallet>, i: nat, middle: nat, j: nat, end: nat, goal: seq<Wallet>)
    requires LeadsTo(done, w, i, middle, j, end, goal) && (i <= middle || j <= end)
    ensures var left := TakesLeft(w, i, middle, j, end);
      LeadsTo(done + [if left then w[i] else w[j]], w, if left then i + 1 else i, middle, if left then j else j + 1, end, goal)
  {
    MergeStep(w, i, middle, j, end);
    if TakesLeft(w, i, middle, j, end) {
      Regroup(done, w[i], Rest(w, i + 1, middle, j, end));
    } else {
      Regroup(done, w[j], Rest(w, i, middle, j + 1, end));
    }
  }

  lemma Begin(w: seq<Wallet>, i: nat, middle: nat, j: nat, end: nat)
    requires i <= middle + 1 <= j <= end + 1 <= |w|
    ensures LeadsTo([], w, i, middle, j, end, Rest(w, i, middle, j, end))
  {
    assert [] + Rest(w, i, middle, j, end) == Rest(w, i, middle, j, end);
  }

  lemma Finish(done: seq<Wallet>, w: seq<Wallet>, i: nat, middle: nat, j: nat, end: nat, goal: seq<Wallet>)
    requires LeadsTo(done, w, i, middle, j, end, goal) && i > middle && j > end
    ensures done == goal
  {
    assert Rest(w, i, middle, j, end) == [];
  }

  lemma Regroup(done: seq<Wallet>, x: Wallet, rest: seq<Wallet>)
    ensures done + ([x] + rest) == done + [x] + rest
  {
  }

  /** Puts the next wallet of the merge into its place. */
  method TakeNext(wallets: array<Wallet>, i: nat, middle: nat, j: nat, end: nat, scndWallets: array<Wallet>, k: nat)
      returns (i': nat, j': nat)
    requires i <= middle + 1 <= j <= end + 1 <= wallets.Length == scndWallets.Length && wallets != scndWallets
    requires (i <= middle || j <= end) && k < scndWallets.Length
    modifies scndWallets
    ensures var left := TakesLeft(wallets[..], i, middle, j, end);
      && i' == (if left then i + 1 else i) && j' == (if left then j else j + 1)
      && scndWallets[..] == old(scndWallets[..])[k := if left then wallets[i] else wallets[j]]
  {
    if i > middle {
      scndWallets[k] := wallets[j];
      i', j' := i, j + 1;
    } else if j > end {
      scndWallets[k] := wallets[i];
      i', j' := i + 1, j;
    } else if Less(wallets[i].walletID, wallets[j].walletID) {
      scndWallets[k] := wallets[i];
      i', j' := i + 1, j;
    } else {
      scndWallets[k] := wallets[j];
      i', j' := i, j + 1;
    }
  }

  lemma OneMorePlace(s: seq<Wallet>, start: nat, k: nat, x: Wallet, s': seq<Wallet>)
    requires start <= k < |s| && s' == s[k := x]
    ensures s'[start..k + 1] == s[start..k] + [x]
  {
  }

  method MergeInto(wallets: array<Wallet>, start: nat, middle: nat, end: nat, scndWallets: array<Wallet>,
                   ghost w: seq<Wallet>)
    requires start <= middle < end < wallets.Length == scndWallets.Length && wallets != scndWallets
    requires w == wallets[..]
    modifies scndWallets
    ensures scndWallets[start..end + 1] == Rest(w, start, middle, middle + 1, end)
  {
    var i, j, k := start, middle + 1, start;
    ghost var goal, s, done := Rest(w, i, middle, j, end), scndWallets[..], [];
    Begin(w, i, middle, j, end);
    while k <= end
      invariant start <= i <= middle + 1 <= j <= end + 1 && k == i + j - (middle + 1)
      invariant wallets[..] == w && scndWallets[..] == s && s[start..k] == done
      invariant LeadsTo(done, w, i, middle, j, end, goal)
    {
      Advance(done, w, i, middle, j, end, goal);
      ghost var x := if TakesLeft(w, i, middle, j, end) then w[i] else w[j];
      i, j := TakeNext(wallets, i, middle, j, end, scndWallets, k);
      OneMorePlace(s, start, k, x, scndWallets[..]);
      s, done := scndWallets[..], done + [x];
      k := k + 1;
    }
    Finish(done, w, i, middle, j, end, goal);
  }

  method Merge(wallets: array<Wallet>, start: nat, middle: nat, end: nat, scndWallets: array<Wallet>,
               ghost w: seq<Wallet>)
    requires start <= middle < end < wallets.Length == scndWallets.Length && wallets != scndWallets
    requires w == wallets[..]
    modifies wallets, scndWallets
    ensures wallets[start..end + 1] == Merged(w[start..middle + 1], w[middle + 1..end + 1])
    ensures wallets[..start] == w[..start] && wallets[end + 1..] == w[end + 1..]
  {
    MergeInto(wallets, start, middle, end, scndWallets, w);
    label Filled:
    for k := start to end + 1
      invariant forall m :: 0 <= m < wallets.Length ==> wallets[m] == if start <= m < k then scndWallets[m] else w[m]
      invariant scndWallets[..] == old@Filled(scndWallets[..])
    {
      wallets[k] := scndWallets[k];
    }
    assert wallets[start..end + 1] == scndWallets[start..end + 1];
    assert wallets[..start] == w[..start] && wallets[end + 1..] == w[end + 1..];
  }

  method MergeSort(wallets: array<Wallet>, start: nat, end: nat, scndWallets: array<Wallet>,
                   ghost w: seq<Wallet>)
    requires start <= end < wallets.Length == scndWallets.Length && wallets != scndWallets
    requires w == wallets[..]
    modifies wallets, scndWallets
    ensures wallets[start..end + 1] == MergeSorted(w[start..end + 1])
    ensures wallets[..start] == w[..start] && wallets[end + 1..] == w[end + 1..]
    decreases end - start, 1
  {
    if start >= end { return; }
    var middle := (start + end) / 2;
    SortUnfolds(w, start, middle, end);
    SortHalves(wallets, start, middle, end, scndWallets, w);
    Merge(wallets, start, middle, end, scndWallets, wallets[..]);
  }

  /** Sorts both halves, one after the other. */
  method SortHalves(wallets: array<Wallet>, start: nat, middle: nat, end: nat, scndWallets: array<Wallet>,
                    ghost w: seq<Wallet>)
    requires start <= middle < end < wallets.Length == scndWallets.Length && wallets != scndWallets
    requires w == wallets[..]
    modifies wallets, scndWallets
    ensures wallets[start..middle + 1] == MergeSorted(w[start..middle + 1])
    ensures wallets[middle + 1..end + 1] == MergeSorted(w[middle + 1..end + 1])
    ensures wallets[..start] == w[..start] && wallets[end + 1..] == w[end + 1..]
    decreases end - start, 0
  {
    MergeSort(wallets, start, middle, scndWallets, w);
    ghost var w1 := wallets[..];
    Kept(w, w1, start, middle, end);
    MergeSort(wallets, middle + 1, end, scndWallets, w1);
    Kept'(w1, wallets[..], start, middle, end);
  }

  lemma Slices(w: seq<Wallet>, start: nat, k: nat, end: nat)
    requires start + k <= end <= |w|
    ensures w[start..end][..k] == w[start..start + k] && w[start..end][k..] == w[start + k..end]
  {
  }

  lemma SortUnfolds(w: seq<Wallet>, start: nat, middle: nat, end: nat)
    requires start < end < |w| && middle == (start + end) / 2
    ensures MergeSorted(w[start..end + 1])
         == Merged(MergeSorted(w[start..middle + 1]), MergeSorted(w[middle + 1..end + 1]))
  {
    var k := middle - start + 1;
    Slices(w, start, k, end + 1);
    assert k == (|w[start..end + 1]| - 1) / 2 + 1;
  }

  lemma Kept(w: seq<Wallet>, w': seq<Wallet>, start: nat, middle: nat, end: nat)
    requires start <= middle < end < |w| == |w'|
    requires w'[..start] == w[..start] && w'[middle + 1..] == w[middle + 1..]
    ensures w'[end + 1..] == w[end + 1..] && w'[middle + 1..end + 1] == w[middle + 1..end + 1]
  {
    var n := end - middle;
    assert w'[middle + 1..][..n] == w'[middle + 1..end + 1] && w[middle + 1..][..n] == w[middle + 1..end + 1];
    assert w'[middle + 1..][n..] == w'[end + 1..] && w[middle + 1..][n..] == w[end + 1..];
  }

  lemma Kept'(w: seq<Wallet>, w': seq<Wallet>, start: nat, middle: nat, end: nat)
    requires start <= middle < end < |w| == |w'|
    requires w'[..middle + 1] == w[..middle + 1] && w'[end + 1..] == w[end + 1..]
    ensures w'[..start] == w[..start] && w'[start..middle + 1] == w[start..middle + 1]
  {
    assert w'[..middle + 1][..start] == w'[..start] && w[..middle + 1][..start] == w[..start];
    assert w'[..middle + 1][start..] == w'[start..middle + 1] && w[..middle + 1][start..] == w[start..middle + 1];
  }

  // ----- binary search

  /** A C int. */
  type Int = n: int | -0x8000_0000 <= n < 0x8000_0000

  lemma NotLessEqual(a: Id, b: Id, c: Id)
    requires !Less(b, a) && Less(b, c)
    ensures Less(a, c)
  {
    LessTotal(b, a);
    if a != b { LessTransitive(a, b, c); }
  }

  /** Finds the wallet with the key in the sorted array, if there is one; no
      int overflows for up to 2^30 wallets. */
  method FindWallet(wallets: array<Wallet>, key: Id) returns (w: Wallet?)
    requires Sorted(wallets[..]) && wallets.Length <= 0x4000_0000
    ensures w == null ==> forall x :: x in wallets[..] ==> x.walletID != key
    ensures w != null ==> w in wallets[..] && w.walletID == key
  {
    var leftBound: Int := 0;
    var rightBound: Int := wallets.Length - 1;
    while leftBound <= rightBound
      invariant 0 <= leftBound <= rightBound + 1 <= wallets.Length
      invariant forall i :: 0 <= i < leftBound ==> Less(wallets[i].walletID, key)
      invariant forall i :: rightBound < i < wallets.Length ==> Less(key, wallets[i].walletID)
    {
      var sum: Int := leftBound + rightBound;
      var middle: Int := sum / 2;
      var id := wallets[middle].walletID;
      if id == key {
        return wallets[middle];
      } else if Less(id, key) {
        forall i | 0 <= i <= middle ensures Less(wallets[i].walletID, key) {
          if i < middle {
            assert !Less(wallets[..][middle].walletID, wallets[..][i].walletID);
            NotLessEqual(wallets[i].walletID, id, key);
          }
        }
        leftBound := middle + 1;
      } else {
        LessTotal(id, key);
        forall i | middle <= i < wallets.Length ensures Less(key, wallets[i].walletID) {
          if middle < i {
            assert !Less(wallets[..][i].walletID, wallets[..][middle].walletID);
            LessTotal(wallets[i].walletID, id);
            if wallets[i].walletID != id { LessTransitive(key, id, wallets[i].walletID); }
          }
        }
        rightBound := middle - 1;
      }
    }
    forall x | x in wallets[..] ensures x.walletID != key {
      var i :| 0 <= i < wallets.Length && wallets[..][i] == x;
      LessTotal(x.walletID, key);
      LessTotal(key, key);
    }
    w := null;
  }

  /** The array of all wallets in the order of their identifiers. */
  method SortWallets(wallets: seq<Wallet>) returns (ordered: array<Wallet>)
    requires |wallets| > 0
    ensures fresh(ordered) && ordered.Length == |wallets|
    ensures Sorted(ordered[..]) && multiset(ordered[..]) == multiset(wallets)
  {
    var scndWallets := new Wallet[|wallets|](i requires 0 <= i < |wallets| => wallets[i]);
    ordered := new Wallet[|wallets|](i requires 0 <= i < |wallets| => wallets[i]);
    assert ordered[..] == wallets;
    MergeSort(ordered, 0, |wallets| - 1, scndWallets, wallets);
    assert wallets[0..|wallets|] == wallets && ordered[0..|wallets|] == ordered[..];
    MergeSortedIsSort(wallets);
  }
}
