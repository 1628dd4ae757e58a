/** The state that the balances file gives: one line a wallet, with the
    identifiers of the coins it owns, which all have the same value. */
module OpeningSpec {
  import opened Words
  import opened Transactions
  import opened CoinTree
  import opened LedgerSpec
  import opened LedgerLaws

  datatype Line = Line(walletID: Id, coins: seq<int>)

  predicate HasWallet(lines: seq<Line>, id: Id) {
    exists k :: 0 <= k < |lines| && lines[k].walletID == id
  }

  predicate HasCoin(lines: seq<Line>, c: int) {
    exists k :: 0 <= k < |lines| && c in lines[k].coins
  }

  /** The lines are accepted one by one: a wallet must not have come before, nor
      a coin on an earlier line. Coins on the same line are not compared. */
  predicate Accepted(lines: seq<Line>) {
    lines != [] ==>
      var before, l := lines[..|lines| - 1], lines[|lines| - 1];
      && Accepted(before) && !HasWallet(before, l.walletID)
      && forall c :: c in l.coins ==> !HasCoin(before, c)
  }

  function EntriesOf(coins: seq<int>, value: nat): seq<Entry> {
    if coins == [] then [] else EntriesOf(coins[..|coins| - 1], value) + [Entry(coins[|coins| - 1], value)]
  }

  /** The wallet of a line: its total is a size_t product, which may wrap. */
  function PurseOf(l: Line, value: nat): Purse {
    Purse((|l.coins| * value) % WORD, EntriesOf(l.coins, value))
  }

  function TreesOf(l: Line, value: nat): map<int, Tree> {
    map c | c in l.coins :: Leaf(l.walletID, value, None)
  }

  function Opening(lines: seq<Line>, value: nat): State {
    if lines == [] then State(map[], map[])
    else
      var st, l := Opening(lines[..|lines| - 1], value), lines[|lines| - 1];
      State(st.trees + TreesOf(l, value), st.purses[l.walletID := PurseOf(l, value)])
  }

  // ----- what the state has

  ghost predicate HasLine(st: State, l: Line, value: nat) {
    && l.walletID in st.purses && st.purses[l.walletID] == PurseOf(l, value)
    && forall c :: c in l.coins ==> c in st.trees && st.trees[c] == Leaf(l.walletID, value, None)
  }

  /** The state has all lines, and nothing that no line has. */
  ghost predicate HasAll(st: State, lines: seq<Line>, value: nat) {
    && (forall k :: 0 <= k < |lines| ==> HasLine(st, lines[k], value))
    && (forall w :: w in st.purses ==> HasWallet(lines, w))
    && (forall c :: c in st.trees ==> HasCoin(lines, c))
  }

  lemma HasMore(lines: seq<Line>, l: Line)
    ensures forall w :: HasWallet(lines + [l], w) <==> HasWallet(lines, w) || w == l.walletID
    ensures forall c :: HasCoin(lines + [l], c) <==> HasCoin(lines, c) || c in l.coins
  {
    var all := lines + [l];
    assert all[|lines|] == l;
    forall w | HasWallet(lines, w) ensures HasWallet(all, w) {
      var k :| 0 <= k < |lines| && lines[k].walletID == w;
      assert all[k].walletID == w;
    }
    forall c | HasCoin(lines, c) ensures HasCoin(all, c) {
      var k :| 0 <= k < |lines| && c in lines[k].coins;
      assert c in all[k].coins;
    }
  }

  lemma {:induction false} OpeningHasAll(lines: seq<Line>, value: nat)
    requires Accepted(lines)
    ensures HasAll(Opening(lines, value), lines, value)
  {
    if lines != [] {
      var before, l := lines[..|lines| - 1], lines[|lines| - 1];
      var was, st := Opening(before, value), Opening(lines, value);
      OpeningHasAll(before, value);
      assert lines == before + [l];
      HasMore(before, l);
      forall k | 0 <= k < |lines| ensures HasLine(st, lines[k], value) {
        if k < |before| {
          assert HasLine(was, before[k], value) && before[k] == lines[k];
          assert HasWallet(before, lines[k].walletID);
          assert forall c :: c in lines[k].coins ==> HasCoin(before, c);
        }
      }
    }
  }

  /** Every coin is one leaf that no transaction has made. */
  lemma OpeningUntouched(lines: seq<Line>, value: nat)
    requires Accepted(lines)
    ensures forall c :: c in Opening(lines, value).trees ==>
      Opening(lines, value).trees[c].Leaf? && Opening(lines, value).trees[c].tag == None
      && Opening(lines, value).trees[c].amount == value
  {
    var st := Opening(lines, value);
    OpeningHasAll(lines, value);
    forall c | c in st.trees ensures st.trees[c].Leaf? && st.trees[c].tag == None && st.trees[c].amount == value {
      var k :| 0 <= k < |lines| && c in lines[k].coins;
      assert HasLine(st, lines[k], value);
    }
  }

  // ----- sound openings

  /** No coin occurs twice on a line, coins are worth something, and no wallet's
      product wraps. */
  predicate SoundLines(lines: seq<Line>, value: nat) {
    forall k :: 0 <= k < |lines| ==> SoundLine(lines[k], value)
  }

  predicate SoundLine(l: Line, value: nat) {
    Distinct(l.coins) && (l.coins != [] ==> value > 0) && |l.coins| * value < WORD
  }

  predicate Distinct(s: seq<int>) {
    s != [] ==> s[|s| - 1] !in s[..|s| - 1] && Distinct(s[..|s| - 1])
  }

  /** No line repeats a coin. */
  predicate AllDistinct(lines: seq<Line>) {
    forall k :: 0 <= k < |lines| ==> Distinct(lines[k].coins)
  }

  /** A line that repeats a coin is accepted, its wallet lists the coin twice, and
      the records do not agree. */
  lemma RepeatedCoin(w: Id, value: nat)
    ensures var lines := [Line(w, [1, 1])];
      && Accepted(lines) && Opening(lines, value).purses[w].entries == [Entry(1, value), Entry(1, value)]
      && !Agree(Opening(lines, value))
  {
    var lines := [Line(w, [1, 1])];
    var st := Opening(lines, value);
    assert lines[..0] == [] && Accepted([]) && [1, 1][..1] == [1] && [1][..0] == [];
    assert EntriesOf([1], value) == EntriesOf([], value) + [Entry(1, value)];
    assert st.purses[w].entries == [Entry(1, value), Entry(1, value)];
    assert !NoRepeats(st.purses[w].entries) by { assert st.purses[w].entries[1..] == [Entry(1, value)]; }
    assert !ListOK(st, w);
  }

  lemma {:induction false} EntriesAre(coins: seq<int>, value: nat)
    ensures Sum(EntriesOf(coins, value)) == |coins| * value
    ensures forall c :: Lists(EntriesOf(coins, value), c) <==> c in coins
    ensures NoRepeats(EntriesOf(coins, value)) <==> Distinct(coins)
    ensures forall c :: AmountIn(EntriesOf(coins, value), c) == if c in coins then value else 0
  {
    if coins != [] {
      var before, c := coins[..|coins| - 1], coins[|coins| - 1];
      EntriesAre(before, value);
      EntryAtEnd(EntriesOf(before, value), Entry(c, value));
      assert coins == before + [c];
      assert |coins| * value == |before| * value + value;
    }
  }

  lemma {:induction false} EntryAtEnd(s: seq<Entry>, e: Entry)
    ensures Sum(s + [e]) == Sum(s) + e.amount
    ensures forall c :: Lists(s + [e], c) <==> Lists(s, c) || c == e.coin
    ensures NoRepeats(s + [e]) <==> NoRepeats(s) && !Lists(s, e.coin)
    ensures forall c :: AmountIn(s + [e], c) == if Lists(s, c) then AmountIn(s, c) else if c == e.coin then e.amount else 0
  {
    if s != [] {
      assert (s + [e])[1..] == s[1..] + [e];
      EntryAtEnd(s[1..], e);
    }
  }

  lemma OnEarlierLine(lines: seq<Line>, k: nat, c: int)
    requires k < |lines| - 1 && c in lines[k].coins
    ensures HasCoin(lines[..|lines| - 1], c)
  {
    assert c in lines[..|lines| - 1][k].coins;
  }

  /** A coin belongs to one line only. */
  lemma {:induction false} OneLine(lines: seq<Line>, j: nat, k: nat, c: int)
    requires Accepted(lines) && j < |lines| && k < |lines| && c in lines[j].coins && c in lines[k].coins
    ensures j == k
  {
    if j < |lines| - 1 { OnEarlierLine(lines, j, c); }
    if k < |lines| - 1 { OnEarlierLine(lines, k, c); }
    if j < |lines| - 1 && k < |lines| - 1 {
      OneLine(lines[..|lines| - 1], j, k, c);
    }
  }

  /** A wallet has one line only. */
  lemma {:induction false} OneWallet(lines: seq<Line>, j: nat, k: nat)
    requires Accepted(lines) && j < |lines| && k < |lines| && lines[j].walletID == lines[k].walletID
    ensures j == k
  {
    var before := lines[..|lines| - 1];
    assert j < |before| ==> before[j] == lines[j];
    assert k < |before| ==> before[k] == lines[k];
    if j < |before| && k < |before| {
      OneWallet(before, j, k);
    }
  }

  /** Lines are accepted if and only if no two are of one wallet and no two have
      a coin in common. */
  lemma {:induction false} AcceptedIff(lines: seq<Line>)
    ensures Accepted(lines) <==> forall j, k :: 0 <= j < k < |lines| ==> Apart(lines[j], lines[k])
  {
    if lines != [] {
      var before, l := lines[..|lines| - 1], lines[|lines| - 1];
      AcceptedIff(before);
      if forall j, k :: 0 <= j < k < |lines| ==> Apart(lines[j], lines[k]) {
        assert forall j, k :: 0 <= j < k < |before| ==> before[j] == lines[j] && before[k] == lines[k];
        assert forall j :: 0 <= j < |before| ==> Apart(lines[j], l) && before[j] == lines[j];
      }
      if Accepted(lines) {
        forall j, k | 0 <= j < k < |lines| ensures Apart(lines[j], lines[k]) {
          if k < |before| {
            assert Apart(before[j], before[k]);
          } else {
            assert before[j] == lines[j];
            assert HasWallet(before, lines[j].walletID);
            assert forall c :: c in lines[j].coins ==> HasCoin(before, c);
          }
        }
      }
    }
  }

  predicate Apart(a: Line, b: Line) {
    a.walletID != b.walletID && forall c :: c in a.coins ==> c !in b.coins
  }

  lemma {:induction false} EntriesAt(coins: seq<int>, value: nat)
    ensures |EntriesOf(coins, value)| == |coins|
    ensures forall i :: 0 <= i < |coins| ==> EntriesOf(coins, value)[i] == Entry(coins[i], value)
  {
    if coins != [] {
      EntriesAt(coins[..|coins| - 1], value);
    }
  }

  /** The wallet of each line lists its coins in their order, each with the value
      that all coins have; its total is their number times that value, modulo
      2^64. There are no other wallets and no other coins. */
  lemma WalletInOpening(lines: seq<Line>, value: nat, k: nat)
    requires Accepted(lines) && k < |lines|
    ensures var st, l := Opening(lines, value), lines[k];
      && l.walletID in st.purses && |st.purses[l.walletID].entries| == |l.coins|
      && (forall i :: 0 <= i < |l.coins| ==> st.purses[l.walletID].entries[i] == Entry(l.coins[i], value))
      && st.purses[l.walletID].total == |l.coins| * value % 0x1_0000_0000_0000_0000
    ensures forall w :: w in Opening(lines, value).purses ==> HasWallet(lines, w)
    ensures forall c :: c in Opening(lines, value).trees ==> HasCoin(lines, c)
  {
    OpeningHasAll(lines, value);
    assert HasLine(Opening(lines, value), lines[k], value);
    EntriesAt(lines[k].coins, value);
  }

  /** The records of a fresh ledger agree exactly when its lines are sound: the
      program must not be given a line with the same coin twice. */
  lemma OpeningAgreesIff(lines: seq<Line>, value: nat)
    requires Accepted(lines)
    ensures var st := Opening(lines, value); Agree(st) && TotalsAgree(st) <==> SoundLines(lines, value)
  {
    var st := Opening(lines, value);
    OpeningHasAll(lines, value);
    if SoundLines(lines, value) {
      SoundOpening(lines, value);
    }
    if Agree(st) && TotalsAgree(st) {
      forall k | 0 <= k < |lines| ensures SoundLine(lines[k], value) {
        var l := lines[k];
        EntriesAre(l.coins, value);
        assert HasLine(st, l, value);
        assert ListOK(st, l.walletID) && TotalOK(st, l.walletID);
        if l.coins != [] {
          assert l.coins[0] in l.coins;
          assert TreeOK(st, l.coins[0]);
        }
      }
    }
  }

  lemma LineOfWallet(lines: seq<Line>, value: nat, w: Id) returns (k: nat)
    requires Accepted(lines) && w in Opening(lines, value).purses
    ensures k < |lines| && lines[k].walletID == w && HasLine(Opening(lines, value), lines[k], value)
  {
    OpeningHasAll(lines, value);
    k :| 0 <= k < |lines| && lines[k].walletID == w;
  }

  lemma LineOfCoin(lines: seq<Line>, value: nat, c: int) returns (k: nat)
    requires Accepted(lines) && c in Opening(lines, value).trees
    ensures k < |lines| && c in lines[k].coins && HasLine(Opening(lines, value), lines[k], value)
  {
    OpeningHasAll(lines, value);
    k :| 0 <= k < |lines| && c in lines[k].coins;
  }

  lemma OpeningShare(lines: seq<Line>, value: nat, w: Id, c: int)
    requires Accepted(lines) && w in Opening(lines, value).purses && c in Opening(lines, value).trees
    ensures SameShare(Opening(lines, value), w, c)
  {
    var j := LineOfWallet(lines, value, w);
    var k := LineOfCoin(lines, value, c);
    EntriesAre(lines[j].coins, value);
    if c in lines[j].coins {
      OneLine(lines, j, k, c);
    }
  }

  lemma SoundOpening(lines: seq<Line>, value: nat)
    requires Accepted(lines) && SoundLines(lines, value)
    ensures Agree(Opening(lines, value)) && TotalsAgree(Opening(lines, value))
  {
    var st := Opening(lines, value);
    forall c | c in st.trees ensures TreeOK(st, c) {
      var k := LineOfCoin(lines, value, c);
      assert SoundLine(lines[k], value);
    }
    forall w | w in st.purses ensures ListOK(st, w) && TotalOK(st, w) {
      var k := LineOfWallet(lines, value, w);
      assert SoundLine(lines[k], value);
      EntriesAre(lines[k].coins, value);
    }
    forall w, c | w in st.purses && c in st.trees ensures SameShare(st, w, c) {
      OpeningShare(lines, value, w, c);
    }
  }

  lemma TimesMore(n: nat, value: nat)
    ensures (n + 1) * value == n * value + value
  {
  }

  /** All coins are worth the same: the supply is their number times the value. */
  lemma {:induction false} SupplyOf(st: State, value: nat, cs: seq<int>)
    requires forall c :: c in st.trees ==> st.trees[c].amount == value
    requires forall i :: 0 <= i < |cs| ==> cs[i] in st.trees
    ensures AllValues(st, cs) == |cs| * value
  {
    if cs != [] {
      var c := cs[0];
      assert c in st.trees;
      SupplyOf(st, value, cs[1..]);
      TimesMore(|cs| - 1, value);
    }
  }

  lemma SupplyIs(lines: seq<Line>, value: nat, cs: seq<int>)
    requires Accepted(lines) && forall i :: 0 <= i < |cs| ==> cs[i] in Opening(lines, value).trees
    ensures AllValues(Opening(lines, value), cs) == |cs| * value
  {
    OpeningUntouched(lines, value);
    SupplyOf(Opening(lines, value), value, cs);
  }

  // ----- names

  function WalletIDs(lines: seq<Line>): seq<Id> {
    if lines == [] then [] else WalletIDs(lines[..|lines| - 1]) + [lines[|lines| - 1].walletID]
  }

  function AllCoins(lines: seq<Line>): seq<int> {
    if lines == [] then [] else AllCoins(lines[..|lines| - 1]) + lines[|lines| - 1].coins
  }

  /** The wallets that the coins are given to, in the same order. */
  function AllOwners(lines: seq<Line>): (s: seq<Id>)
    ensures |s| == |AllCoins(lines)|
  {
    if lines == [] then []
    else
      var l := lines[|lines| - 1];
      AllOwners(lines[..|lines| - 1]) + seq(|l.coins|, _ => l.walletID)
  }

  /** The state has each coin with its owner. */
  lemma {:induction false} OwnerInOpening(lines: seq<Line>, value: nat, k: nat)
    requires Accepted(lines) && k < |AllCoins(lines)|
    ensures var c := AllCoins(lines)[k];
      && c in Opening(lines, value).trees && Opening(lines, value).trees[c] == Leaf(AllOwners(lines)[k], value, None)
      && HasCoin(lines, c)
  {
    var before, l := lines[..|lines| - 1], lines[|lines| - 1];
    HasMore(before, l);
    assert lines == before + [l];
    if k < |AllCoins(before)| {
      OwnerInOpening(before, value, k);
    } else {
      assert AllCoins(lines)[k] == l.coins[k - |AllCoins(before)|];
    }
  }

  lemma NamesMore<K(!new)>(s: seq<K>, keys: set<K>, more: seq<K>, keys': set<K>)
    requires Names(s, keys) && Names(more, keys') && keys !! keys'
    ensures Names(s + more, keys + keys')
  {
  }

  lemma {:induction false} DistinctNames(s: seq<int>)
    requires Distinct(s)
    ensures Names(s, set c | c in s)
  {
    if s != [] {
      DistinctNames(s[..|s| - 1]);
      assert s == s[..|s| - 1] + [s[|s| - 1]];
    }
  }

  /** The wallets and the coins of accepted lines, each named once. */
  lemma {:induction false} NamesOfOpening(lines: seq<Line>, value: nat)
    requires Accepted(lines) && AllDistinct(lines)
    ensures Names(WalletIDs(lines), Opening(lines, value).purses.Keys)
    ensures Names(AllCoins(lines), Opening(lines, value).trees.Keys)
  {
    if lines != [] {
      var before, l := lines[..|lines| - 1], lines[|lines| - 1];
      NamesOfOpening(before, value);
      OpeningHasAll(before, value);
      var st, st' := Opening(before, value), Opening(lines, value);
      NamesMore(WalletIDs(before), st.purses.Keys, [l.walletID], {l.walletID});
      assert st'.purses.Keys == st.purses.Keys + {l.walletID};
      DistinctNames(l.coins);
      NamesMore(AllCoins(before), st.trees.Keys, l.coins, set c | c in l.coins);
      assert st'.trees.Keys == st.trees.Keys + set c | c in l.coins;
    }
  }
}
