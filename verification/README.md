# Three systems programs: models and proofs

This project models the three programs of the repository in Dafny and proves what
they are for.

- **The bitcoin ledger** (`SysPro_Project1`). Every coin carries a binary
  transaction tree with parent pointers; every wallet carries a linked list of
  (coin, amount) entries and a cached total. A payment walks the sender's list
  and, for each coin, an iterative walk of the tree without a stack that splits
  leaves. Two hash tables of chained buckets index the transactions by sender and
  by receiver; wallets are found by merge sort and binary search; requests get
  fresh identifiers.
- **The mirror** (`SysPro_Project2`). A directory tree is flattened to records,
  written to a pipe and read from it in chunks, and rebuilt in an empty directory.
- **The dropbox** (`SysPro_Project3`). A ring buffer between threads, and a server
  that keeps the list of logged-on clients and notifies them.

## How it is built

The C code works in place, so its parts are classes and methods over the heap
(`BitCoins`, `FreeTrees`, `Wallets`, `Ledgers`, `HashTables`, `MergeSorts`,
`Banks`, `Openings`, `Sessions`, `Wire.Pipe`, `Mirrors`, `Rings.Buffer`,
`ClientLists`, `Servers.Server`). Each method is proved against a function on
values, and the laws are proved about these functions (`CoinTree`, `LedgerSpec`,
`LedgerLaws`, `Trails`, `BankSpec`, `BankLaws`, `OpeningSpec`, `StrCmp`, `Searches`,
`Forests`, `Lookups`, `LargeFiles`, `Resends`, and the value parts of the other
modules). What these functions compute is fixed by laws that do not mention their
bodies: which requests, lines and searches are accepted is stated in the terms of
the code's callers, the constants of the formats appear as numbers, and trees of
files are compared with looking a path up name by name. Amounts are 64-bit words whose addition and subtraction wrap
(`Words`); that no sum of a payment wraps is a theorem, not an assumption.

The main theorems, each about every input and every run:

1. *The ledger agrees in every reachable state.* `Sessions.Session` runs the whole
   heap program: balances file, transactions file, requests. It ends in exactly the
   state that the three specified steps lead to. There, tree leaves, list entries
   and cached totals say the same about every wallet and coin, the totals add up to
   coins times value, and the two tables are the history: a function of the three
   inputs that has each accepted line and request once, in order. No identifier
   repeats; each wallet has its first balance less its payments plus its earnings;
   every tree node is tagged with an accepted transaction; and each accepted
   transaction has given away exactly its value, over all coins, to its receiver.
   `LineAcceptedIff` and `RequestAcceptedIff` say which ones are accepted, and as
   what; `NothingRewritten` says that a run only adds to the trees.
   The balances file must satisfy `OpeningSpec.SoundLines`; `OpeningAgreesIff` shows
   that this condition is exact for lists, totals and one tree per identifier.
2. *The walk without a stack is the recursive search.* `MakeBCTransaction` is
   proved with a zipper: each leaf is visited at most once, from left to right,
   and the tree afterwards is that of a recursive spend, which moves exactly the
   smaller of the amount and the sender's share.
3. *Receiving undoes sending.* `Mirrors.Transfer` sends any directory tree through
   a pipe, in chunks of any two sizes. The mirror has exactly the paths of the tree,
   with of each file as many bytes as its size is modulo 2^32, and it is the tree
   itself if and only if every file is smaller than that. `Wire.RoundTripIff` says
   exactly which records survive the wire; `Resends.SentTwice` says that sending
   again changes nothing.
4. *Nothing is lost between threads*, in any interleaving, and a popped slot keeps
   its element for exactly as many pushes as the buffer had room for.
5. *Every informed client knows who is logged on.* Whenever it asks for the list, and
   whatever the server does afterwards, its own list has exactly those who are
   logged on, each once, but itself (`Servers.ClientKnowsAll`).
6. *Identifiers are finite.* They ascend in the order of strcmp one by one, and a
   program that has loaded nothing can make exactly 1106 of them
   (`StrCmp.IDsFromNothing`, `BankLaws.RequestsTakeNext`).

Where the code does not do what one might expect, the exact condition is proved:
`FirstTransferSoundIff`, `FirstTransferChargesSenderIff`, `DrainedHeadStaysIff`,
`OpeningAgreesIff` with `RepeatedCoin`, `RunAscendsIff`, `TimeSearchRightIff` with
`TimeSearchWrongIff`, `EqualsReversed`, `NthIDIff`, `FileOverFile`, `FileOverDirectory`,
`RoundTripIff`, `LongPathEndsTransfer`, `CutIsTreeIff` with `LargeFileArrivesEmpty`,
`PoppedSlotKeptIff`, `NotKeptBeyondNextPop`, `ToldAllIff`, `StaysRightIff`.

The comments and the code disagree in two places. `SysPro_Project1/src/wallet.c:256`
says that an entry is removed when its amount becomes 0. The test for it (line 294)
looks at the previous entry, but the walk always stands at the head of the list,
so an entry that is drained by the last step stays, with amount 0. The model
follows the code (`Ledgers.Ledger.UseLastEntry` proves that the branch is dead).
`SysPro_Project1/src/hashTable.c:203-240` is for searches between two times of day,
but compares minutes with the start's hour and, over midnight, leaves out the hours
after the start's; `Searches.TimeSearchWrongIff` says about which transactions it is
wrong, and `TimeSearchRightIff` when it is right all the same.

## Model

| member | source | states |
|---|---|---|
| `Sessions.Session` | SysPro_Project1/src/wallet.c:92-185 | the whole program over the heap: from a sound balances file with a supply below the word, the state after any transactions file and any requests is the one that loading and requesting them specify, it is reached by their history (records agree, tables are the history, identifiers distinct, balances right, trees traced), and the totals add up to coins times value |
| `Sessions.OpenLedger` | SysPro_Project1/src/wallet.c:92-185 | for any lines: reading succeeds exactly when no wallet and no coin of an earlier line comes again; wallets and totals are then those of the opening state and there is one untouched coin for every place on a line; if no line repeats a coin, the ledger is in order |
| `Openings.WalletsInitialization` | SysPro_Project1/src/wallet.c:116-178 | the loop over any lines succeeds exactly when they are accepted, and builds one wallet a line with its entries in order, and one untouched coin an entry, all new |
| `Openings.FillWallet` | SysPro_Project1/src/wallet.c:142-175 | lists all coins of a line, or fails exactly when an earlier wallet has one of them |
| `Openings.CheckIfBCExists` | SysPro_Project1/src/wallet.c:22-31 | true exactly when an earlier line has the coin |
| `Openings.CheckIfWalletExists` | SysPro_Project1/src/wallet.c:34-38 | true exactly when an earlier line has the wallet |
| `OpeningSpec.OpeningAgreesIff` | SysPro_Project1/src/wallet.c:139-175 | lists, trees and totals of the opening state agree if and only if no line repeats a coin, coins are worth something and no wallet's product wraps (repeats on one line are not detected by the code) |
| `OpeningSpec.RepeatedCoin` | SysPro_Project1/src/wallet.c:142-175 | the line `[1, 1]` is accepted, its wallet lists the coin twice, and the records do not agree |
| `OpeningSpec.OwnerInOpening` | SysPro_Project1/src/wallet.c:142-175 | the opening state has every listed coin as one leaf of the wallet on whose line it is |
| `OpeningSpec.WalletInOpening` | SysPro_Project1/src/wallet.c:139-175 | the wallet of each line lists its coins in their order, each at the value of all coins, and its total is their number times the value modulo 2^64; there are no other wallets or coins |
| `OpeningSpec.AcceptedIff` | SysPro_Project1/src/wallet.c:116-172 | lines are accepted if and only if no two are of one wallet and no two have a coin in common |
| `OpeningSpec.SupplyIs` | SysPro_Project1/src/wallet.c:139-148 | the supply is the number of coins times their value |
| `BankSpec.RunReached` | SysPro_Project1/src/transaction.c:73-141 | whole runs: after loading any lines and making any requests the records agree, the two tables are the history of what was accepted as seen from each wallet, every balance is first minus sent plus received, identifiers are pairwise distinct, and the trees trace exactly this history |
| `BankLaws.RunListsOnce` | SysPro_Project1/src/transaction.c:119-120 | after any run each accepted line and request is once in its sender's list, once in its receiver's and in no other, and the trees show its value going from one to the other |
| `BankSpec.LoadAllKeeps` | SysPro_Project1/src/transaction.c:73-141 | loading any lines extends the history by exactly the accepted ones, in order, and keeps all of this |
| `BankSpec.RequestAllKeeps` | SysPro_Project1/src/transaction.c:176-232 | any requests extend it by exactly the accepted ones, in order, and keep all of this |
| `BankSpec.LoadKeeps` | SysPro_Project1/src/transaction.c:73-141 | one line: accepted, it extends the history by itself; otherwise nothing changes; the identifiers taken stay those of the history |
| `BankSpec.RequestKeeps` | SysPro_Project1/src/transaction.c:176-232 | one request: accepted, it extends the history by itself under an identifier nobody has had; otherwise nothing changes |
| `BankSpec.RequestRejectedIff` | SysPro_Project1/src/transaction.c:177-212 | the state stays as it is if and only if the request is rejected |
| `BankLaws.LineInHistory` | SysPro_Project1/src/transaction.c:73-141 | a line adds itself to the history if and only if it is accepted in the state that the lines before it lead to; the lines behind add theirs after it |
| `BankLaws.RequestInHistory` | SysPro_Project1/src/transaction.c:176-232 | the same for a request |
| `BankLaws.RequestAcceptedIff` | SysPro_Project1/src/transaction.c:177-212 | a request is accepted if and only if both wallets exist and differ, the sender's total covers the amount, its own time (if any) is not before the last one, and the last identifier is not 14 tildes; it is entered with its amount under the next identifier, at its own time or else 7200 seconds after the clock's |
| `BankLaws.LineAcceptedIff` | SysPro_Project1/src/transaction.c:77-129 | a line behind any others is accepted if and only if both wallets exist and differ, the sender's total then covers the value and no accepted line has its identifier; it is entered as it is |
| `BankLaws.TablesAre` | SysPro_Project1/src/transaction.c:216-217 | in a reached state each wallet's two lists have exactly its transactions of the history, each with the wallet on the other side, in the order in which they were accepted |
| `BankLaws.GreatestLoaded` | SysPro_Project1/src/transaction.c:138-139 | after loading, the identifier kept is one of the accepted ones (or the first), and none of them is greater |
| `BankLaws.RequestsTakeNext` | SysPro_Project1/src/transaction.c:208-212 | accepted requests get the first, second, third ... identifier after it, and are no more than there is room for |
| `BankLaws.LoadedTime` | SysPro_Project1/src/transaction.c:142 | after loading, the last time is that of the last accepted line |
| `BankLaws.RequestedTime` | SysPro_Project1/src/transaction.c:229 | after requests, it is that of the last accepted request |
| `BankLaws.RunAscendsIff` | SysPro_Project1/src/transaction.c:142-188 | over a whole run no accepted transaction is dated before an earlier one if and only if this holds of the accepted lines, which loading does not compare, and the clock (plus two hours) is never behind when a request takes its time from it |
| `BankLaws.AcceptedLinesAscend` | SysPro_Project1/src/transaction.c:142 | accepted lines ascend if the file does, as the code supposes |
| `BankLaws.IndexedOnce` | SysPro_Project1/src/transaction.c:119-120 | in every reached state an accepted transaction occurs once in its sender's list, once in its receiver's list and in no other list |
| `BankSpec.EnterTraced` | SysPro_Project1/src/wallet.c:280-313 | a payment tags the nodes it makes with its transaction: in the trees after it the new transaction has given away its value, to its receiver, and every older one still the same |
| `Trails.PayFromListTrail` | SysPro_Project1/src/wallet.c:285-310 | over all coins it uses, the loop gives away exactly the amount under its transaction, and nothing more under any other |
| `Trails.SpendTrail` | SysPro_Project1/src/bitCoin.c:68-114 | the search in one tree tags what it gives away, puts it with the receiver and the rest with the sender, and changes no old tag |
| `BankLaws.NothingRewritten` | SysPro_Project1/src/bitCoin.c:48-118 | after any run every node of every tree is where it was, with its owner, amount and transaction: trees only grow at their leaves |
| `CoinTree.TransferGrows` | SysPro_Project1/src/bitCoin.c:48-118 | the same for one transfer |
| `BankSpec.SupplyKept` | SysPro_Project1/src/wallet.c:208-212 | in every reached state the totals add up to what the coins were worth at first |
| `Banks.Program.Run` | SysPro_Project1/src/transaction.c:42-150 | the heap program's state after a run is that of the specification, and it is reached by the history of the lines and requests |
| `Banks.Program.TransactionsInitialization` | SysPro_Project1/src/transaction.c:73-143 | the loading loop with its array of identifiers and its time variable has the effect of loading the lines one by one |
| `Banks.Program.LoadLine` | SysPro_Project1/src/transaction.c:73-141 | accepts a line exactly when both wallets exist and differ, the identifier is new and the sender has enough, and then enters it everywhere |
| `Banks.CheckIfTransExists` | SysPro_Project1/src/transaction.c:14-22 | true exactly when the identifier is among the filled places |
| `Banks.Program.RequestTransaction` | SysPro_Project1/src/transaction.c:176-232 | refines the request: rejected, no part of the program changes; accepted, both tables, trees, lists, totals and globals change as specified |
| `Banks.Program.CarryOut` | SysPro_Project1/src/transaction.c:208-232 | a request that has passed the checks is entered under the next identifier, or nothing changes if there is none |
| `Banks.Program.Accept` | SysPro_Project1/src/transaction.c:177-206 | the checks, in the code's order, succeed exactly when the request may be paid and is not dated before the last one |
| `Banks.Program.Enter` | SysPro_Project1/src/transaction.c:216-219 | sender's table, receiver's table and ledger change together, and share no memory afterwards either |
| `LedgerSpec.PayAgrees` | SysPro_Project1/src/wallet.c:280-313 | a covered payment keeps trees, entries and totals in agreement, moves exactly its amount, keeps every coin's value and touches no third wallet |
| `LedgerSpec.PayFromListAgrees` | SysPro_Project1/src/wallet.c:285-310 | the loop alone keeps trees and lists in agreement |
| `LedgerSpec.NeverStuckIff` | SysPro_Project1/src/wallet.c:285-310 | the loop always has an entry to work on, and one behind it when it moves on, if and only if the list covers the amount |
| `LedgerSpec.DrawGives` | SysPro_Project1/src/wallet.c:288-300 | the coin of the first entry yields exactly what is asked of it |
| `LedgerSpec.ZeroEntryTransferred` | SysPro_Project1/src/wallet.c:294-300 | an entry of amount 0 belongs to a coin that has been transferred before |
| `LedgerSpec.AddEntryEffect` | SysPro_Project1/src/wallet.c:222-254 | adding raises one coin's amount and the sum by the same amount, changes no other coin's and repeats no coin |
| `LedgerLaws.PayFromListUses` | SysPro_Project1/src/wallet.c:285-310 | entries are used from the head on: all before the last used one are gone, it stays with its rest, those behind it are untouched, and the receiver gets each amount in this order |
| `LedgerLaws.DrainedHeadStaysIff` | SysPro_Project1/src/wallet.c:294-295 | a zero entry stays at the sender's head if and only if the amount ends on an entry's last unit |
| `LedgerLaws.TotalsAddUpToCoins` | SysPro_Project1/src/README:58-66 | conservation: in every agreeing state the totals add up to the coins' values |
| `LedgerLaws.TotalIsOwned` | SysPro_Project1/src/README:65-66 | a cached total is what the leaves of all trees say the wallet owns |
| `LedgerLaws.SharesAddUp` | SysPro_Project1/src/bitCoin.c:75-90 | the leaves of a sound tree add up to the coin's value |
| `LedgerLaws.NoOverflow` | SysPro_Project1/src/wallet.c:208-212 | with a supply below the word the receiver's total cannot wrap |
| `Ledgers.Ledger.MakeTransaction` | SysPro_Project1/src/wallet.c:280-313 | over the heap: never dereferences null, terminates, and leaves trees, lists and totals as the specified payment does |
| `Ledgers.Ledger.PayLoop` | SysPro_Project1/src/wallet.c:285-310 | the loop of the payment yields the specified payment from the list |
| `Ledgers.Ledger.PayRound` | SysPro_Project1/src/wallet.c:285-310 | one round keeps what is paid and what is still to be paid in step with the specification, and has an entry to work on next unless all is paid |
| `Ledgers.Ledger.UseUpEntry` | SysPro_Project1/src/wallet.c:299-309 | spends an entry, moves on and removes its cell: there always is a next cell |
| `Ledgers.Ledger.UseLastEntry` | SysPro_Project1/src/wallet.c:287-296 | spends part of the entry that covers the rest; the removal behind a drained entry is unreachable |
| `Ledgers.WalletArray.ChangeAmounts` | SysPro_Project1/src/wallet.c:208-212 | moves an amount between two totals and changes no other wallet |
| `Wallets.Wallet.AddToBCList` | SysPro_Project1/src/wallet.c:222-254 | adds to the entry of the coin or appends one, and keeps first, last, previous and next right |
| `Wallets.Wallet.RemoveFromBCList` | SysPro_Project1/src/wallet.c:257-278 | takes exactly one cell out of the linked list, in each of the four cases |
| `BitCoins.BitCoin.MakeBCTransaction` | SysPro_Project1/src/bitCoin.c:48-118 | over the heap: result and tree are those of the recursive transfer, the leaves visited are the first leaves of the old tree in order, links stay consistent |
| `BitCoins.SearchLeaves` | SysPro_Project1/src/bitCoin.c:62-114 | the descend-and-climb loop equals the left-to-right search, enters no node it has made, and terminates on what is unvisited |
| `BitCoins.SpendLeaf` | SysPro_Project1/src/bitCoin.c:75-90 | spends one leaf if it is the sender's, exactly up to what is needed, though the amounts are computed with wrapping arithmetic |
| `BitCoins.NextSubtree` | SysPro_Project1/src/bitCoin.c:100-113 | climbs to the nearest unvisited subtree on the right, or to the root; never through a null parent or sibling |
| `BitCoins.BitCoin.constructor` | SysPro_Project1/src/bitCoin.c:34-46 | a new coin is one leaf of its owner |
| `CoinTree.SpendMoves` | SysPro_Project1/src/bitCoin.c:68-114 | the search takes the smaller of the amount and the sender's share from the sender, gives it to the receiver, leaves all others alone and keeps the tree's shape |
| `CoinTree.TransferMoves` | SysPro_Project1/src/bitCoin.c:48-118 | the same for a transfer, first or later |
| `CoinTree.SpendInOrder` | SysPro_Project1/src/bitCoin.c:68-114 | leaves are spent from left to right; only the last one touched may be divided, and nothing to its right changes |
| `CoinTree.SpendAll` | SysPro_Project1/src/bitCoin.c:68-114 | a search that finds too little hands over every leaf of the sender |
| `CoinTree.FirstTransferSoundIff` | SysPro_Project1/src/bitCoin.c:53-60 | the first transfer keeps the tree sound if and only if the amount is positive and not above the coin |
| `CoinTree.FirstTransferChargesSenderIff` | SysPro_Project1/src/bitCoin.c:53-60 | it charges the named sender if and only if the sender owns the coin |
| `FreeTrees.FreeTree` | SysPro_Project1/src/bitCoin.c:121-148 | frees the nodes in post-order, and its trace of uses and frees never uses a freed node |
| `FreeTrees.NothingAfterFree` | SysPro_Project1/src/bitCoin.c:121-148 | in such a trace whatever comes after a node has been freed, be it a use or a free, concerns another node |
| `FreeTrees.PostOrderOnce` | SysPro_Project1/src/bitCoin.c:134-145 | this order has every node of the tree exactly once |
| `FreeTrees.PostOrderChildrenFirst` | SysPro_Project1/src/bitCoin.c:134-145 | and every node before its parent |
| `FreeTrees.LeavesInOrder` | SysPro_Project1/src/bitCoin.c:134-145 | the leaves are freed from left to right |
| `HashTables.HashTable.AddTransaction` | SysPro_Project1/src/hashTable.c:76-147 | refines appending to the map entry of the wallet; every wallet stays in the slot of its hash |
| `HashTables.Chain.AddTransaction` | SysPro_Project1/src/hashTable.c:80-146 | for any bucket size of at least one record: appends to the wallet's record, claims the first empty one, or links a new bucket; filled records stay a prefix, no wallet repeats, and no bucket is linked before all others are full |
| `HashTables.Chain.Walk` | SysPro_Project1/src/hashTable.c:80-105 | ends at the wallet's record, at the first empty record, or at the last record of a full chain |
| `HashTables.HashedItem.Append` | SysPro_Project1/src/hashTable.c:82-110 | appends to the doubly linked list and keeps its links |
| `HashTables.NewBucket` | SysPro_Project1/src/hashTable.c:59-74 | a bucket of one empty record for every 32 bytes of its size, linked in order |
| `HashTables.HashTable.constructor` | SysPro_Project1/src/hashTable.c:34-56 | an empty table whose chains share nothing |
| `HashTables.Djb2Hash` | SysPro_Project1/src/hashTable.c:25-32 | the loop that wraps at every step computes the polynomial modulo the word, and then the slot |
| `HashTables.PolynomialJoin` | SysPro_Project1/src/hashTable.c:25-32 | the hash of a text follows from that of any beginning of it, which the rest shifts by factors of 33; 5381 stands before the first character |
| `HashTables.CharValueIs` | SysPro_Project1/src/hashTable.c:27-29 | a character counts as a signed byte |
| `HashTables.HashTable.FindSum` | SysPro_Project1/src/hashTable.c:149-250 | the sum, modulo the word, of those of a wallet's transactions that the search selects (all, between two dates, or by times of day), or none exactly when the wallet has no record |
| `HashTables.SumRecords` | SysPro_Project1/src/hashTable.c:186-250 | the summing loops over a record's list, for every kind of search |
| `HashTables.OutsideDates` | SysPro_Project1/src/hashTable.c:241-254 | in a search between two dates, what is dated at or before the first or at or after the second adds nothing |
| `HashTables.WithinDates` | SysPro_Project1/src/hashTable.c:241-254 | what is dated strictly between them adds all of its value |
| `HashTables.SumOfConcat` | SysPro_Project1/src/hashTable.c:186-254 | the sum of two lists in sequence is the sum of their sums |
| `Searches.TimeSearchRightIff` | SysPro_Project1/src/hashTable.c:203-240 | a search between two different times of day selects what lies between them, for all transactions, if and only if the start's minute equals its hour and is not midnight, and the end is in a later hour or, over midnight, the start is 23:23 |
| `Searches.TimeSearchWrongIff` | SysPro_Project1/src/hashTable.c:203-240 | it is wrong about a transaction if and only if this is in the start's hour, with its minute on different sides of that hour and of the start's minute; or, over midnight, in a later hour; or, both times being in one hour, outside of them in it at a minute past that hour or before the end |
| `StrCmp.NextIDGreater` | SysPro_Project1/src/transaction.c:152-174 | the next identifier is strictly greater in strcmp order, and fits the buffer |
| `StrCmp.NextIDNoneIff` | SysPro_Project1/src/transaction.c:160-168 | there is none if and only if 14 tildes have been reached |
| `StrCmp.NewID` | SysPro_Project1/src/transaction.c:152-174 | the character loop terminates with the next identifier, or none |
| `StrCmp.LessIff` | SysPro_Project1/src/mergesort.c:16-23 | the order of strcmp: one text is less if and only if at their first difference it ends or has the smaller character |
| `StrCmp.NextIDRaises` | SysPro_Project1/src/transaction.c:156-164 | behind the leading tildes, the next identifier has the next character, and is otherwise the same |
| `StrCmp.NextIDStarts` | SysPro_Project1/src/transaction.c:156-164 | or a zero, for a smaller character or for none |
| `StrCmp.NthIDIff` | SysPro_Project1/src/transaction.c:152-174 | from any identifier on there are exactly as many more as its 14 places have room for |
| `StrCmp.IDsFromNothing` | SysPro_Project1/src/transaction.c:152-174 | from none there are exactly 1106 |
| `MergeSorts.MergeSort` | SysPro_Project1/src/mergesort.c:31-39 | sorts its part of the array in place as the recursive sort does, and nothing else |
| `MergeSorts.Merge` | SysPro_Project1/src/mergesort.c:5-29 | merges two neighbouring parts in place |
| `MergeSorts.TakeNext` | SysPro_Project1/src/mergesort.c:8-23 | one step of a merge puts the smaller of the two heads, or the right one of two equals, into its place |
| `MergeSorts.SortHalves` | SysPro_Project1/src/mergesort.c:34-36 | the two recursive calls sort each half and leave the other alone |
| `MergeSorts.MergeSortedIsSort` | SysPro_Project1/src/mergesort.c:31-39 | the recursive sort yields an ordered permutation |
| `MergeSorts.EqualsReversed` | SysPro_Project1/src/mergesort.c:16-23 | wallets of one identifier come out in reverse order |
| `MergeSorts.FindWallet` | SysPro_Project1/src/wallet.c:187-206 | binary search finds the wallet with the key if and only if there is one; no int overflows for up to 2^30 wallets |
| `MergeSorts.SortWallets` | SysPro_Project1/src/wallet.c:79-90 | a new array with the same wallets in order |
| `Wire.RoundTripIff` | SysPro_Project2/src/mirror_client/sync_send.c:321-418 | parsing gives back exactly the records written and stops right behind the zero length, if and only if every path has 1 to 2^16-1 bytes and every file less than 2^32 |
| `Wire.RecordComesBack` | SysPro_Project2/src/mirror_client/sync_send.c:321-418 | a record whose path has 1 to 65535 bytes and whose file is smaller than 4294967296 comes back whole |
| `Wire.EncodedAs` | SysPro_Project2/src/mirror_client/sync_send.c:325-390 | it is written as its path's length in two bytes, the path, the file's size in four, and the contents |
| `Wire.EncodedCut` | SysPro_Project2/src/mirror_client/sync_send.c:364-384 | of a larger file only the size modulo 2^32 is written, and as many bytes |
| `Wire.BytesAre` | SysPro_Project2/src/mirror_client/sync_send.c:326-384 | numbers are written in base 256, lowest byte first |
| `Wire.ParseRecord` | SysPro_Project2/src/mirror_client/sync_receive.c:181-279 | what the receiver makes of a record whose length or size has been cut |
| `Wire.LongPathEndsTransfer` | SysPro_Project2/src/mirror_client/sync_send.c:325 | a path whose length is a multiple of 2^16 ends the transfer for all that follows |
| `Wire.SyncSendFile` | SysPro_Project2/src/mirror_client/sync_send.c:321-418 | writes one record, in chunks of any size |
| `Wire.WritePath` | SysPro_Project2/src/mirror_client/sync_send.c:335-361 | the chunk loop writes the path byte for byte |
| `Wire.WriteContents` | SysPro_Project2/src/mirror_client/sync_send.c:387-417 | the chunk loop copies the file byte for byte |
| `Wire.ReadPath` | SysPro_Project2/src/mirror_client/sync_receive.c:302-332 | the chunk loop reads the path byte for byte |
| `Forests.MirrorIsTree` | SysPro_Project2/src/mirror_client/sync_receive.c:334-360 | replaying the records of a directory tree in an empty directory makes exactly its paths: files, contents and empty directories, for every order of listing |
| `Forests.ReceivedTree` | SysPro_Project2/src/mirror_client/sync_receive.c:334-360 | the same below any path of a mirror in which nothing is in the way |
| `Forests.OrderDoesNotMatter` | SysPro_Project2/src/mirror_client/sync_send.c:276-302 | trees that differ only in the order in which directories list their entries, at any depth, give the same mirror |
| `Forests.TokensOfJoin` | SysPro_Project2/src/mirror_client/sync_receive.c:334-346 | the tokens of a path, with or without a slash at its end, are the names it was joined from |
| `Forests.TokensAre` | SysPro_Project2/src/mirror_client/sync_receive.c:334-346 | the tokens of any text have no slash, are not empty, and leave nothing but slashes out |
| `Lookups.FilesAre` | SysPro_Project2/src/mirror_client/sync_send.c:266-319 | the files of a tree are what looking a path up name by name finds |
| `Lookups.RecordsAre` | SysPro_Project2/src/mirror_client/sync_send.c:266-319 | the records sent are exactly those of its files and of its empty directories, each under its path, for a directory with a slash behind it |
| `Lookups.JoinIs` | SysPro_Project2/src/mirror_client/sync_send.c:276-286 | a path on the wire is its names with a slash between two of them |
| `Forests.DirsToMakeForPath` | SysPro_Project2/src/mirror_client/sync_receive.c:341-350 | on the way to a file all its directories are made, on the way to an empty directory this one too |
| `Mirrors.SyncSendDir` | SysPro_Project2/src/mirror_client/sync_send.c:266-319 | the recursion writes the records of all that is below a directory, or the mark of an empty one |
| `Mirrors.SyncSend` | SysPro_Project2/src/mirror_client/sync_send.c:176-232 | writes the records of the whole tree and the zero length |
| `Mirrors.Mirror.MakeWay` | SysPro_Project2/src/mirror_client/sync_receive.c:334-350 | the token loop makes the directories on the way and stops where the tokens spell the path |
| `Mirrors.Mirror.ReadFilePath` | SysPro_Project2/src/mirror_client/sync_receive.c:297-360 | reads a path, makes its way and opens the file unless the path ends with a slash |
| `Mirrors.Mirror.ReadFile` | SysPro_Project2/src/mirror_client/sync_receive.c:364-392 | the chunk loop writes the contents into the open file |
| `Mirrors.Mirror.SyncReceive` | SysPro_Project2/src/mirror_client/sync_receive.c:155-279 | the record loop replays all records of the stream up to the zero length and consumes no more, or stops at the first file that cannot be opened |
| `Mirrors.Transfer` | SysPro_Project2/src/mirror_client/sync_send.c:176-232 | end to end, for any two chunk sizes: the mirror has what is found at each path of the tree, of a file as many bytes as its size is modulo 2^32, and nothing else; it is the tree if and only if all files are smaller than 2^32 bytes |
| `LargeFiles.CutSendsSame` | SysPro_Project2/src/mirror_client/sync_send.c:364-418 | a tree and what is left of it after cutting its files write the same bytes |
| `LargeFiles.CutIsTreeIff` | SysPro_Project2/src/mirror_client/sync_send.c:364-384 | cutting changes no file if and only if every file is smaller than 2^32 bytes, at any depth |
| `LargeFiles.MirrorIsTreeIff` | SysPro_Project2/src/mirror_client/sync_send.c:364-384 | the same in terms of the files found at paths |
| `LargeFiles.LargeFileArrivesEmpty` | SysPro_Project2/src/mirror_client/sync_send.c:364-384 | a file of 2^32 bytes arrives empty |
| `Resends.SentTwice` | SysPro_Project2/src/mirror_client/sync_receive.c:334-392 | sending a tree to the mirror that has it changes nothing |
| `Resends.FileOverFile` | SysPro_Project2/src/mirror_client/sync_receive.c:356-392 | a file written over a longer one leaves what lies behind its end, because it is opened without being emptied |
| `Resends.FileOverDirectory` | SysPro_Project2/src/mirror_client/sync_receive.c:356-360 | a file cannot be opened in a directory's place |
| `Resends.FileAsDirectory` | SysPro_Project2/src/mirror_client/sync_receive.c:341-360 | nor below another file |
| `Resends.StopsThere` | SysPro_Project2/src/mirror_client/sync_receive.c:155-279 | behind such a record nothing is received |
| `Rings.NothingIsLost` | SysPro_Project3/src/dropbox_client.c:1020-1046 | over every interleaving, first contents plus pushes equal pops plus last contents, in order, and the buffer never holds more than its capacity |
| `Rings.PoppedSlotKeptIff` | SysPro_Project3/src/dropbox_client.c:1028-1046 | the slot of a popped element is not written if and only if there are no more pushes than the buffer had room for after the pop, whatever else is popped |
| `Rings.KeptUntilNextPop` | SysPro_Project3/src/dropbox_client.c:1028-1046 | until the next pop it keeps its element under any steps |
| `Rings.NotKeptBeyondNextPop` | SysPro_Project3/src/dropbox_client.c:1028-1046 | a run with a second worker in which the element is overwritten |
| `Rings.PushAppendsIff` | SysPro_Project3/src/buffer.c:33-41 | a push appends if and only if the ring is not full; a full ring would become empty |
| `Rings.PopTakesFirstIff` | SysPro_Project3/src/buffer.c:43-52 | a pop takes the first element if and only if there is one |
| `Rings.FullIff` | SysPro_Project3/src/buffer.c:21-31 | the test holds exactly when all slots but one are in use |
| `Rings.EmptyIff` | SysPro_Project3/src/buffer.c:13-19 | the test holds exactly when nothing is in the buffer |
| `Rings.MayStepIff` | SysPro_Project3/src/dropbox_client.c:1020-1046 | after any run a push is possible if and only if pushes exceed pops by less than the capacity, and a pop if and only if they exceed them at all (counting what was there first) |
| `Rings.NeverBothWait` | SysPro_Project3/src/dropbox_client.c:1020-1046 | in a buffer of two or more slots a push or a pop always is |
| `Rings.Buffer.Push` | SysPro_Project3/src/buffer.c:33-41 | appends to the contents, around the end of the array |
| `Rings.Buffer.Pop` | SysPro_Project3/src/buffer.c:43-52 | removes the first of the contents and returns its slot |
| `Rings.Buffer.IsFull` | SysPro_Project3/src/buffer.c:21-31 | the capacity is one less than the size, and 0 for sizes 0 and 1 |
| `ClientLists.ClientList.In` | SysPro_Project3/src/client_list.c:4-19 | true exactly for the clients on the list |
| `ClientLists.ClientList.Add` | SysPro_Project3/src/client_list.c:21-41 | appends a node and keeps the links |
| `ClientLists.ClientList.Delete` | SysPro_Project3/src/client_list.c:43-85 | unlinks the first node of the client, if there is one |
| `Servers.LoggedOnIff` | SysPro_Project3/src/dropbox_server.c:92-165 | in every reachable state nobody is listed twice, and listed is exactly who logged on after last logging off |
| `Servers.ListsStayRight` | SysPro_Project3/src/dropbox_client.c:632-701 | an informed client's own list stays the server's list without itself, in the same order, over any run |
| `Servers.ArrivalsInform` | SysPro_Project3/src/dropbox_server.c:196-505 | when every notification arrives, every client is informed |
| `Servers.StaysRightIff` | SysPro_Project3/src/dropbox_client.c:632-701 | in one step a right list stays right if and only if nothing changes or its client is told |
| `Servers.ToldAllIff` | SysPro_Project3/src/dropbox_server.c:196-307 | everyone is told, each once and in order, if and only if every notification arrives |
| `Servers.ToldIff` | SysPro_Project3/src/dropbox_server.c:196-307 | a client is told if and only if its notification arrives and nobody before it fails to approve |
| `Servers.ToldJoin` | SysPro_Project3/src/dropbox_server.c:196-307 | clients are told in the order of the list |
| `Servers.ToldWhom` | SysPro_Project3/src/dropbox_server.c:93-161 | after any run, when all notifications arrive: of a client that newly logs on all others that are logged on are told, of one that logs off likewise, and of nothing else anybody |
| `Servers.GetClientsReply` | SysPro_Project3/src/dropbox_server.c:121-148 | after any run a client that is logged on, and no other, is sent all that are logged on, each once, and as many as are announced |
| `Servers.LogReplies` | SysPro_Project3/src/dropbox_server.c:93-161 | after any run the answers to logging on and off tell whether the client was logged on |
| `Servers.ClientKnowsAll` | SysPro_Project3/src/dropbox_client.c:476-482 | from any moment at which a client asks for the list, as long as it is informed, its own list has exactly those who are logged on, each once, but itself |
| `Servers.Server.LogOn` | SysPro_Project3/src/dropbox_server.c:93-120 | adds a new client and tells all others; keeps the counter equal to the length of the list |
| `Servers.Server.GetClients` | SysPro_Project3/src/dropbox_server.c:121-146 | announces exactly as many clients as it sends: the whole list |
| `Servers.Server.LogOff` | SysPro_Project3/src/dropbox_server.c:147-161 | deletes the client and tells all that remain; keeps the counter equal to the length of the list |
| `Servers.Server.NotifyUserOn` | SysPro_Project3/src/dropbox_server.c:196-307 | the loop tells all but the last of the list, passing over who cannot be reached and ending where approval is missing |
| `Servers.Server.NotifyUserOff` | SysPro_Project3/src/dropbox_server.c:309-505 | the loop and its last round tell the whole list, in the same way |

## Left out

- OpeningSpec.OpeningAgreesIff: the state keeps one tree for each identifier where the code makes one for each place on a line; the heap methods have one coin for each place.
- StrCmp.NewID: identifiers are printable and have at most 14 characters, the buffer is zero-filled, and reaching index 14 counts as exhaustion.
- StrCmp.NextIDNoneIff: at 14 tildes the code writes over the terminator and compares beyond the buffer; the model reports exhaustion there.
- Banks.Program.LoadLine: identifiers of more than 14 characters, which the code copies beyond its 15-byte buffer.
- Banks.Program.TransactionsInitialization: such identifiers too; and an empty file, which ends the program with a message, loads nothing.
- Sessions.Session: such identifiers too; more than 2^30 wallets, for which the binary search would overflow an int.
- BitCoins.BitCoin.constructor: the registry of coins by previous and next pointers, and the count of a coin's transactions, which the first transfer does not raise.
- HashTables.HashTable.FindSum: a lookup of an absent wallet that comes across an empty record compares with a null name; it is modelled for empty and for full chains only. The listing that the search prints is not modelled.
- Wire.LongPathEndsTransfer: the sender cannot get there where paths are limited to 4096 bytes, because its test for a directory fails first; the record format alone allows it.
- Mirrors.Transfer: for the same reason paths are shorter than 2^16 bytes; opening files for writing succeeds. The receiver does not close an empty file (`sync_receive.c:365-367`), so with more empty files than free descriptors a later file cannot be opened and the transfer stops; descriptors are not modelled.
- Mirrors.Mirror.SyncReceive: streams that end early, and paths that a sender does not write (starting with a slash, with `.` or `..`, or made of slashes only).
- Servers.Server.LogOn: faults on the connection to the requesting client, and termination by a signal.
- `bitCoinStatus` and `traceCoin`.
- Freeing of lists and tables; only the freeing of trees is modelled.
- Splitting of input lines and parsing of dates; files arrive as sequences of lines.
- Sockets, pipes, poll and signals as such: a read delivers the bytes it asks for, a notification has one of three outcomes.
- Waiting on the condition variables and start-up: only safety of the steps under the mutex, no progress.
- The retries of the mirror client, and the dropbox's own file transfer, which repeats the mirror's.
- File permissions and the log files.
