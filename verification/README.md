# Verified model of the cldm core

cldm is a C unit-test and mocking framework. This project models the parts of it that carry their own
data structures and protocols, and proves what they promise:

- **Threaded red-black tree** (`Rb*.dfy`, `TestRecords.dfy`, `Collect.dfy`). A class over nodes in memory. Insertion and
  removal run top-down and rebalance on the way, with the same pointer tests (`gp->right == p`) as the C code.
  Each procedure is proved to do to the memory what a function on shapes says, a shape with a hole (a zipper)
  standing for the place the descent has reached. What the functions keep is proved on the shapes. Collecting the
  tests into the tree and reading them off it gives the order they run in.
- **Parallel runner** (`Par*.dfy`, `Bits.dfy`). A transition system with a program counter per thread, a
  counting barrier, a lock for printing and a shared abort flag. Claims are about every schedule.
- **Hash table and its prime search** (`HashTable.dfy`, `Primes.dfy`). Open addressing with linear probing,
  vacant entries and rehashing, for any hash function.
- **AVX2 byte routines** (`Mem*.dfy`, `CStrings.dfy`, `StrLen.dfy`, `StrCopy.dfy`). Addresses are numbers, so
  alignment and page offsets are real; a register move is one slice of an array. Reads of strings go to a
  memory that holds only the pages the string touches, so staying inside it is part of what is proved.
- **Switch recogniser** (`Dfa.dfy`). A trie in two growing arrays with chained edges.
- **Argument parser** (`ArgSpec.dfy`, `ArgKinds.dfy`, `ArgMeaning.dfy`, `Argp.dfy`). The parse loop with its bit set,
  and the partition of argv in place. What a line sets is stated from its words alone.
- **Removal of repeated neighbours** (`Uniq.dfy`), also in place.

Results where the code does less than one may expect, each with its condition and, where there is one, the input
that shows it:

- A removal does not repair threads, and the link tests of the tree compare right links without looking at the
  thread bit. Such a test is wrong if and only if it meets a left child whose parent has no right child and a right
  thread to that same child (`RbSurgery.RightTest`). In trees that were only inserted into, and in removals after
  that, it never does. In mixed runs a node inserted after a removal can inherit a thread that leads before it;
  `RbTree.RbTree.Hang` says exactly when, from the links before they are written. What becomes of the next
  operations can be told before they start, from the place where `cldm_rbtree_find` would end:
  - `RbTree.RbTree.Insert` fails if and only if that place lies below a red node whose sibling is not red, and either
    this node is the left child of a parent without a right child that has a right thread to it, or the key belongs on its left and it has
    a right thread to the new node (`RbTree.RbTree.Ensnares`).
  - `RbTree.RbTree.Remove` fails if and only if the node with the key has no left child and its successor has a right
    thread back to it, or has nothing but a left child and a right thread to that child (`RbTree.RbTree.Entangles`).
  - Where they do not fail they do exactly what they promise; where they fail, no search tree (for insertions: no
    red-black one) with the nodes promised explains the memory left behind. Neither happens where no stray thread
    leads to the new node or to a neighbour of the key.
  - `RbRuns.StaleDirection` is a run whose last removal fails: insert a, insert b behind it, remove b, insert c behind
    a, remove a. `RbRuns.StaleRotation` is one whose last insertion fails: the same up to c, then remove an absent
    key before a, and insert d between a and c.
- `cldm_is_prime` accepts every prime and some composites, such as 49; `Primes.IsPrime` says exactly which
  numbers it accepts. The search for a capacity stops all the same.
- Inserting into a hash table with removed entries fails in three ways. Without growth a key behind a vacant slot is
  entered once more, and a key that takes the last free slot leaves probes for absent keys without an end; where the
  table grows, a removed entry is hashed by a key that is gone, or, if that key was empty, can be counted although it
  is not there. `HashTable.Table.Insert` is right if and only if none of them happens: `HashTable.CanEnter` without
  growth, `HashTable.Growable` with it. The inputs are `HashTable.ShadowedKey`, `HashTable.LastFreeSlot` and
  `HashTable.RemovedThenGrown`.
- The vector `memcpy`, `memset` and `memswp` touch one byte even for a length of zero (`MemCopy.MemcpyIsScalar`,
  `MemCopy.MemsetIsScalar`, `MemSwap.MemswpIsExact`). `cldm_argp_partition` copies no words now and then; argv[1..argc)
  is right even so, only the entry argv[argc] may change.
- The reduction reads past its 32 slots with 32 threads and with no fewer (`ParSplit.SlotsSuffice`).
- A long switch that leaves the recogniser right after its two dashes counts as `--`, so that the words after it
  are positional (`ArgKinds.EndsSwitches`), although the parser has a message for unrecognised switches.
- With a buffer of size zero, `cldm_strscpy` returns the error code and writes nothing in the vector form; the
  scalar form would write before the buffer, so it is modelled for sizes of at least one.

## Model

| member | source | states |
|---|---|---|
| RbTree.RbTree.constructor | cldm/cldm_rbtree.h:42-43 | a new tree is empty and valid, with exact threads |
| RbTree.RbTree.Clear | cldm/cldm_rbtree.h:55-58 | clearing any tree, with stray threads or without, leaves a valid empty one with exact threads again |
| RbTree.RbTree.Descend | cldm/cldm_rbtree.c:182-209 | the insertion descent keeps keys and red-black rules, and ends at the key or at the free link where it belongs, with a window that shows the true ancestors if the place found is red; that link is the one a plain search finds, and what the last link tests look at is as it was |
| RbTree.RbTree.Insert | cldm/cldm_rbtree.c:159-227 | for every tree: insertion fails iff the key is present; otherwise it adds exactly the new node and leaves an ordered red-black tree with a black root and the right size, unless the tree tells before that a link test will take a thread for a link; then, and only then, it is misled, and no red-black search tree with the nodes there were and the new one explains the memory; at most the new node gets a stray thread |
| RbTree.RbTree.Hang | cldm/cldm_rbtree.c:211-224 | where no link test is misread, the new node is hung in and everything else kept, and the threads keep their former promise iff the node hangs on the left, or is lifted by a double rotation, or inherits a thread that does not lead before it; where one is, no red-black search tree with the new node is left |
| RbTree.RbTree.NotMisled | cldm/cldm_rbtree.c:90-92 | without stray threads to neighbours of the key no link test of the final rebalancing is misread |
| RbTree.RbTree.Remove | cldm/cldm_rbtree.c:250-315 | for every tree: removal returns the node with the key or null, and takes exactly that node out, leaving an ordered red-black tree with a black root and the right size, unless the tree tells before that the last link test will take a thread for a link; then, and only then, it is misled, and the memory is no search tree without the node |
| RbTree.RbTree.Foretell | cldm/cldm_rbtree.c:287-297 | whether that is so shows at the place where a plain search finds the node, and in the order of the nodes alike |
| RbTree.RbTree.Detach | cldm/cldm_rbtree.c:287-305 | the node found is cut out; if the last link test is misread, it stays a child or the sentinel becomes one |
| RbTree.RbTree.NoShape | cldm/cldm_rbtree.c:287-305 | memory left like that is no search tree without the node, whatever is claimed of threads |
| RbTree.RbTree.BlackFlanks | cldm/cldm_rbtree.c:111-112 | above a black node no link test of removal is misread, in any tree |
| RbTree.RbTree.Seek | cldm/cldm_rbtree.c:268-285 | the removal descent keeps keys and red-black rules, meets the node that a plain search finds, and ends at a place where a node can be cut off; the last link test will be misread iff that node was stuck before the descent |
| RbTree.RbTree.Find | cldm/cldm_rbtree.c:229-248 | find returns a node with the key iff there is one, the one at the end of the plain search, after at most 2*log2(n+1) comparisons, in every tree, with stray threads or without |
| RbTree.RbTree.ForEach | cldm/cldm_rbtree.h:76-88 | in trees that were only inserted into, the traversal stops and visits every node once in increasing order |
| RbTree.RbTree.BlackenRoot | cldm/cldm_rbtree.c:222 | painting the root black at the end restores the red-black rules and keeps the keys |
| RbShape.FlatPlug | cldm/cldm_rbtree.c:50-73 | the in-order sequence of a plugged zipper is what lies before the hole, in it and after it |
| RbShape.PlugBalanced | cldm/cldm_rbtree.c:159-227 | plugging the hole with a tree of the height it asks for gives a tree of equal black height without red-red edges |
| RbShape.RotInorder | cldm/cldm_rbtree.c:50-73 | a single rotation keeps the in-order sequence |
| RbBalance.BalInsFlat | cldm/cldm_rbtree.c:75-103 | rebalancing on insertion keeps the in-order sequence |
| RbBalance.BalInsBalanced | cldm/cldm_rbtree.c:75-103 | rebalancing on insertion removes the red-red edge and keeps black heights |
| RbBalance.SplitThenCalm | cldm/cldm_rbtree.c:187-209 | after a split with a rotation, the nodes the descent meets next cannot split again until the window is right |
| RbBalance.HeightFlanks | cldm/cldm_rbtree.c:188-191 | above a subtree of black height at least one every hole has a sibling, so that link tests meet no thread |
| RbBalance.BalRemFlat | cldm/cldm_rbtree.c:105-139 | rebalancing on removal keeps the in-order sequence |
| RbBalance.BalRemBalanced | cldm/cldm_rbtree.c:105-139 | rebalancing on removal keeps the red-black rules and makes the node in focus red or the next node red |
| RbHeap.RotateSingle | cldm/cldm_rbtree.c:50-68 | the pointer writes of a rotation, thread bits included, do to memory what the rotation of shapes says |
| RbHeap.RotateDouble | cldm/cldm_rbtree.c:70-73 | the same for a double rotation |
| RbHeap.RotateLinks | cldm/cldm_rbtree.c:50-68 | the writes of a rotation turn the links of the two nodes as the rotation of shapes does, threads included |
| RbHeap.ThreadUp | cldm/cldm_rbtree.c:53-58 | a link that turns into a thread by setting a bit refers to an acceptable node |
| RbHeap.ZipUp | cldm/cldm_rbtree.c:205-208 | moving the focus up changes neither memory nor nodes |
| RbHeap.ZipDown | cldm/cldm_rbtree.c:205-208 | moving the focus down changes neither memory nor nodes |
| RbSurgery.RightTest | cldm/cldm_rbtree.c:90-92 | a comparison of the right link with a child tells its direction iff that link is not a thread to the left child |
| RbSurgery.QuietRead | cldm/cldm_rbtree.c:90-92 | threads that keep their promise are never taken for links |
| RbSurgery.RightTests | cldm/cldm_rbtree.c:90-92 | all three link tests of a rotation give the directions of the true path unless one of them meets a thread |
| RbSurgery.BalanceInsertion | cldm/cldm_rbtree.c:75-103 | the procedure does to memory what the function on shapes says, whatever the window holds unless the parent is red; the sentinel is never rotated; if a link test below takes a thread for a link, it leaves a left child that comes after its parent, or a red node with a red child |
| RbSurgery.TrapHere | cldm/cldm_rbtree.c:90-92 | where a link test is misread, its node is a leaf below a red node, and the thread misread is that of its parent or grandparent |
| RbSurgery.BalanceRemoval | cldm/cldm_rbtree.c:105-139 | the same for removal, with the parent it hands back; no link below the way down changes, and no link test at the node meets a thread afterwards where a sibling took part |
| RbSurgery.LiftSibling | cldm/cldm_rbtree.c:119-132 | the rotations that bring up a red child of the sibling, with the recolouring after them |
| RbSearch.StepBetween | cldm/cldm_rbtree.c:200-208 | one step down keeps the key between what lies left and right of the hole |
| RbSearch.NextWindow | cldm/cldm_rbtree.c:205-208 | a visit without a split brings a stale window one level closer to the true ancestors |
| RbSearch.SplitNeedsExact | cldm/cldm_rbtree.c:188-191 | only a window that shows the true parent, grandparent and great-grandparent meets a split |
| RbSearch.SplitWindow | cldm/cldm_rbtree.c:188-209 | how stale the window can be after a split, for each of the two rotations |
| RbSearch.BalInsBetween | cldm/cldm_rbtree.c:188-192 | a rotation during the descent keeps the hole the key belongs in |
| RbSearch.FollowStep | cldm/cldm_rbtree.c:187-209 | the insertion descent runs beside a plain search of the tree as it was: splits and their rotations rebuild nothing below, and only nodes with a red sibling are painted |
| RbInsert.Visit | cldm/cldm_rbtree.c:188-191 | one visit of the insertion descent keeps every invariant of the loop |
| RbInsert.Attach | cldm/cldm_rbtree.c:211-222 | hanging in the leaf and rebalancing adds the node between its neighbours, or leaves a wrong edge if a link test is misread |
| RbInsert.BottomReached | cldm/cldm_rbtree.c:200-203 | where the descent ends, a plain search ends too, and the links that the last tests read have not changed unless they no longer matter |
| RbInsert.BottomTells | cldm/cldm_rbtree.c:90-92 | so the last tests are misread iff the tree told so before |
| RbInsert.HangLinks | cldm/cldm_rbtree.c:211-218 | the new leaf inherits a thread from its parent and gets one to it |
| RbInsert.UnpinView | cldm/cldm_rbtree.c:213 | a tree with the inherited thread in doubt keeps the promise of threads iff that thread does |
| RbRemove.HuntFirst | cldm/cldm_rbtree.c:268-285 | the node met on the way is the in-order successor of the place where the descent ends |
| RbRemove.BalRemKeepsHole | cldm/cldm_rbtree.c:277-280 | rebalancing on the way down keeps the hole the key belongs in |
| RbRemove.BalanceOnWay | cldm/cldm_rbtree.c:277-280 | and the right links of everything below the way down, and of a node it lifts to the left of the way |
| RbRemove.TrailMeets | cldm/cldm_rbtree.c:271-280 | past the node with the key, the last link test is going to be misread iff the node was stuck before the removal |
| RbRemove.TrailGoes | cldm/cldm_rbtree.c:275-284 | the steps after that do not change it |
| RbRemove.TrailStep | cldm/cldm_rbtree.c:268-285 | every step keeps the record of what has not been rebuilt and of what the last link test will meet |
| RbRemove.WeakView | cldm/cldm_rbtree.c:250-315 | exact threads satisfy the weaker promise that removal keeps |
| RbRemove.StraysDecide | cldm/cldm_rbtree.c:297-303 | the stray threads of a tree are exactly the exceptions its promise of threads needs |
| RbSplice.FindParentOf | cldm/cldm_rbtree.c:141-157 | the second search returns the parent of the node found |
| RbSplice.Assignments | cldm/cldm_rbtree.c:287-303 | the writes that put one node in the place of another, in the order of the code |
| RbSplice.Splice | cldm/cldm_rbtree.c:287-303 | with the directions of the true parents those writes leave exactly the shape with the node cut out, in all three positions of the node found; with the wrong ones they tear the tree |
| RbSplice.CutFlat | cldm/cldm_rbtree.c:287-303 | cutting removes exactly the node found from the in-order sequence |
| RbMisled.WrongIsNoTree | cldm/cldm_rbtree.c:75-103 | a left child that comes after its parent, or a red node with a red child, fits no red-black search tree |
| RbMisled.NoTree | cldm/cldm_rbtree.c:211-222 | so after a misread link test no red-black search tree with exactly the nodes there were and the new one explains the memory, whatever is claimed of threads |
| RbTangled.SpotView | cldm/cldm_rbtree.c:229-248 | a plain search ends at the node with the key iff there is one, anywhere it starts |
| RbTangled.TangledIsStuck | cldm/cldm_rbtree.c:287-297 | what tells a failing removal can be read off the place of the node or off its successor |
| RbRuns.SelfThread | cldm/cldm_rbtree.c:250-315 | inserting a node behind the root and removing it, with the descents written out, leaves the root with a thread to itself |
| RbRuns.StrayThread | cldm/cldm_rbtree.c:159-315 | a tree whose first node is inserted, and after it a node inserted, removed, and another inserted with the descents written out, is valid with a stray thread |
| RbRuns.StaleDirection | cldm/cldm_rbtree.c:250-315 | removing the first node of that tree is misled |
| RbRuns.StaleRotation | cldm/cldm_rbtree.c:159-227 | after the removal of an absent key, with the descent written out, inserting a node into that tree is misled |
| RbWalk.Logarithmic | cldm/cldm_rbtree.c:229-248 | black height bounds the number of nodes from below |
| RbWalk.SuccessorAt | cldm/cldm_rbtree.h:72-74 | the right subtree or the right thread leads to the next node in order |
| RbWalk.Leftmost | cldm/cldm_rbtree.c:317-322 | the leftmost node is the first in order |
| RbWalk.Successor | cldm/cldm_rbtree.h:72-74 | the successor of the i-th node is the next one, or the sentinel after the last |
| TestRecords.StrcmpIsDictionary | cldm/cldm_testrec.h:35-40 | strcmp is negative iff the first string ends, or goes on with a smaller character, after a common beginning |
| TestRecords.CompareIsLexicographic | cldm/cldm_testrec.h:35-40 | the comparison is positive iff the first record stands earlier, in dictionary order of the files and then of the names; zero iff both are equal |
| TestRecords.CompareIsOrder | cldm/cldm_testrec.h:35-40 | it is a total order, as the tree requires |
| Collect.Collect | cldm/cldm_collect.c:16-36 | collecting fails iff a symbol has no record; otherwise the tree holds, of the records with the same file and name, exactly the first found, and their number is returned |
| Collect.Records | cldm/cldm_parallel.c:128-131 | reading the tree gives every record once, files in dictionary order and the tests of a file in dictionary order |
| Collect.OrderIsUnique | cldm/cldm_parallel.c:128-131 | two sequences in that order with the same files and names are the same |
| Collect.SameOrder | cldm/cldm_collect.c:22-33 | the order of the tests depends neither on the order in which the symbol table lists them nor on how often |
| Bits.FlpIsFloor | cldm/cldm_algo.c:37-44 | the bit expression gives the largest power of two not above its argument |
| Bits.ClpIsCeiling | cldm/cldm_algo.c:26-35 | the other one gives the smallest power of two not below its argument, as long as one fits, and zero otherwise |
| ParModel.FirstIs | cldm/cldm_parallel.c:78 | the offset of the first reduction round for each number of threads |
| ParSplit.BlocksFair | cldm/cldm_parallel.c:133-139 | the blocks leave no record over, differ in size by at most one, and none is larger than an earlier one |
| ParSplit.BlocksTile | cldm/cldm_parallel.c:133-139 | every record lies in exactly one block |
| ParSplit.SlotsSuffice | cldm/cldm_parallel.c:78-83 | every slot read in any round of the reduction exists iff there are fewer than 32 threads |
| ParSplit.ReductionSums | cldm/cldm_parallel.c:77-83 | the halving rounds leave in the first slot, for each of the three counters, the integer sum over all threads |
| ParSafety.SyncStep | cldm/cldm_parallel.c:47-83 | every step keeps all threads within one barrier of each other |
| ParSafety.SplitComplete | cldm/cldm_parallel.c:47-54 | no thread reads its block before the whole split is written |
| ParSafety.BlocksStep | cldm/cldm_parallel.c:54-72 | every step keeps each thread at a prefix of its block |
| ParSafety.PrintingStep | cldm/cldm_test.c:98-143 | every step keeps what is printed and buffered a record of the tests run, in order, under one lock |
| ParTotals.PartnerStable | cldm/cldm_test.c:236-240 | the slot a thread adds from holds its value of the round and is not written meanwhile, however far other threads are |
| ParTotals.TotalsStep | cldm/cldm_parallel.c:76-83 | every step keeps each counter at the value its owner's program counter asks for |
| ParTheorems.ReasonsStep | cldm/cldm_parallel.c:54-72 | every step keeps the reasons for which threads have stopped |
| ParTheorems.Invariant | cldm/cldm_parallel.c:36-92 | all invariants hold after every schedule |
| ParSums.FailingAre | cldm/cldm_test.c:62-70 | counting a test with failures once adds up to the number of such tests |
| ParSums.NoneRunTwice | cldm/cldm_parallel.c:54-55 | at no time has a test been run twice, by one thread or by two |
| ParTheorems.ReductionTotal | cldm/cldm_parallel.c:76-83 | after every schedule that lets thread 0 finish, its counters are, over the tests run by all threads, the sum of their failures, the sum of their assertions and the number of tests with failures; no test is among them twice |
| ParTheorems.EveryTestOnce | cldm/cldm_parallel.c:54-72 | if no test is fatal, and none fails in a fail-fast run, each test runs exactly once, on one thread, and the counters are the sums of failures and assertions over all tests and the number of tests with failures |
| ParTheorems.PrintedOnce | cldm/cldm_test.c:98-143 | tests are printed under indices 1 to k, no test twice, in thread order, all of them at the end, and no buffer holds more than 16 |
| ParTheorems.NoneTwice | cldm/cldm_test.c:98-143 | lines of which each thread's are a part of its own block, in order, are about different tests |
| ParTheorems.StopsInTime | cldm/cldm_parallel.c:54-72 | each thread runs a prefix of its block, and no test of it but the last is fatal, nor, in a fail-fast run, has failures; a thread whose last test failed or was fatal has set the flag of a fail-fast run before it goes on, and only such threads do; a thread that is through early had a fatal test last, or, in a fail-fast run, one with failures, or the flag was set; without fail-fast failures alone end no thread |
| ParTheorems.FlagTells | cldm/cldm_parallel.c:54-72 | at the end of a fail-fast run the flag is set iff some test of all fails or is fatal, however the threads interleave |
| ParTheorems.AtMostOneMore | cldm/cldm_parallel.c:64-71 | once the flag is set, no thread starts more than one further test, however long it runs |
| ParTheorems.Progress | cldm/cldm_parallel.c:48-82 | until all threads are done, one can move: none is left waiting at a barrier or a lock |
| ParTermination.RunsAreFinite | cldm/cldm_parallel.c:36-92 | no schedule makes more than a fixed number of steps |
| ParTermination.CanFinish | cldm/cldm_parallel.c:36-92 | every schedule can be continued until all threads are done |
| Primes.IsPrime | cldm/cldm_algo.c:8-24 | exactly which numbers the code accepts |
| Primes.PrimeAccepted | cldm/cldm_algo.c:8-24 | every prime is accepted |
| Primes.FortyNine | cldm/cldm_algo.c:12-18 | 49 is accepted too |
| Primes.RightBelow | cldm/cldm_algo.c:8-24 | an odd number from 3 to 47 is accepted iff it is prime |
| Primes.PrimeBeyond | cldm/cldm_hash.c:26-33 | there is a prime above any number, so the search stops |
| Primes.FirstGrowth | cldm/cldm_hash.c:26-33 | 63 and 65 are refused, 67 is accepted and prime |
| Primes.SizeUp | cldm/cldm_hash.c:26-33 | the next capacity is odd, at least twice as large plus one, and the first such number accepted; after 31 it is 67 |
| HashTable.ProbeExact | cldm/cldm_hash.c:44-65 | where a probe stops, the key is found iff it is in the table |
| HashTable.ReuseExact | cldm/cldm_hash.c:51-58 | a probe that reuses vacant slots sees a key iff no vacant slot lies before it |
| HashTable.InsertAfterRemoval | cldm/cldm_hash.c:139-155 | an insertion into a table with removed entries answers correctly, adds exactly the key, keeps all keys findable and leaves a free slot iff the key does not lie behind a vacant slot and the last free slot is not taken |
| HashTable.ShadowedKey | cldm/cldm_hash.c:51-58 | a table in which a key behind a vacant slot is entered twice |
| HashTable.LastFreeSlot | cldm/cldm_hash.c:39-65 | a table in which a key takes the last free slot, after which probes for other keys never stop |
| HashTable.StopsAtFree | cldm/cldm_hash.c:51-64 | a probe for an absent key stops iff some slot is free |
| HashTable.PristineEnters | cldm/cldm_hash.c:39-42 | without removed entries and at most half full, an insertion without growth never fails |
| HashTable.RemovedThenGrown | cldm/cldm_hash.c:67-118 | a table with one removed entry whose growth reads a key that is gone, or counts one that is not there |
| HashTable.RehashStep | cldm/cldm_hash.c:98-115 | entering one used slot again keeps every key, and the size right iff the slots so far allow it |
| HashTable.RemainsKeep | cldm/cldm_hash.c:98-115 | what a removed empty key has left takes a slot and hides no key |
| HashTable.PutKeeps | cldm/cldm_hash.c:148-154 | a key put where its probe stopped adds exactly that key and keeps all others findable |
| HashTable.DropKeeps | cldm/cldm_hash.c:157-169 | a vacant slot in place of a key removes exactly that key and keeps all others findable |
| HashTable.Table.constructor | cldm/cldm_hash.c:35-37 | an empty table with its static capacity |
| HashTable.Table.Clear | cldm/cldm_hash.c:171-174 | clearing leaves an empty table of the same capacity that may be inserted into again |
| HashTable.Table.Probe | cldm/cldm_hash.c:44-65 | the probe meets a slot that stops it before it has gone round |
| HashTable.Table.Find | cldm/cldm_hash.c:132-137 | find answers membership in the key set |
| HashTable.Table.Insert | cldm/cldm_hash.c:139-155 | for every table: insertion without growth answers correctly, adds exactly the key and keeps the table valid iff the key does not lie behind a vacant slot and the last free slot is not taken; with growth iff every removed entry held the empty key and that key has been entered again before it; on a table without removed entries always |
| HashTable.Table.Put | cldm/cldm_hash.c:148-154 | the part after the growth, with the entries it leaves, for keys and for what removed entries have left |
| HashTable.Table.Remove | cldm/cldm_hash.c:157-169 | removal succeeds iff the key is present and removes exactly that key |
| HashTable.Table.Expand | cldm/cldm_hash.c:67-118 | for every table: rehashing faults iff it meets a removed entry with a key that was not empty; otherwise it keeps the key set, at least doubles the capacity, never expands again on the way, and counts the keys rightly iff no removed entry is counted |
| MemCopy.Memcpy | cldm/asm/x86_64/cldm_avx2_memcpy.S:11-187 | exactly the first n bytes are copied (one for n = 0), for every length and alignment |
| MemCopy.ScalarMemcpy | cldm/cldm_byteseq.c:28-35 | the byte loop copies the first n bytes |
| MemCopy.MemcpyIsScalar | cldm/asm/x86_64/cldm_avx2_memcpy.S:11-187 | the two agree iff n > 0 or the byte is in place already |
| MemCopy.Memset | cldm/asm/x86_64/cldm_avx2_memset.S:23-180 | exactly the first n bytes are set (one for n = 0), for every length and alignment |
| MemCopy.ScalarMemset | cldm/cldm_byteseq.c:37-43 | the byte loop sets the first n bytes |
| MemCopy.MemsetIsScalar | cldm/asm/x86_64/cldm_avx2_memset.S:23-180 | the two agree iff n > 0 or the byte is in place already |
| MemSwap.Memswp | cldm/asm/x86_64/cldm_avx2_memswp.S:11-311 | exactly the first n bytes are exchanged (one for n = 0), for every length and alignment, although head and tail windows overlap |
| MemSwap.MemswpIsExact | cldm/asm/x86_64/cldm_avx2_memswp.S:11-311 | no other byte is exchanged iff n > 0 or the first bytes are equal |
| MemSwap.SwapEnds | cldm/asm/x86_64/cldm_avx2_memswp.S:199-284 | two overlapping windows exchange their union once |
| MemSwap.SwapHead | cldm/asm/x86_64/cldm_avx2_memswp.S:11-34 | the unaligned head and the first aligned window exchange their union once |
| MemCompare.Memcmp | cldm/asm/x86_64/cldm_avx2_memcmp.S:38-311 | the result is the difference at the first index where the areas differ, or zero |
| MemCompare.DifferenceMeans | cldm/asm/x86_64/cldm_avx2_memcmp.S:38-311 | zero means equal areas, the sign decides the lexicographic order, and swapping the areas negates it |
| MemCompare.Rung | cldm/asm/x86_64/cldm_avx2_memcmp.S:111-244 | a rung of the ladder finds the first difference in its block or shows that there is none |
| CStrings.NextMapped | cldm/asm/x86_64/cldm_avx2_strscpy.S:23-26 | until the terminator or the bound is met, the page of the next byte is mapped to its end |
| CStrings.Window | cldm/asm/x86_64/cldm_avx2_strlen.S:19-27 | the null mask of a register tells where the terminator is, or that it lies further on |
| StrLen.Strlen | cldm/asm/x86_64/cldm_avx2_strlen.S:11-208 | the index of the first zero byte, with no load from a page the string does not touch |
| StrLen.Four | cldm/asm/x86_64/cldm_avx2_strlen.S:41-82 | the steps that stop at the first register with a null byte add up to its offset |
| StrLen.PageEdge | cldm/asm/x86_64/cldm_avx2_strlen.S:104-204 | the moves of 16, 8, 4, 2 and 1 bytes reach the end of the page or the terminator |
| StrLen.Narrow | cldm/asm/x86_64/cldm_avx2_strlen.S:132-143 | shifting out the lanes above a short load leaves the null mask of the bytes loaded |
| StrCopy.Strscpy | cldm/asm/x86_64/cldm_avx2_strscpy.S:36-649 | for every string, page offset and size of at least one: the length and the string with its terminator, or the error and a truncated string with one; the result is negative iff the string does not fit, and its length otherwise; nothing from the size on changes, and no load leaves the pages of the first n bytes |
| StrCopy.ScalarStrscpy | cldm/cldm_byteseq.c:13-26 | the same outcome from the byte loop |
| StrCopy.OutcomesAgree | cldm/cldm_byteseq.c:13-26 | two copies of the same text agree on the result and on every byte up to the terminator, wherever the text lies |
| StrCopy.Blocks | cldm/asm/x86_64/cldm_avx2_strscpy.S:70-185 | from an aligned offset on, whatever of page end, buffer end and terminator comes first |
| StrCopy.Four | cldm/asm/x86_64/cldm_avx2_strscpy.S:81-140 | everything up to the register with the terminator is stored |
| StrCopy.EndAligned | cldm/asm/x86_64/cldm_avx2_strscpy.S:173-316 | fewer than 128 bytes of buffer left: the last register ends with the buffer |
| StrCopy.PageEdge | cldm/asm/x86_64/cldm_avx2_strscpy.S:318-484 | a string that starts close to the end of a page |
| StrCopy.EndUnaligned | cldm/asm/x86_64/cldm_avx2_strscpy.S:486-645 | fewer than 32 bytes of buffer left at any alignment |
| Dfa.Dfa.constructor | cldm/cldm_dfa.c:151-177 | a recogniser without words |
| Dfa.Dfa.AddArgument | cldm/cldm_dfa.c:98-120 | adds exactly one word, or gives it a new code |
| Dfa.Dfa.Append | cldm/cldm_dfa.c:71-96 | a new edge and a new state for a prefix that had none, however the arrays grow |
| Dfa.Dfa.FindEdge | cldm/cldm_dfa.c:103-108 | the walk along the chain finds the edge with a character iff the longer prefix has a state |
| Dfa.Dfa.Simulate | cldm/cldm_dfa.c:122-149 | the result is n and a code iff the first n characters are an added word with that code, not zero, and no longer prefix of the input starts an added word; it is -1 and zero iff there is no such n, whatever follows in the input |
| Dfa.AnswerIs | cldm/cldm_dfa.c:122-149 | there is at most one such n, and it is where the walk ends |
| Dfa.StatesArePrefixes | cldm/cldm_dfa.c:12-21 | states stand one-to-one for the prefixes of added words, and edges out of one state carry different characters |
| Dfa.WalkIsLongest | cldm/cldm_dfa.c:128-139 | the walk ends with the longest prefix that starts an added word |
| Dfa.WordIsAnswered | cldm/cldm_dfa.c:141-145 | every added word with a code is recognised |
| Dfa.Appended | cldm/cldm_dfa.c:78-94 | a new edge and its state keep the structure of the trie |
| Dfa.WordAdded | cldm/cldm_dfa.c:118 | the code goes to the state of the word and to no other |
| Argp.Parse | cldm/cldm_argp.c:287-369 | a line is accepted iff argc is at most 128, no capture stream but the four names and no job count but positive numbers is given, every long switch is known and no switch is left waiting for its argument; then verbose, version, help and fail-fast are set iff some word says so by its letter or its name, and jobs, capture and redirect are those of the last word that gives them; argv is its stable partition, and posparams and nposparams denote the positional words in order |
| Argp.ScanWords | cldm/cldm_argp.c:325-350 | the loop sets the bits of exactly the positional words |
| Argp.Context.ParseWord | cldm/cldm_argp.c:326-349 | one word, as an argument, a switch or a positional word |
| Argp.Context.ParseShortSwitch | cldm/cldm_argp.c:234-255 | the letters of a short switch, unknown ones passed over, up to one that takes an argument |
| Argp.Context.ParseLongSwitch | cldm/cldm_argp.c:257-285 | a long switch through the recogniser, with its argument after '=' |
| Argp.Context.Run | cldm/cldm_argp.c:98-195 | which one setting each handler changes and to what, which arguments it refuses, and which handlers wait for the next word |
| Argp.Context.Partition | cldm/cldm_argp.c:198-228 | argv[1..argc) becomes the option words and then the positional words, each in order |
| Argp.SetFlag | cldm/cldm_argp.c:335 | setting a bit marks that word and no other |
| Argp.LongIsRow | cldm/cldm_argp.c:268-283 | a recognised long switch has a row in the table, so the assertion after the loop holds |
| ArgSpec.PickAt | cldm/cldm_argp.c:212-219 | each word goes behind exactly the words of its kind that came before it |
| ArgSpec.PartitionKeepsWords | cldm/cldm_argp.c:198-228 | no word is lost or duplicated |
| ArgSpec.PartitionKeepsMeaning | cldm/cldm_argp.c:325-359 | the partitioned line parses to the same state, its option words first |
| ArgSpec.ParseAgain | cldm/cldm_argp.c:287-369 | parsing and partitioning a parsed line once more changes nothing |
| ArgSpec.RestIsPositional | cldm/cldm_argp.c:192-195 | after "--" every word is positional |
| ArgMeaning.LineMeans | cldm/cldm_argp.c:287-369 | a line parses iff all its words are acceptable and none is missing, and the settings are those its words ask for, read off the words alone |
| ArgMeaning.StepMeans | cldm/cldm_argp.c:325-350 | the same for one word: as an argument of the switch before it, a short switch, a long one or a positional word |
| ArgMeaning.ShortMeans | cldm/cldm_argp.c:234-255 | letters count up to the first with an argument; what follows that one is its argument, in the same word or, if nothing does, in the next |
| ArgMeaning.LongMeans | cldm/cldm_argp.c:257-285 | a name without an argument is recognised whatever follows, one with an argument iff '=' and a right argument follow, and no other word with two dashes but those for "--" |
| ArgMeaning.NameBeforeEquals | cldm/cldm_argp.c:262-275 | every long name followed by '=' and anything is recognised with its length and its code |
| ArgMeaning.JobsAfterEquals | cldm/cldm_argp.c:160-190 | a line such as --jobs=4 parses iff the number is right, and changes nothing but the jobs, to at most 32 |
| ArgKinds.FlagsAreKinds | cldm/cldm_argp.c:325-350 | which words are positional depends on the words alone, not on the settings they make |
| ArgKinds.PositionalIff | cldm/cldm_argp.c:325-350 | a word is positional iff a "--" stands before it, or it neither is the argument of the switch before it nor starts with a dash |
| ArgKinds.LongAnswer | cldm/cldm_argp.c:262-266 | the recogniser gives the name the switch starts with, and "--" exactly for words that go on like no long switch |
| ArgKinds.ShortKind | cldm/cldm_argp.c:234-255 | a short switch waits for the next word iff its first letter with an argument ends the word |
| Uniq.UniqInto | cldm/cldm_algo.c:80-97 | the elements that differ from the last one kept, in order, nothing else written, also when source and destination are the same, or overlap with the destination first |
| Uniq.KeepsFirsts | cldm/cldm_algo.c:80-97 | of any array the first element of every run of equal elements is kept, and nothing else |
| Uniq.NeighboursDiffer | cldm/cldm_algo.c:80-97 | neighbours in the result differ |
| Uniq.SortedIsSet | cldm/cldm_algo.c:80-97 | of a sorted array every value is kept once, in increasing order |

## Left out

- RbTree.RbTree.ForEach: not claimed after a removal, which does not repair threads (cldm/cldm_rbtree.c:297-303).
- The comparison is fixed when a tree is made, where the C functions take it with every call; nodes carry their key, where C finds it in the enclosing record.
- HashTable.Table.Insert: nothing is claimed of a growth once it hashes a key that is gone, which is undefined behaviour (cldm/cldm_hash.c:103 and 111).
- HashTable.Table.Probe: the hash function is any function of the key, so FNV-1a itself is not modelled; the comparison of keys is equality of byte sequences.
- Primes.SizeUp: capacities are unbounded, so overflow of size_t is not modelled.
- Parallel runs with 32 threads, where the reduction leaves its slots, and runs in which the set-up of a thread or the collection of tests fails.
- The work of a test (its assertions, mocks, set-up and tear-down) is an outcome given by a parameter; what is printed is the sequence of tests with their indices, not the text.
- Allocation is assumed to succeed throughout; release of memory is not modelled.
- Strings and buffers of the byte routines do not overlap, as their callers promise; pages have 4096 bytes.
- StrCopy.ScalarStrscpy: sizes of at least one only, see above.
- MemCompare.Memcmp: no scalar counterpart, since the byte loop in cldm/cldm_byteseq.c:45-53 never moves on.
- Collect.Collect: what the look-ups in the symbol table give is a parameter; the choice of tests by identifiers (cldm/cldm_collect.c:38-90) is left out.
- Argp.Parse: argc of at least one; argv[argc] may change; strtoul is a parameter that gives the number or nothing; messages and usage text are not modelled.
- The stable partition of cldm/cldm_algo.c:46-78 and the digit count: the first is the loop of `Argp.Context.Partition` over other elements, the second an easy member.
- Uniq.UniqInto: at least one element, since the loop bound wraps around for none (cldm/cldm_algo.c:87); a destination that begins inside the source, where the first write destroys an element not yet read, is left out.
- The vector scan_lt, strcmp and strrchr and the aarch64 code.
- Symbol lookup and its cache, ELF mapping, stream capture, mock generation and the macro layer.
