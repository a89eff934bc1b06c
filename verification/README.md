# Split-ordered lists and hazard pointers: a model and its proofs

This Dafny project models two libraries that were written to be used together.

* **The split-ordered hash list** (`solist.hpp`, `solist.cpp`, `mark_ptr_type.hpp`): one linked
  list sorted by bit-reversed hash, with a lazily filled array of dummy nodes as an index into it.
  Doubling the array never moves an item.
* **Hazard-pointer reclamation** (`hazard_pointer.hpp`, `hazard_pointer.cpp`): pools of hazard
  pointers handed out in blocks, a snapshot of all of them, per-context arrays of retired items,
  and a lock-free list of pending deletes that is swapped out whole.

Each half is modelled twice. Run by one thread, its classes and loops are Dafny classes and loops
over the same fields, proved against functions on values; the promises are then proved about those
functions, over whole runs. Run by many threads, it is a state machine whose steps are single
loads, stores, exchanges and compare-and-swaps; the promises are proved about every interleaving.

`dafny verify dfyconfig.toml` checks everything.

## The files

| file | what it holds |
|---|---|
| `BitReversal.dfy` | both bit-reversal routines on 32-bit words, and reversal of numbers by recursion on their width |
| `SplitOrder.dfy` | the keys: which hashes fall between which dummy keys, and what doubling does to that |
| `MarkPtr.dfy` | the word that holds a pointer and a mark |
| `SolistTable.dfy` | what the list's operations do to a finite map and to the state of the index |
| `SolistNodes.dfy`, `Solist.dfy` | the list run by one thread |
| `LinkedHeap.dfy`, `SolistProtocol.dfy` | insert, delete and find as interleaved steps |
| `SolistStart.dfy` | lists of any size, which such runs may start from |
| `SolistHistory.dfy` | one sequential history for every such run |
| `SolistAlone.dfy` | operations that run alone for a while: that they end, how, and after how many steps |
| `SolistFailedDelete.dfy` | a run whose delete fails |
| `Blocks.dfy`, `BlockOwnership.dfy` | reserving and releasing blocks as interleaved steps |
| `Counting.dfy`, `HazptrValues.dfy`, `HazptrLifetime.dfy` | what the domain's and the contexts' operations do to values, and what a whole run adds up to |
| `HazptrPool.dfy`, `HazptrSnapshot.dfy`, `HazptrDomain.dfy`, `HazptrContext.dfy` | pools, snapshots, domain and contexts run by one thread |
| `HazptrProgram.dfy` | whole programs: one domain and any number of contexts at once |
| `HazptrCollects.dfy` | when a domain collects, how often, and when a context reclaims |
| `Reclamation.dfy`, `ReclamationEnd.dfy` | retiring, snapshots and collecting as interleaved steps, and the last collect |
| `ReclamationExact.dfy` | exactly what a collect, and a context with a full array, reclaims |
| `ReclamationHandOver.dfy` | handing an object on from one hazard pointer to another |
| `HazardSystem.dfy` | pools and reclamation together: what is stored to a block is what snapshots read |

## Main results

* Over any run of inserts, deletes, finds, bucket initialisations and expansions the list answers as
  a plain finite map, and its item counter is the size of that map (`PerformAll`); its state is the
  exact one `SolistTable` gives, including which buckets exist.
* In every interleaving of inserts, deletes and finds each answer is right at some moment of its
  call, and a successful update is the one step that changes the set of keys, by its own key
  (`Linearizable`, `OnlyUpdatesChangeKeys`, `OneMover`).
* In every such run there is one sequential history: all finished calls, each once and each at a
  moment of its own, in an order in which a plain set of keys gives every answer (`OneHistory`).
* From any reachable state with no marked node in the list, an operation that runs alone ends with
  the answer and the effect that it has on a set, after visiting exactly the nodes from its bucket's
  dummy to its key (`CallAlone`); one caught anywhere in the middle ends too, unless it is a delete
  whose unlink fails (`EndsAlone`).
* An insert doubles the array exactly when its bucket's chain and the counts call for it, and then
  the chain is divided between the bucket and its upper half (`InsertIndex`).
* In every interleaving an object that some hazard slot has held since before it was retired is not
  reclaimed (`HeldIsNotReclaimed` in `Reclamation`), no object is reclaimed twice, and none is lost.
* In every interleaving a collect reclaims, of the objects it has swapped out, exactly those that its
  snapshot has not read in any slot (`CollectReclaims`), and a context with a full array likewise
  (`ArrayReclaims`): what no slot holds meanwhile is reclaimed (`UnheldIsReclaimed`).
* Handing an object on from one hazard slot to another, with both holding it in between, is safe in
  every interleaving if and only if snapshots do not read the new slot before the old one
  (`HandOverSafe`); any number of such moves in the order of reading is safe (`HandedOn`).
* With blocks reserved, written and released by interleaved steps too, an object that the owner of a
  block has put into it before the object was retired is safe until the owner itself lets go of it
  (`OwnerProtects`).
* A block of hazard pointers never has two owners, and is all null when handed out; a reservation
  answers with the block it has come to own, or with nothing only if the size is wrong or all blocks
  were taken at some moment of the call (`WholeReserve`).
* When all contexts are gone, a final collect empties the delete list, with every retired object
  reclaimed exactly once (`PerformToTheEnd` for the objects of a sequential program, with any number
  of contexts over one domain; `EndOfLife` for interleavings, once all blocks have been given back).
* After every operation of every sequential run no more deletes are pending than there are hazard
  pointers (`PendingBounded`), and collects are no more frequent than the hazard pointers that are
  not in use allow (`CollectsBound`).

## What the code asks of its callers, and where it does less than it says

* The number of buckets has to be a power of two, at most 2^31, though the constructor does not
  check it: every search starts below the key it is for if and only if it is one (`PowersOnly`).
  Doubling it stays within 32 bits if and only if there are at most 2^30 buckets
  (`DoublingFits`): an expansion asks for that, and so does an insert that leads to one.
* Inserted hashes have to be below 2^31, because the base-class constructor of a node asserts a clear
  top bit. Delete and find take any 32-bit hash and ignore its top bit.
* `max_bucket_length * 2` and `max_bucket_length * n_buckets` wrap at 2^32 in the expansion check;
  the model wraps them too.
* `pools_reserve` is documented as a walk over the pools, but never moves on from the newest one: it
  ends if and only if that pool has the right block size and a free block (`PoolsReserveEnds`). The
  model keeps the loop and makes that condition a precondition of `Reserve`.
* A block is released if and only if it has at least one hazard pointer: a block of none can be
  reserved, but no pool finds it in its range (`ReleaseFinds`, `ZeroSizeStays`), and the assertion
  in the context's destructor fails.
* `reclaim` is public, but leaves a fill index that counts the surviving items if and only if it is
  called on a full array (`ReclaimIndex`); on any other it also hands null to the reclaimer
  (`ReclaimOfNull`).
* A concurrent delete that has marked its node gets rid of the key if and only if, at its unlink, the
  predecessor still links, unmarked, to the node (`UnlinkDecides`). Otherwise it has failed for good:
  its retry expects an unmarked link, nobody else unlinks the node, and the key stays in the list for
  ever (`FailedUnlinkKeepsKey`). The call itself goes round for ever, and so does every later delete
  of that key (`FailedDeleteNeverReturns`, `LaterDeletesNeverReturn`).
  Two threads on a new list are enough for that (`DeleteCanFail`).
* An object that moves from one hazard pointer to another has to move to a slot that snapshots read
  later: one in an older pool, or further up in the same one (`HandOverSafe`). Otherwise a collect can
  reclaim the object although some slot has held it at every moment (`BackwardsFails`).
* Retired objects are non-null, at even addresses, and retired once.

## Model

| member | source | states |
|---|---|---|
| BitReversal.BrevKnuthIsClassic | solist.cpp:23-46 | Knuth's routine and the classic one agree on every 32-bit word |
| BitReversal.BrevKnuthInvolutive | solist.cpp:34-46 | the routine in use undoes itself |
| BitReversal.BrevKnuthMirrors | solist.cpp:34-46 | it moves bit 31-i to bit i, for every i |
| BitReversal.BrevKnuthIsRev | solist.cpp:49-80 | read on numbers, it is reversal by recursion on the width |
| BitReversal.NumberInjective | solist.cpp:49-80 | different words are different numbers |
| BitReversal.NumberOnto | solist.cpp:49-80 | every number of up to 32 binary digits is a word's, so that nothing is lost by reasoning on numbers |
| BitReversal.RevInvolutive | solist.cpp:49-80 | numeric reversal of any width undoes itself |
| BitReversal.RevSplit | solist.cpp:49-80 | reversal swaps the low and the high part of a number and reverses each |
| SplitOrder.NodeKeyFoldsTopBit | solist.hpp:43-46 | a node key is odd, and is the key of the hash without its top bit |
| SplitOrder.NodeKeyEqual | solist.hpp:43-46 | two hashes share a node key exactly when they agree below the top bit |
| SplitOrder.BucketKeyEven | solist.hpp:49-54 | a dummy key is even, so that no dummy is taken for a data node |
| SplitOrder.AssertionHolds | solist.hpp:49-54 | of all 32-bit hashes, those below 2^31 are exactly the ones for which the assertion on a dummy key holds |
| SplitOrder.BucketKeyInjective | solist.hpp:49-54 | different buckets have different dummy keys |
| SplitOrder.IntervalIsBucket | solist.hpp:43-54 | for 2^k buckets, the hashes of a bucket are exactly those whose keys lie in the interval of 2^(32-k) keys at its dummy's key |
| SplitOrder.NoDummyBetween | solist.hpp:410-421 | between a bucket's dummy and a hash of that bucket there is no dummy of the table |
| SplitOrder.DoublingHalvesInterval | solist.hpp:180-200 | doubling the array cuts every bucket's interval in its middle, at the dummy of the bucket's upper half, whose slot exists then |
| SplitOrder.KeyStep | solist.hpp:313 | the step of the downward search is the width of one interval |
| SplitOrder.BucketKeysAreMultiples | solist.hpp:313-324 | the keys that are multiples of the step are exactly the dummy keys of existing slots, so the search meets each and leaves the array never |
| SplitOrder.PowersOnly | solist.hpp:132-139 | for 1 to 2^31 buckets, every search starts at a dummy below the key it is for if and only if the number of buckets is a power of two |
| SplitOrder.StartsBehind | solist.hpp:400-403 | for any other number, the next power of two is a hash whose search starts behind its key |
| MarkPtr.DecodeEncode | mark_ptr_type.hpp:37-56 | pointer and mark survive their packing into a word exactly when the pointer is aligned |
| MarkPtr.SameWord | mark_ptr_type.hpp:72-78 | comparing words is comparing pointers and marks |
| MarkPtr.MarkPtrType.Assign | mark_ptr_type.hpp:37-40 | assignment changes the pointer and keeps the mark |
| MarkPtr.MarkPtrType.LoadMarked | mark_ptr_type.hpp:42-46 | the two parts that are read are those that were packed |
| MarkPtr.MarkPtrType.Load | mark_ptr_type.hpp:48-56 | the pointer without the mark |
| MarkPtr.MarkPtrType.CasPointer | mark_ptr_type.hpp:72-78 | succeeds only on the expected pointer without a mark, and leaves the new one without a mark |
| MarkPtr.MarkPtrType.CasPointerMark | mark_ptr_type.hpp:80-90 | the same, and sets the mark asked for |
| MarkPtr.MarkPtrType.CasMark | mark_ptr_type.hpp:92-102 | the same, on an unchanged pointer |
| MarkPtr.MarkPtrType.CasBoth | mark_ptr_type.hpp:110-127 | compares and sets pointer and mark together |
| MarkPtr.MarkPtrType.Mark | mark_ptr_type.hpp:104-107 | sets the mark, keeps the pointer, and says whether it was the first to do so |
| MarkPtr.MarkPtrType.Reset | mark_ptr_type.hpp:129-132 | null, without a mark |
| MarkPtr.MarkFreezes | mark_ptr_type.hpp:72-90 | once marked, a link is not changed by any number of the list's compare-and-swaps |
| SolistTable.DoKeepsOk | solist.hpp:437-519 | every operation keeps the table in order; the buckets an insert sets up exist |
| SolistTable.RunIsPlainMap | solist.hpp:437-565 | a step towards PerformAll: over any run of the table, contents and answers are those of a plain map |
| SolistTable.IndexIsTransparent | solist.hpp:437-565 | a step towards PerformAll: tables with equal contents answer alike for ever, whatever their sizes, limits and initialised buckets |
| SolistTable.DoublingFits | solist.hpp:180 | the doubled size fits 32 bits exactly up to 2^30 buckets, and is zero beyond |
| SolistTable.InsertIndex | solist.hpp:469-515 | after the insert of an absent hash the number of buckets has doubled if and only if the bucket's chain, counted with the new item, exceeds the limit and reaches twice the limit or the items reach limit times buckets, modulo 2^32; then the upper half's dummy is there, and the chain is divided at it: the bucket keeps the hashes that are its own in the doubled table, and of its own hashes those with the next bit set go to the upper half. With an overfull chain otherwise, the dummy half a table further is there, if that slot exists, and cuts the chain behind the bucket's own hashes; with none, the index is as it was |
| SolistTable.OwnBucketSetUp | solist.hpp:398-408 | any other operation on a hash sets up the bucket of the hash and leaves the rest of the index alone |
| SolistTable.HalfByBit | solist.hpp:483-501 | the next bit of a hash says which half of its bucket it is in after doubling |
| SolistTable.InOwnChain | solist.hpp:469-481 | once its bucket is initialised, an item is counted in that bucket's chain |
| SolistNodes.KeyIdentifies | solist.hpp:423-428 | the only node with a hash's key is the data node of that hash without its top bit |
| SolistNodes.ScanStops | solist.hpp:414-421 | a place where the walk stops is where a walk from any earlier node stops |
| SolistNodes.PutData | solist.hpp:450-451 | a data node put at its place keeps order and index and adds exactly its item |
| SolistNodes.PutDummy | solist.hpp:354-374 | a dummy put at its place, and its slot filled, keep order and index and leave the contents alone |
| SolistNodes.DropData | solist.hpp:539 | a data node taken out removes exactly its item |
| SolistNodes.Doubled | solist.hpp:180-200 | the longer bucket array indexes the same list |
| Solist.Solist.constructor | solist.hpp:151-158 | an empty map, with the dummy of bucket 0 |
| Solist.Solist.IncItemCount | solist.hpp:141-144 | counts up, modulo 2^32 |
| Solist.Solist.DecItemCount | solist.hpp:146-149 | counts down, modulo 2^32 |
| Solist.Solist.Expand | solist.hpp:174-201 | doubles the index and nothing else, unless the array has grown since the caller looked |
| Solist.ItemsFit | solist.hpp:118 | the item counter never wraps: there are no more than 2^31 different hashes |
| Solist.ChainCount | solist.hpp:413-481 | the data nodes from a dummy to the next dummy or the end are that bucket's chain, each counted once |
| Solist.PlaceFound | solist.hpp:398-429 | a walk from the bucket's dummy meets no other dummy, stops where a scan of the whole list does, and finds the key exactly when the hash is there |
| Solist.SolistAccessor.Advance | solist.hpp:239-248 | one node further, with the predecessor remembered |
| Solist.SolistAccessor.NearestBucket | solist.hpp:311-324 | the downward search ends, stays in range, and finds the initialised bucket with the greatest key below the wanted one |
| Solist.SolistAccessor.GetParent | solist.hpp:308-338 | the cursor ends on the last node below the key |
| Solist.SolistAccessor.InitialiseBucket | solist.hpp:341-395 | afterwards the bucket has its dummy, and the contents are as they were |
| Solist.SolistAccessor.FindNode | solist.hpp:398-429 | answers whether the hash is there, and leaves the cursor at its place, with the steps counted and the predecessor known |
| Solist.SolistAccessor.CountChain | solist.hpp:469-481 | `steps` ends as the number of data nodes between the bucket's dummy and the next dummy or the end |
| Solist.SolistAccessor.GrowIfFull | solist.hpp:483-515 | exactly the growth or split the counts call for, with every slot in range; `InsertIndex` says what that is |
| Solist.SolistAccessor.InsertNode | solist.hpp:437-519 | the exact new table and answer; an item that is there is left alone |
| Solist.SolistAccessor.DeleteNode | solist.hpp:521-550 | the exact new table and answer |
| Solist.SolistAccessor.FindItemNode | solist.hpp:554-565 | the node of the hash, or null; contents as they were |
| Solist.SolistAccessor.PerformAll | solist.hpp:437-565 | a client's whole run ends and answers as the same run on a plain map, with `n_items` the size of the map |
| SolistProtocol.StepKeepsInv | solist.hpp:398-564 | every step of every thread keeps: strictly increasing keys along links, published nodes out of reach marked, marked links fixed, one owner for a node in flight |
| SolistProtocol.NeverStuck | solist.hpp:398-564 | no thread ever follows a link to no node |
| SolistProtocol.PublishNode | solist.hpp:443-457 | a successful insert adds exactly one key, which was absent |
| SolistProtocol.MarkNode | solist.hpp:533-536 | marking changes no key |
| SolistProtocol.UnlinkNode | solist.hpp:539-545 | a successful unlink removes exactly the one node and its key |
| SolistProtocol.LinkWhileLinked | solist.hpp:410-421 | what a node links to now it linked to when it was last in the list |
| SolistProtocol.CurWasLinked | solist.hpp:410-421 | wherever a walk stands, that node was in the list at some moment of the call, even if it has been unlinked under the walk |
| SolistProtocol.PrevWasLinked | solist.hpp:239-248 | the predecessor that a walk remembers was in the list, with a link to where the walk stands, at some moment of the call |
| SolistAlone.CallAlone | solist.hpp:398-565 | from any reachable state with no marked node in the list, a call of an idle thread that runs alone ends with the answer and the effect it has on a set, in a number of steps that is given exactly by the nodes between its bucket's dummy and its key |
| SolistAlone.FinishesAlone | solist.hpp:398-565 | so does a call whose search starts, or starts again, in such a state |
| SolistAlone.EndsAlone | solist.hpp:443-546 | from wherever it stands in such a state, an operation that runs alone ends, a delete possibly with a failed unlink; after any other failed compare-and-swap it searches again |
| SolistProtocol.Linearizable | solist.hpp:398-564 | every answer of insert, delete and find is right at some moment of its call; a successful update is its own step |
| SolistProtocol.OnlyUpdatesChangeKeys | solist.hpp:443-546 | the set of keys changes only at the compare-and-swap that ends a successful insert or delete, by that call's key |
| SolistProtocol.OneMover | solist.hpp:443-546 | no two calls can claim the same change |
| SolistProtocol.UnlinkDecides | solist.hpp:533-546 | a delete's unlink takes the key out of the list if and only if the predecessor links, unmarked, to the node; otherwise the key is there in every later state |
| SolistProtocol.FailedUnlinkKeepsKey | solist.hpp:533-546 | a delete that has marked its node but fails to unlink it leaves the key in the list through every continuation of the run |
| SolistProtocol.FailedDeleteNeverReturns | solist.hpp:521-550 | a delete that has failed to unlink its node walks to that node, fails to mark it and starts again, for as long as the run goes on |
| SolistProtocol.LaterDeletesNeverReturn | solist.hpp:521-550 | so does every delete of that key that starts its search after the failure |
| SolistFailedDelete.DeleteCanFail | solist.hpp:521-550 | a run of two threads from a new list that ends with a failed unlink |
| SolistHistory.OneHistory | solist.hpp:398-565 | every run has one sequential history: each finished call exactly once, at a moment inside it, so that no call comes before one that ended before it began; replayed on a plain set they give every answer and end with the keys of the last state |
| SolistStart.FreshListIsInit | solist.hpp:132-139 | a new list of one bucket is a state such runs may start from |
| SolistStart.FullIndexIsInit | solist.hpp:132-158 | so is a list of any size up to 2^31 with all its buckets initialised, for any number of threads |
| Blocks.Scan | hazard_pointer.cpp:95-101 | the first clear bit of the bitmap, if there is one |
| BlockOwnership.StepKeepsInv | hazard_pointer.cpp:84-160 | every step keeps: each set bit has one owner, owners are apart, free blocks are null, a release has nulled its block as far as it has got |
| BlockOwnership.OneOwner | hazard_pointer.cpp:84-160 | in every run a set bit has exactly one owner, a clear bit none, and a clear bit's block is all null |
| BlockOwnership.NeverStuck | hazard_pointer.cpp:84-160 | no thread ever reads or writes outside the blocks, so that its next step is always possible |
| BlockOwnership.HandedOut | hazard_pointer.cpp:103-116 | a block is handed out when nobody has it, all null, and it is the first free one; only its bit is set, and it is the answer |
| BlockOwnership.GivenBack | hazard_pointer.cpp:136-155 | a release clears the block's own bit and no other, and leaves the block null |
| BlockOwnership.WholeReserve | hazard_pointer.cpp:84-120 | over a whole call: the answer is the block by which the thread's blocks have grown, and then the size is the pool's; or nothing, with the thread's blocks as they were, and then the size is wrong or all blocks were taken at some moment of the call |
| BlockOwnership.WholeRelease | hazard_pointer.cpp:127-160 | a whole release gives back its block and no other, and leaves it null |
| BlockOwnership.FailsWhenFull | hazard_pointer.cpp:91-120 | a reservation of the right size fails exactly when the bitmap it read was full |
| HazptrValues.ReserveKeeps | hazard_pointer.cpp:84-120 | a block is found exactly when the size is right and one is free; free blocks stay null |
| HazptrValues.ReleaseKeeps | hazard_pointer.cpp:127-160 | the block is free and null, the others as they were |
| HazptrValues.ReleaseFinds | hazard_pointer.cpp:133-134 | the range check finds a block of its pool if and only if blocks have at least one hazard pointer |
| HazptrValues.ZeroSizeStays | hazard_pointer.cpp:84-134 | a block of no hazard pointers can be reserved, and a release leaves it reserved |
| HazptrValues.PoolsReserveEnds | hazard_pointer.cpp:273-281 | the loop ends if and only if the newest pool can serve the request |
| HazptrValues.OtherBlockSize | hazard_pointer.cpp:273-281 | a request for any other block size than the newest pool's goes round for ever |
| HazptrValues.FullPool | hazard_pointer.cpp:273-281 | so does any request once the newest pool has no free block |
| HazptrValues.ProtectedMeans | hazard_pointer.hpp:205-208 | for an object that may be retired, what the snapshot protects is what some slot holds, plain or marked |
| HazptrValues.AllReleased | hazard_pointer.cpp:137-141 | with no block reserved no slot protects anything |
| HazptrValues.KeptIs | hazard_pointer.cpp:446-461 | a sweep keeps every protected item and gives up every other, each as often as it was there |
| HazptrValues.CollectIs | hazard_pointer.cpp:418-470 | a collect reclaims exactly the unprotected objects; the others stay pending |
| HazptrValues.ProtectedAtMost | hazard_pointer.hpp:328-339 | there are no more different protected objects than hazard pointers |
| HazptrValues.PendingBound | hazard_pointer.cpp:389-411 | after the check no more deletes are pending than there are hazard pointers |
| HazptrValues.EnqueueAllIs | hazard_pointer.cpp:375-387 | every non-null item becomes pending or reclaimed, none that is protected is reclaimed |
| HazptrValues.CompactCounts | hazard_pointer.hpp:663-680 | closing up the array loses and doubles no item |
| HazptrValues.CompactSorts | hazard_pointer.hpp:663-680 | it puts all nulls behind all items |
| HazptrValues.CompactMoves | hazard_pointer.hpp:663-680 | an item stays where it is, or leaves a null and fills one further in front |
| HazptrCollects.EnqueueBelow | hazard_pointer.cpp:389-411 | as long as the counter is below the number of hazard pointers, giving up an object pushes it and does nothing else |
| HazptrCollects.EnqueueCollects | hazard_pointer.cpp:389-411 | otherwise exactly the objects that no slot holds are reclaimed, and the counter is set to the number of the others |
| HazptrCollects.EnqueueAllBelow | hazard_pointer.cpp:375-411 | the same for an array: within the number of hazard pointers its items are pushed, the last one in front, and nothing else happens |
| HazptrCollects.EnqueueAllCollects | hazard_pointer.cpp:375-411 | beyond, exactly the objects that no slot holds are reclaimed |
| HazptrCollects.CollectsBound | hazard_pointer.cpp:389-411 | over any number of objects given up one by one: collects, times the hazard pointers not in use and one more, are at most the counter's first value plus the objects, less its last value |
| HazptrCollects.DeleteItemStores | hazard_pointer.hpp:614-627 | with room for one more, an object is only stored in the array |
| HazptrCollects.DeleteItemReclaims | hazard_pointer.hpp:623-681 | the object that fills the array: exactly what no slot holds is reclaimed and the pending list is left alone; if all is held, the whole array goes to the domain |
| HazptrValues.ReclaimIndex | hazard_pointer.hpp:641-650 | the fill index counts the survivors if and only if the array was full |
| HazptrValues.ReclaimOfNull | hazard_pointer.hpp:641-650 | a null entry reaches the reclaimer if and only if no slot holds a marked null |
| HazptrValues.ReclaimIs | hazard_pointer.hpp:638-681 | of a full array exactly the unprotected items are reclaimed; the survivors are exactly the protected ones, in front; a wholly protected array moves to the domain |
| HazptrValues.DeleteItemIs | hazard_pointer.hpp:614-634 | the object and all others are reclaimed, pending or in the array, each once; the array is filled from the front with room left; nothing protected is reclaimed |
| HazptrValues.CloseContextIs | hazard_pointer.hpp:594-606 | a context's items are reclaimed or pending afterwards, and what is pending is protected |
| HazptrLifetime.StepKeepsInv | hazard_pointer.hpp:587-694 | every operation keeps: blocks and live contexts match one to one, free blocks are null, and every object given up is reclaimed, pending or in one array |
| HazptrLifetime.ReserveIs | hazard_pointer.cpp:350-360 | the block handed out is nobody's, all null, of the size asked for, in the newest pool |
| HazptrLifetime.StoreWrites | hazard_pointer.hpp:690-694 | a store reaches one slot of the context's own block |
| HazptrLifetime.HeldIsNotReclaimed | hazard_pointer.hpp:614-681 | no operation reclaims what a slot holds |
| HazptrLifetime.NothingLost | hazard_pointer.hpp:594-681 | at every moment of every run an object given up is in exactly one of: reclaimed, pending, a context's array |
| HazptrLifetime.NoReservations | hazard_pointer.cpp:321-328 | with all contexts gone no block is reserved, as the domain's destructor asserts |
| HazptrLifetime.WholeLifetime | hazard_pointer.hpp:458-468 | once all contexts are gone, the final collect leaves nothing pending and everything given up reclaimed exactly once |
| HazptrLifetime.DeleteBound | hazard_pointer.hpp:508-513 | giving up an object keeps the bound: no more deletes are pending than there are hazard pointers |
| HazptrLifetime.PendingBounded | hazard_pointer.cpp:389-411 | at the end of every run, and so after each operation of it, no more deletes are pending than there are hazard pointers |
| HazptrPool.HazptrPool.constructor | hazard_pointer.cpp:43-49 | 32 blocks, all null, none reserved |
| HazptrPool.HazptrPool.ReserveImpl | hazard_pointer.cpp:84-120 | the address of the first free block, if the size is right and there is one |
| HazptrPool.HazptrPool.ReleaseImpl | hazard_pointer.cpp:127-160 | releases the block if and only if it is in the range of this pool's storage, and says so |
| HazptrPool.HazptrPool.CopyHazardPointers | hazard_pointer.cpp:56-82 | the non-null slots of the pool, in order, and nothing else of the buffer |
| HazptrSnapshot.CountAll | hazard_pointer.cpp:191-194 | the number of hazard pointers in all pools |
| HazptrSnapshot.CopyAll | hazard_pointer.cpp:203-208 | all non-null slots, newest pool first, within the room counted |
| HazptrSnapshot.SortPrefix | hazard_pointer.cpp:211 | stands for the library's sort: sorted, and a permutation |
| HazptrSnapshot.MaskPrefix | hazard_pointer.cpp:231-236 | the marks are cleared and the order is kept |
| HazptrSnapshot.ValuesProtect | hazard_pointer.cpp:191-236 | the values gathered are exactly the pointers some slot protects |
| HazptrSnapshot.HazptrsSnapshot.constructor | hazard_pointer.cpp:182-237 | a sorted buffer of exactly the protected pointers |
| HazptrSnapshot.HazptrsSnapshot.Search | hazard_pointer.hpp:205-208 | stands for the library's binary search: finds a pointer exactly when it is there |
| HazptrDomain.HazptrDomain.PushDeleteNode | hazard_pointer.cpp:332-345 | the node is the new head of the list, the rest is as it was, one more is counted |
| HazptrDomain.HazptrDomain.EnqueueForDelete | hazard_pointer.cpp:365-370 | one more delete is pending |
| HazptrDomain.HazptrDomain.EnqueueItems | hazard_pointer.cpp:375-387 | a node for every non-null item, and the array is all null |
| HazptrDomain.HazptrDomain.SweepLocal | hazard_pointer.cpp:436-461 | the walk by links unlinks and reclaims exactly the unprotected nodes and keeps the others in order |
| HazptrDomain.HazptrDomain.PushBack | hazard_pointer.cpp:463-469 | the survivors are on the shared list again |
| HazptrDomain.HazptrDomain.Collect | hazard_pointer.cpp:418-470 | the exact new state of the domain |
| HazptrDomain.HazptrDomain.CollectIfRequired | hazard_pointer.cpp:389-411 | collects exactly when the counter exceeds the number of hazard pointers, restarting the counter; what that means for the list is `EnqueueBelow` and `EnqueueCollects` |
| HazptrDomain.HazptrDomain.PoolsNew | hazard_pointer.cpp:252-261 | one more pool, in front; the others and the list are as they were |
| HazptrDomain.HazptrDomain.PoolsReserve | hazard_pointer.cpp:273-281 | if it ends, a block of the newest pool |
| HazptrDomain.HazptrDomain.Reserve | hazard_pointer.cpp:350-360 | a block, from a new pool if the domain has none |
| HazptrDomain.HazptrDomain.PoolsRelease | hazard_pointer.cpp:291-301 | finds the block's pool and releases it there, unless blocks have no hazard pointers; the other pools are as they were |
| HazptrDomain.HazptrDomain.Snapshot | hazard_pointer.hpp:429-434 | a snapshot of all hazard pointers as they are |
| HazptrDomain.HazptrDomain.Enqueue | hazard_pointer.hpp:508-513 | pushes, then checks whether to collect |
| HazptrDomain.HazptrDomain.EnqueueAll | hazard_pointer.hpp:518-523 | the same for an array |
| HazptrContext.HazardPointerContext.Make | hazard_pointer.hpp:587-592 | a context with a block of its own and an empty array |
| HazptrContext.HazardPointerContext.Store | hazard_pointer.hpp:690-694 | stores to one slot of the context's own block; free blocks stay null |
| HazptrContext.HazardPointerContext.SweepItems | hazard_pointer.hpp:641-651 | unprotected entries are reclaimed in order and nulled, the fill index going down in machine arithmetic |
| HazptrContext.HazardPointerContext.CloseUp | hazard_pointer.hpp:661-680 | the two indices end without underflow, with the array closed up |
| HazptrContext.HazardPointerContext.Reclaim | hazard_pointer.hpp:638-681 | the exact new state of domain and array |
| HazptrContext.HazardPointerContext.DeleteItem | hazard_pointer.hpp:614-634 | the exact new state of domain and array, for null too; after a non-null object the array has room again |
| HazptrContext.HazardPointerContext.Destroy | hazard_pointer.hpp:594-606 | the exact new state of the domain |
| HazptrProgram.Perform | hazard_pointer.hpp:587-694 | one operation on one of several contexts over one domain: the objects do what the value functions say, and no other context changes |
| HazptrProgram.PerformAll | hazard_pointer.hpp:587-694 | a whole program: domain and contexts end as the run on values does, and every context that is left is in order |
| HazptrProgram.PerformToTheEnd | hazard_pointer.cpp:306-328 | once every context is destroyed the last collect leaves no delete node and no reservation, as the domain's destructor asserts, and everything given up is reclaimed exactly once |
| HazptrProgram.Undisturbed | hazard_pointer.hpp:587-606 | a context's block and array are its own, whatever the other contexts do |
| Reclamation.StepInv | hazard_pointer.cpp:182-470 | every step of every thread keeps all of the invariant below |
| Reclamation.PartitionStep | hazard_pointer.cpp:332-345 | shared list, freed nodes and threads' hands always hold every node exactly once |
| Reclamation.ChainsStep | hazard_pointer.cpp:418-470 | the shared list and every collector's list are what the links say, though pushes fail, retry and overlap with exchanges |
| Reclamation.LedgerStep | hazard_pointer.cpp:332-470 | every retired object is reclaimed, on a node or in one array, exactly as often as it was retired |
| Reclamation.CopySees | hazard_pointer.cpp:71-81 | when the copying passes a slot that holds an object, the object is in the buffer |
| Reclamation.StepGuards | hazard_pointer.cpp:182-237 | while a slot holds an object, whoever decides about it has yet to pass the slot or has copied it |
| Reclamation.HeldIsNotReclaimed | hazard_pointer.cpp:418-470 | an object held in one slot ever since before it was retired is not reclaimed, in any interleaving, with pools being added meanwhile |
| Reclamation.HandedOn | hazard_pointer.cpp:56-82 | an object handed on from slot to slot, each read by snapshots no earlier than the one before, since before it was retired, is not reclaimed, in any interleaving |
| ReclamationHandOver.HandOverSafe | hazard_pointer.cpp:191-208 | for any two slots, a move from one to the other is safe in every run if and only if snapshots do not read the new slot first |
| ReclamationHandOver.BackwardsFails | hazard_pointer.cpp:191-208 | for any two slots in the wrong order, a run in which one or the other holds the object all the time and a collect reclaims it |
| HazardSystem.StepKeepsInv | hazard_pointer.cpp:84-160 | the slots that snapshots read are those of the blocks, through every step of every thread |
| HazardSystem.OwnerStep | hazard_pointer.cpp:127-141 | no step of another thread touches what a block's owner has stored, nor reclaims the object stored there |
| HazardSystem.OwnerProtects | hazard_pointer.hpp:690-694 | what an owner has stored before an object was retired protects the object until the owner itself lets go of it |
| HazardSystem.AsReclamation | hazard_pointer.cpp:182-237 | every run of the whole is a run of the reclamation model, so that all its theorems hold |
| HazardSystem.EndOfLife | hazard_pointer.cpp:306-329 | after any run that ends with all blocks given back and all threads done, one more collect leaves an empty list and everything retired reclaimed exactly once |
| ReclamationExact.SnapshotIs | hazard_pointer.cpp:56-82 | a snapshot's buffer covers exactly the objects that its thread has read in some slot since the snapshot began |
| ReclamationExact.CollectReclaims | hazard_pointer.cpp:418-461 | an object on a collect's private list has been reclaimed, when the collect has decided, if and only if the snapshot has not read it in any slot |
| ReclamationExact.ArrayReclaims | hazard_pointer.hpp:638-681 | the same for the items of a full array; those that have been read stay in the array, and if all have been, it moves to the domain |
| ReclamationExact.UnheldIsReclaimed | hazard_pointer.cpp:446-461 | an object that no slot holds while the snapshot copies is reclaimed by the end of the collect, or of the context's sweep |
| ReclamationExact.AlwaysRoom | hazard_pointer.hpp:614-627 | a context's array never overflows, is full when the context reclaims, and has room for the next object when the thread is idle |
| ReclamationExact.LeaveEmpties | hazard_pointer.hpp:594-606 | a context that is destroyed leaves nothing in its array |
| ReclamationExact.PoolAdded | hazard_pointer.cpp:252-261 | a call that adds a pool ends with the step that adds it, 32 blocks of nulls, as the newest |
| ReclamationExact.CollectOfNothing | hazard_pointer.cpp:418-426 | a collect of an empty list takes no snapshot |
| HazardSystem.OwnerStores | hazard_pointer.hpp:690-694 | what the owner of a block stores is in that slot, for snapshots to read |
| Reclamation.ReclaimedOnce | hazard_pointer.cpp:446-461 | no object is reclaimed twice |
| Reclamation.NothingLost | hazard_pointer.cpp:332-470 | a retired object is in exactly one of: reclaimed, shared list, one thread's list or array |
| ReclamationEnd.LastCollect | hazard_pointer.hpp:458-468 | from any run at rest with no slot holding anything, one collect by one thread leaves an empty list and everything retired reclaimed exactly once |
| Reclamation.CollectorsApart | hazard_pointer.cpp:418-426 | concurrent collects never have a node in common |
| Reclamation.BufferFits | hazard_pointer.cpp:191-208 | the first pass makes room for exactly all hazard pointers of the pools there are, and the second never copies more |

## Left out

- Concurrent expansion: the code says it is not thread safe; the step model fixes the number of buckets.
- Concurrent bucket initialisation: races between threads that initialise one bucket are not modelled; the step model has all buckets initialised.
- Progress of calls that are disturbed again and again: it is proved of calls that run alone (`CallAlone`, `EndsAlone`), and of deletes when they do not return.
- Reuse of node memory in the list's step model: the list does not use the hazard pointers yet.
- Weak memory orders: all steps are sequentially consistent.
- Exact values of `hp_count` and `delete_count` under concurrency: `hp_count` is not updated atomically and `delete_count` is approximate by design; any thread may start a collect at any time instead.
- The order in which concurrent context arrays are closed up: the step model keeps the survivors in order, the sequential model has the two indices.
- Retry loops in the sequential classes: with one thread every compare-and-swap succeeds, which the classes assert or say; BlockOwnership, SolistProtocol and Reclamation have the retries.
- Machine width of `delete_count` and `hp_count`: unbounded, so that overflow of the two `int` counters is not modelled.
- The bitmap's word: it is the set of its 32 bits, and exclusive-or with a mask flips one of them.
- Addresses: an address in a pool is the pool and an offset, so that the range check of a release compares pools and then the offset with the pool's size.
- The other overload of a context's store, which copies from a pointer to a pointer, and the placement of hazard pointer objects in a block.
- Payloads changed through the pointer that `find_item_node` returns: a node's payload is fixed.
- Freeing the memory of a list, a pool or a domain, move constructors, allocators, shared ownership and one-time initialisation.
- The constructor of the list without a bucket length, which uses 4.
- Validation of a hazard after it is published: the client does that; the safety theorem starts from a slot that holds the object before it is retired.
- Solist.Solist.constructor: asks for a power of two up to 2^31, on which the code relies without checking it.
- Solist.Solist.Expand: asks that an array that is doubled has at most 2^30 entries, because the new size wraps to zero beyond (`DoublingFits`).
- Solist.SolistAccessor.GrowIfFull: asks the same where the counts call for an expansion.
- Solist.SolistAccessor.InsertNode: asks the same where the insert leads to an expansion.
- HazptrDomain.HazptrDomain.Reserve: asks that the newest pool, if there is one, can serve the request, because the loop does not end otherwise.
- HazptrDomain.HazptrDomain.PoolsReserve: asks the same of the pool it is given.
- HazptrContext.HazardPointerContext.Make: asks the same.
- HazptrLifetime.ReserveIs: asks the same.
- HazptrContext.HazardPointerContext.Destroy: asks for at least one hazard pointer, because the domain asserts that the block has been released.
- HazptrValues.DeleteItemIs: asks for a non-null object; `delete_item` does not check that, and the method gives its exact effect for null too.
