# Fimbulwinter: the data-structure layer, modelled and verified

Dafny models of the parts of the Fimbulwinter engine that carry its hard invariants, and
proofs about every run, every input or every reachable state of them.

- **Queues.** `RingProtocol` is the multi-producer, single-consumer ring as a step system
  with one step per atomic access, any number of producers and one consumer. The counters
  of check-outs, check-ins and pops only grow; the real indices are their residues
  (`Residues`). `RingStates` and `SimpleQueues` are the same ring used by one thread, a
  bounded FIFO; `PageQueues` chains such rings into an unbounded one.
- **Reference counting.** `RefCounting` interleaves the half-finished increments and
  decrements of `shared_ptr` and `weak_ptr` over any number of threads, pointer objects and
  blocks. `ExchangeQueues` is the triple buffer.
- **Text.** `JsonReader` and `IniReader` say what a text reads as, `JsonScanner` and
  `IniScanner` are the loops that compute it, `JsonText` describes every text of a value,
  `JsonStrict` says when acceptance means completeness, `JsonGrammar` that what is accepted
  is such a text, `IniText` describes every text of a configuration;
  `JsonWriter`, `IniWriter` and `IniBuffer` are the writers. C++ types become schemas
  (`JsonTypes`); number formatting is a `Codec`, of which `Decimals` gives an instance.
- **Containers.** `HashIndex` is the probing index, `Collections` and `MultiCollections` the
  dense arrays on top of it, each class agreeing with a plain map after any sequence of calls.
- **Files.** `FileLists` edits lists kept in one string, `FilePaths` checks paths,
  `Directories` is the state machine of aliases and shared directories.
- **The rest.** `Skeletons` (joints in preorder), `Layouts` (arrays behind a header),
  `Patterns` (combinators with pushed-down negation), `LookupTables`.

`dafny verify dfyconfig.toml` checks all of it.

Where code and its own comments or its callers' expectations disagree, the code is modelled:

- The check-out of the ring reads an index and compares it later. A producer that sleeps
  there while the others go round once can overfill the ring. `SleeperLosesValues` is such a
  run with two cells and two producers. `OverfillsExactly` and `SafeExactly` say which runs
  are free of it, in the indices the code itself compares, and `LapFreeNeverOverfills` that
  runs in which no attempt spans a lap are.
- The JSON reader takes a text that ends behind a nested value for complete, because only
  positive return values count as errors (`TruncatedListReads`). `JsonStrict` compares it
  with the reader that insists on the closing brackets: they differ only on texts used up
  to the last byte, and a caller can tell by putting a blank behind the text
  (`CompleteExactly`). What the writer emits ends in a line end, where both agree.
- A string is written without escaping. It reads back exactly when it is `Closed`: every
  quote in it has one or three backslashes before it, and its end none or two
  (`ReadsExactly`).
- A playback that does not repeat wraps to its first frame when it finishes (`Tick`).

## Model

| member | source | states |
|---|---|---|
| RingProtocol.KeepStep | code/src/core/container/Queue.hpp:193-220 | every atomic step that does not overfill keeps the whole invariant: indices are residues of the counters, each slot between check-in and check-out has one owner, cells are raw or live as the counters say |
| RingProtocol.KeepRun | code/src/core/container/Queue.hpp:193-220 | so does every interleaving of any length |
| RingProtocol.KeepConstruct | code/src/core/container/Queue.hpp:428-430 | the cell a producer constructs in is raw: nothing live is built over |
| RingProtocol.KeepCasReadEnd | code/src/core/container/Queue.hpp:211-220 | a check-in whose residues agree is that producer's turn, with no hypothesis on laps |
| RingProtocol.KeepPopMove | code/src/core/container/Queue.hpp:434-452 | the consumer moves out a live cell, holding the value of the oldest check-out not yet taken |
| RingProtocol.NoLapHasRoom | code/src/core/container/Queue.hpp:194-209 | an attempt that does not span a lap and takes effect still finds room |
| RingProtocol.LapFreeNeverOverfills | code/src/core/container/Queue.hpp:194-209 | hence a run without such attempts never overfills |
| RingProtocol.OverfillsExactly | code/src/core/container/Queue.hpp:194-209 | a check-out overfills if and only if its own guard, read again when the compare-exchange takes effect, would report full; the attempt then spans a lap and the ring looks empty afterwards |
| RingProtocol.SafeExactly | code/src/core/container/Queue.hpp:193-220 | a run is safe at every moment, in counters, ownership, turns and order, if and only if no check-out takes effect against its guard |
| RingProtocol.NeverStuck | code/src/core/container/Queue.hpp:193-220 | every producer and the consumer can always take the next step, so none constructs or takes out of bounds |
| RingProtocol.RunsAreSafe | code/src/core/container/Queue.hpp:193-220 | in every lap-free run: taken <= checked in <= checked out, at most capacity - 1 outstanding, one owner per claimed slot, popped values a prefix of the values in check-out order |
| RingProtocol.Conservation | code/src/core/container/Queue.hpp:417-452 | between calls, what was checked out is what was popped followed by what is live in the ring |
| RingProtocol.FullIsHonest | code/src/core/container/Queue.hpp:202-204 | a report of full means capacity - 1 values were outstanding, or another producer came first |
| RingProtocol.EmptyIsHonest | code/src/core/container/Queue.hpp:434-443 | a report of empty means exactly that nothing checked in was left |
| RingProtocol.LogKeepsOrder | code/src/core/container/Queue.hpp:420-433 | the check-out order restricted to a producer is the order of that producer's own steps |
| RingProtocol.ProducerOrder | code/src/core/container/Queue.hpp:417-452 | each producer's values are popped in the order it pushed them |
| RingProtocol.CallEnds | code/src/core/container/Queue.hpp:193-220 | a step ends a try_emplace if and only if it is the check-in whose turn it is, or it read an index right behind the slot, which is the report of full |
| RingProtocol.CallsAreDecided | code/src/core/container/Queue.hpp:193-209 | in every run, the values a producer calls with are, in order, those of its calls checked out or refused and of the one still undecided, and what it checked out is what was accepted: no failed compare-exchange loses a value |
| RingProtocol.OneCall | code/src/core/container/Queue.hpp:193-209 | one whole call, whatever the other threads do, adds its value exactly once, or nothing if it found the ring full |
| RingProtocol.AloneDecides | code/src/core/container/Queue.hpp:197-206 | after a failed compare-exchange the attempt is up to date: left alone it is refused exactly by a full ring and takes effect otherwise |
| RingProtocol.SleeperLosesValues | code/src/core/container/Queue.hpp:194-209 | a concrete run with an attempt spanning a lap, in which a check-out takes effect against its guard, the ring is not safe throughout, and checked-out values are no longer seen |
| Residues.ResidueNext | code/src/core/container/Queue.hpp:21-25 | advancing a counter moves its index by wrap_reset |
| Residues.ResidueInjective | code/src/core/container/Queue.hpp:21-25 | within one lap an index determines its counter |
| Powers.LeastPower | code/src/utility/bitmanip.hpp:10-34 | the least power of two that is not smaller, 0 for 0 |
| RingStates.PushAppends | code/src/core/container/Queue.hpp:193-220 | run alone, a ring is full exactly with capacity - 1 values, and a push appends |
| RingStates.PopTakesFirst | code/src/core/container/Queue.hpp:434-452 | it is empty exactly without values, and a pop takes the first and leaves the others in order |
| RingStates.HoldsOne | code/src/core/container/Queue.hpp:417-452 | a ring holds one sequence of values only |
| RingStates.LiveCells | code/src/core/container/Queue.hpp:166-182 | the live cells are one range or two, as the destructor walks them |
| RingStates.FreeCell | code/src/core/container/Queue.hpp:193-209 | the guard reports full exactly at capacity; otherwise the cell written next is the raw one behind the newest value |
| SimpleQueues.SimpleQueue.CheckoutWriteSlot | code/src/core/container/Queue.hpp:193-209 | succeeds exactly below capacity, and then gives out a raw cell, the one behind the newest value |
| SimpleQueues.SimpleQueue.TryPush | code/src/core/container/Queue.hpp:420-433 | succeeds exactly below capacity and appends |
| SimpleQueues.SimpleQueue.TryPop | code/src/core/container/Queue.hpp:434-452 | fails exactly when empty, else returns and removes the oldest value |
| SimpleQueues.SimpleQueue.DestructAll | code/src/core/container/Queue.hpp:166-182 | destroys each queued value once and touches no raw cell |
| PageQueues.PageQueue.TryEmplace | code/src/core/container/Queue.hpp:283-316 | appends to the unbounded queue unless the needed pages cannot be obtained, and then changes nothing of it |
| PageQueues.PageQueue.TryPop | code/src/core/container/Queue.hpp:318-363 | fails exactly when all pages together are empty, although at most one page is given back |
| PageQueues.PageQueue.FindOldest | code/src/core/container/Queue.hpp:322-332 | following the links ends at the two oldest pages |
| PageQueues.PageQueue.Unlink | code/src/core/container/Queue.hpp:333-344 | giving back an empty oldest page leaves the queue as it is |
| PageQueues.PageQueue.Destroy | code/src/core/container/Queue.hpp:248-259 | in the end every page ever obtained was given back exactly once |
| PageQueues.NewestRing | code/src/core/container/Queue.hpp:283-316 | the page written to is full exactly when it has no room, and takes the value otherwise |
| PageQueues.OldestRing | code/src/core/container/Queue.hpp:346-362 | the oldest ring is empty exactly if the oldest page holds nothing |
| PageQueues.ChainedGrow | code/src/core/container/Queue.hpp:290-308 | a page linked behind a full one keeps the chain: inner pages are full |
| RefCounting.KeepStep | code/src/utility/shared_ptr.hpp:172-190 | every step of every operation keeps: each count equals the parts held by pointer objects and by operations under way |
| RefCounting.KeepRun | code/src/utility/weak_ptr.hpp:37-148 | so does every interleaving |
| RefCounting.FetchesSame | code/src/utility/shared_ptr.hpp:116-131 | when copy-assignment and lock read their source again at the end, it still holds the pointer whose counts they raised |
| RefCounting.RunsAreSafe | code/src/utility/shared_ptr.hpp:172-190 | in every run no freed block is touched, a value is destroyed at most once and only when the last shared part went, a block is freed at most once, afterwards |
| RefCounting.WeakCoversShared | code/src/utility/shared_ptr.hpp:172-190 | when the weak count is zero, no shared part and no pending destruction is left |
| RefCounting.FreedIsUnreachable | code/src/utility/weak_ptr.hpp:135-142 | no pointer object refers to a freed block and no operation works on one |
| RefCounting.ZeroIsFinal | code/src/utility/weak_ptr.hpp:114-133 | no step revives a shared count that reached zero |
| RefCounting.ZeroStaysZero | code/src/utility/weak_ptr.hpp:114-133 | nor does any run, lock included |
| RefCounting.LockedIsAlive | code/src/utility/weak_ptr.hpp:114-133 | a shared_ptr, one from lock included, refers to a value not destroyed in memory not freed |
| RefCounting.MakeDelivers | code/src/utility/shared_ptr.hpp:30-36 | a new shared_ptr refers to a value of its own, which it alone keeps alive |
| RefCounting.CopyDelivers | code/src/utility/shared_ptr.hpp:116-131 | in any interleaving a copy ends with the target holding what the source held when it started |
| RefCounting.MoveDelivers | code/src/utility/shared_ptr.hpp:133-145 | a move ends with the source null and the target holding what the source held |
| RefCounting.LetGoDelivers | code/src/utility/shared_ptr.hpp:153-160 | a reset ends with null, a destructor with no pointer object |
| RefCounting.LockDelivers | code/src/utility/weak_ptr.hpp:114-133 | a lock gives out what its weak_ptr refers to, and null exactly if at one of its looks the shared count was zero; so it succeeds whenever the value is still held at its end |
| RefCounting.EndsAlone | code/src/utility/weak_ptr.hpp:114-148 | from any stage an operation ends within eight steps of its thread if no other thread takes one: a failed exchange of lock brings it up to date |
| RefCounting.NeverStuck | code/src/utility/weak_ptr.hpp:114-148 | an operation under way can always take its next step |
| RefCounting.Quiescent | code/src/utility/shared_ptr.hpp:172-190 | with all threads idle: destroyed exactly if no shared_ptr is left, freed exactly if no pointer object at all is left |
| ExchangeQueues.KeepStep | code/src/core/container/ExchangeQueue.hpp:53-82 | every step of reader and writers keeps: indices a permutation, live cells hold what was published, each value in a cell or destroyed once |
| ExchangeQueues.RunsAreSafe | code/src/core/container/ExchangeQueue.hpp:108-139 | in every interleaving the indices stay a permutation of 0, 1, 2, nothing is built over or read raw, what the reader got is what was published, in strictly increasing push order, and nothing is destroyed twice |
| ExchangeQueues.PopFetchesNewest | code/src/core/container/ExchangeQueue.hpp:53-82 | whatever the writers do meanwhile, a pop fetches the newest published value, and if it finds none then nothing was published or the newest value was read before |
| ExchangeQueues.PushesArePublished | code/src/core/container/ExchangeQueue.hpp:66-82 | in every run the values pushed are published, each once and in the order of the calls; only that of the writer at work may be still to come |
| ExchangeQueues.PopsDeliver | code/src/core/container/ExchangeQueue.hpp:108-139 | the reader gets, for each of its pops in order, the newest value published at that moment if it had not got it before, and nothing else |
| ExchangeQueues.Quiescent | code/src/core/container/ExchangeQueue.hpp:108-139 | between calls every published value was destroyed exactly once, but for the newest if it still waits |
| HashIndex.HashMirrors | code/src/core/container/Collection.hpp:27-32 | keys that add up to 2^64 wrap to equal squares and share all their places |
| HashIndex.ProbeSteps | code/src/core/container/Collection.hpp:364-378 | each of a key's places lies the next odd number behind the one before, modulo the size |
| HashIndex.FindBucket | code/src/core/container/Collection.hpp:364-378 | the loop finds the first of the five places that holds the key |
| HashIndex.FindExactly | code/src/core/container/Collection.hpp:364-378 | a hit is a probe position holding the key, a miss means none of the five does |
| HashIndex.FindLocates | code/src/core/container/Collection.hpp:380-400 | every live key is found in its bucket, no other key is found |
| HashIndex.LocatedRemove | code/src/core/container/Collection.hpp:427-439 | emptying a bucket hides no other key |
| HashIndex.Rehash | code/src/core/container/Collection.hpp:133-156 | a rehash that succeeds carries every key with its slot to one of its new places, and it gives up exactly if refilling the new table in bucket order does |
| HashIndex.FreePlaceFound | code/src/core/container/Collection.hpp:391-400 | an empty bucket is found exactly if one of the five places is free |
| HashIndex.GivesUpExactly | code/src/core/container/Collection.hpp:133-156 | refilling a table gives up exactly if some key finds its five places taken by those before it |
| HashIndex.GrowthGoesOn | code/src/core/container/Collection.hpp:402-414 | a key without a free place finds one exactly if it does in the table grown once |
| HashIndex.GrowthEnds | code/src/core/container/Collection.hpp:402-414 | growing ends with a free place, or because memory is used up or the next rehash gives up |
| HashIndex.GrowthHelps | code/tst/core/container/Collection.cpp:100-114 | in a table of one bucket the second key is placed only after growing |
| HashIndex.TryPlace | code/src/core/container/Collection.hpp:402-414 | yields a free place of the key, never losing an entry, exactly if there is one after growing as often as memory lasts and every rehash succeeds |
| Collections.Unpack | code/src/core/container/Collection.hpp:106-131 | type and index come out of a slot as they went in, and setting the index keeps the type |
| Collections.RehashedOk | code/src/core/container/Collection.hpp:133-156 | after a rehash the same map is represented |
| Collections.PlacedOk | code/src/core/container/Collection.hpp:294-316 | a new row and its slot add exactly one entry to the map |
| Collections.ErasedOk | code/src/core/container/Collection.hpp:427-439 | swapping the last row into the gap and repairing its slot removes exactly one entry; slots and rows stay inverse |
| Collections.Collection.Find | code/src/core/container/Collection.hpp:416-419 | finds the key's bucket exactly if the map has the key |
| Collections.Collection.Get | code/src/core/container/Collection.hpp:206-231 | the component if it has the asked type |
| Collections.Collection.Emplace | code/src/core/container/Collection.hpp:294-316 | adds exactly this entry or changes nothing; succeeds exactly if the key is new, its array can grow, and a place is free after at most as many growths as memory allows |
| Collections.Collection.Erase | code/src/core/container/Collection.hpp:318-336 | removes exactly the key of the handle, and every other handle stays valid |
| Collections.Collection.Clear | code/src/core/container/Collection.hpp:279-292 | leaves the empty map |
| Collections.Collection.GetAllKeys | code/src/core/container/Collection.hpp:257-277 | every key once |
| MultiCollections.PlacedOk | code/src/core/container/Collection.hpp:670-693 | a component is added to a key that lacks the type, or to a free bucket, and to nothing else |
| MultiCollections.RemovedOk | code/src/core/container/Collection.hpp:790-806 | removing at an index repairs the moved row's slot and takes away this component only |
| MultiCollections.ReleasedExactly | code/src/core/container/Collection.hpp:790-806 | the key is released exactly if this was its only component |
| MultiCollections.BitIsComponent | code/src/core/container/Collection.hpp:499-546 | a mask bit is set exactly when the key has a component of that type |
| MultiCollections.MultiCollection.Emplace | code/src/core/container/Collection.hpp:670-693 | adds the component or changes nothing; with memory there it succeeds exactly for a key that lacks the type and for a new key that finds a place, growing as often as memory allows |
| MultiCollections.MultiCollection.EraseOne | code/src/core/container/Collection.hpp:695-707 | removes one component, and the key exactly with its last |
| MultiCollections.MultiCollection.EraseAll | code/src/core/container/Collection.hpp:709-715 | removes the key with all components and nothing else |
| MultiCollections.MultiCollection.EraseFrom | code/src/core/container/Collection.hpp:808-820 | the recursion over the types ends with the key gone |
| LookupTables.FindDistinct | code/src/utility/lookup_table.hpp:66-85 | among distinct names the first match is the name itself |
| LookupTables.NameRoundTrip | code/src/utility/lookup_table.hpp:158-177 | the name of a value looks up the value again |
| JsonText.ClosesExactly | code/src/core/JsonStructurer.hpp:183-218 | the loop over escaped quotes stops at a given quote if and only if all before it are escaped and this one is not |
| JsonText.ReadsExactly | code/src/core/JsonStructurer.hpp:183-218 | a quoted string reads back as itself if and only if it is closed |
| JsonText.CleanIsClosed | code/src/core/JsonSerializer.hpp:48-74 | strings free of quotes and backslashes are closed |
| JsonText.ReadsKey | code/src/core/JsonStructurer.hpp:309-337 | a key, blanks and a colon lead to the member of that name |
| JsonText.ChainReads | code/src/core/JsonStructurer.hpp:379-391 | a reading loop whose turns are known consumes them all and yields the last parts |
| JsonText.ReadsValue | code/src/core/JsonStructurer.hpp:220-489 | read into any object, every text makes of it what it says, whatever the blanks between tokens and the order of members, and is consumed exactly, strictly or not |
| JsonText.ReadsRecord | code/src/core/JsonStructurer.hpp:294-350 | a record changes in the members named, one after the other, each read into what it holds; the others keep their values |
| JsonText.ReadsList | code/src/core/JsonStructurer.hpp:354-399 | a list grows by the elements read; the empty text with blanks in it adds none |
| JsonText.ReadsTuple | code/src/core/JsonStructurer.hpp:401-455 | the same for tuples |
| JsonText.ReadsMembers | code/src/core/JsonStructurer.hpp:305-346 | fields naming any members, none twice, in any order: those named get their values, read into what they held, and all others keep theirs |
| JsonGrammar.AcceptedIsSpelled | code/src/core/JsonStructurer.hpp:220-489 | what the strict reader accepts, from any object, is blanks and then a text that makes of it what is returned |
| JsonGrammar.StrictExactly | code/src/core/JsonStructurer.hpp:220-489 | apart from bare numbers, the strict reader accepts exactly the texts of a value behind blanks, and as that value |
| JsonStrict.ValuesAgree | code/src/core/JsonStructurer.hpp:294-455 | whatever a reader that insists on closing brackets reads, the program reads too; and whatever the program reads with text left over, that strict reader reads too |
| JsonStrict.StrictIsPadded | code/src/core/JsonStructurer.hpp:164-181 | reading strictly gives the same value, place or error as the program gives with any one blank put behind the text |
| JsonStrict.CompleteExactly | code/src/core/JsonStructurer.hpp:493-512 | a text is accepted strictly if and only if structure_json accepts it with a blank behind it, and then all three agree on the value |
| JsonStrict.StrictBehindBlank | code/src/core/JsonStructurer.hpp:164-181 | on a text that ends in a byte up to space the program is strict |
| JsonStrict.TruncatedListReads | code/src/core/JsonStructurer.hpp:382-384 | every list that breaks off behind its first element, whatever its type, is accepted by the program and rejected strictly |
| JsonScanner.SkipSpace | code/src/core/JsonStructurer.hpp:164-181 | the loop stops at the first byte above space; the end of the text is an error |
| JsonScanner.ScanString | code/src/core/JsonStructurer.hpp:183-218 | the loop computes the specified string and position |
| JsonScanner.ScanMembers | code/src/core/JsonStructurer.hpp:305-346 | the loop over members computes the specified record |
| JsonScanner.ScanElements | code/src/core/JsonStructurer.hpp:376-395 | the loop over elements computes the specified list |
| JsonScanner.ScanParts | code/src/core/JsonStructurer.hpp:401-440 | the recursion over a tuple computes the specified elements |
| JsonScanner.ScanValue | code/src/core/JsonStructurer.hpp:220-489 | the recursive reader computes the specified value, position or error |
| JsonScanner.ScanJson | code/src/core/JsonStructurer.hpp:493-512 | so does structure_json |
| JsonWriter.WritesSpelling | code/src/core/JsonSerializer.hpp:77-249 | what is written for a readable value is a text that merges it into any object |
| JsonWriter.MergeDefault | code/src/core/JsonSerializer.hpp:264-280 | merging a value into a default object gives the value |
| JsonWriter.SerializedIsComplete | code/src/core/JsonSerializer.hpp:264-280 | what is serialized reads back strictly too, into any object and up to its line end |
| JsonWriter.JsonRoundTrip | code/src/core/JsonSerializer.hpp:264-280 | reading what was serialized merges it into any object: lists grow, everything else is replaced; of a default object it makes the value |
| JsonWriter.WriteString | code/src/core/JsonSerializer.hpp:48-74 | appends the quoted string to the buffer |
| JsonWriter.WriteRecord | code/src/core/JsonSerializer.hpp:95-148 | appends exactly the indented text of the record and touches nothing behind it |
| JsonWriter.WriteSequence | code/src/core/JsonSerializer.hpp:151-222 | the same for lists and tuples |
| JsonWriter.WriteValue | code/src/core/JsonSerializer.hpp:77-249 | the same for every value nested at most sixteen deep |
| JsonWriter.WriteJson | code/src/core/JsonSerializer.hpp:264-280 | fills the buffer with the text and a line end, and the reader gives the value back from there |
| JsonWriter.Indentation | code/src/core/JsonSerializer.hpp:111-143 | the pieces cut from the literals are the separators and as many tabs as the depth asks for |
| Decimals.DecimalIsLawful | code/src/core/JsonStructurer.hpp:248-265 | decimal integers meet the contract asked of the number routines |
| IniWriter.TextReads | code/src/core/IniStructurer.hpp:345-364 | a line's text reads back if and only if it holds no line end |
| IniWriter.EntryReads | code/src/core/IniStructurer.hpp:196-235 | a written entry assigns its value to its member and ends at the line end |
| IniWriter.HeaderReads | code/src/core/IniStructurer.hpp:164-190 | a written header gives its name |
| IniWriter.BlockReads | code/src/core/IniStructurer.hpp:193-235 | the entries of a level are read up to the next header or the end |
| IniWriter.SectionsRead | code/src/core/IniStructurer.hpp:128-162 | all sections are read into their members |
| IniWriter.IniRoundTrip | code/src/core/IniSerializer.hpp:62-228 | the reader recovers a two-level configuration exactly, whatever the target held before |
| IniText.GapIsSkipped | code/src/core/IniStructurer.hpp:411-470 | blanks and whole comments are skipped, however many and in whatever order |
| IniText.CommentsAreSkipped | code/src/core/IniStructurer.hpp:411-470 | a comment line put before an entry, a header or the end changes nothing of what is read |
| IniText.LinesRead | code/src/core/IniStructurer.hpp:193-235 | the lines of a level, in whatever gaps and order, assign their members one after the other up to the header or the end |
| IniText.ReadsConfiguration | code/src/core/IniStructurer.hpp:128-162 | read into any object, a configuration assigns what its entries say, in order; each section is read into what its member holds |
| IniText.LastLineStays | code/src/core/IniStructurer.hpp:193-235 | a member holds what the last line naming it says, and keeps what it held if none does |
| IniScanner.ScanToChar | code/src/core/IniStructurer.hpp:366-388 | the nested loops find the byte on the same line, or tell line end from text end |
| IniScanner.ScanToLine | code/src/core/IniStructurer.hpp:390-409 | the nested loops find the next line end |
| IniScanner.ScanWhitespace | code/src/core/IniStructurer.hpp:411-470 | blanks and comments are skipped in turn |
| IniScanner.ScanEntries | code/src/core/IniStructurer.hpp:193-235 | the loop computes the specified entries |
| IniScanner.ScanSections | code/src/core/IniStructurer.hpp:143-161 | the loop computes the specified sections |
| IniScanner.ScanIni | code/src/core/IniStructurer.hpp:475-494 | structure_ini computes what the text reads as |
| IniBuffer.WriteEntry | code/src/core/IniSerializer.hpp:187-208 | appends the key, the spaced sign, the value and the line end |
| IniBuffer.WriteBlock | code/src/core/IniSerializer.hpp:65-87 | appends the entries of a level and the empty line that follows any |
| IniBuffer.WriteSections | code/src/core/IniSerializer.hpp:89-101 | appends the sections in member order |
| IniBuffer.WriteIni | code/src/core/IniSerializer.hpp:233-247 | fills the buffer with exactly the configuration's text |
| IniBuffer.WriteAndRead | code/src/core/IniStructurer.hpp:475-494 | writing a configuration to a buffer and scanning it gives the same configuration |
| FileLists.NameAt | code/src/engine/file/system_inotify.cpp:395-422 | where each name stands in the string, and that the search for a semicolon ends behind it |
| FileLists.ErasedMiddle | code/src/engine/file/system_inotify.cpp:437-450 | erasing a name with its semicolon leaves the string of the list without it |
| FileLists.ErasedLast | code/src/engine/file/system_inotify.cpp:456-461 | so does erasing the last name with the semicolon before it |
| FileLists.HasName | code/src/engine/file/system_inotify.cpp:397-415 | the loop finds a name split into directory and file exactly if it is there |
| FileLists.FileList.AddFile | code/src/engine/file/system_inotify.cpp:395-428 | insert if absent, on the string of a duplicate-free list |
| FileLists.FileList.RemoveFile | code/src/engine/file/system_inotify.cpp:431-464 | delete |
| FileLists.FileList.RemoveDuplicates | code/src/engine/file/system_inotify.cpp:466-487 | list difference |
| FileLists.FileList.ScanChange | code/src/engine/file/system_inotify.cpp:568-600 | after a batch the string is that of the replayed list and the removed files are old minus new |
| FileLists.MinusLaw | code/src/engine/file/system_inotify.cpp:466-487 | the difference holds exactly the names not among the others, each once |
| FileLists.BatchLaw | code/src/engine/file/system_inotify.cpp:568-600 | a file is reported removed exactly if it was there and the last change of it says it went |
| FileLists.JoinInjective | code/src/engine/file/system_inotify.cpp:395-428 | different lists are different strings |
| FilePaths.ComponentsLaw | code/src/engine/file/system_inotify.cpp:363-388 | the components joined by slashes are the path, and hold no slash |
| FilePaths.CheckFilepath | code/src/engine/file/system_inotify.cpp:357-393 | accepts exactly the paths without "." and ".." in which none but the last component is empty |
| FilePaths.ResolveLaw | code/src/engine/file/system_inotify.cpp:779-791 | an accepted path leads down from its directory by plain components each ended by a slash |
| Directories.KeepStep | code/src/engine/file/system_inotify.cpp:759-882 | every message keeps the invariant |
| Directories.RunsAreSafe | code/src/engine/file/system_inotify.cpp:759-882 | after any messages each alias names an existing directory, share_count + 1 is the number of aliases, a temporary directory has one, a directory exists exactly as long as it has an alias, and every path leads from the root or a temporary directory by plain steps |
| Directories.GoesWithLast | code/src/engine/file/system_inotify.cpp:849-882 | unregistering removes the directory exactly with its last alias and touches no other |
| Directories.RegisterNames | code/src/engine/file/system_inotify.cpp:759-810 | a registration takes effect exactly if the alias is new, the parent known, the path accepted and the directory not a temporary one; then the alias names the directory the components lead down to, whose count goes up, and nothing else changes |
| Directories.TemporaryNames | code/src/engine/file/system_inotify.cpp:812-845 | a temporary directory gets the alias as its only one, unless the alias or the path is taken |
| Directories.UnregisterUndoes | code/src/engine/file/system_inotify.cpp:759-882 | unregistering right after a registration that took effect restores the state |
| Directories.FileSystem.ProcessRegister | code/src/engine/file/system_inotify.cpp:759-810 | the handler takes the specified step and keeps the invariant |
| Directories.FileSystem.ProcessRegisterTemporary | code/src/engine/file/system_inotify.cpp:812-845 | the same for a temporary directory |
| Directories.FileSystem.ProcessUnregister | code/src/engine/file/system_inotify.cpp:849-882 | the same for unregistering |
| Skeletons.Update | code/src/engine/animation/mixer.cpp:128-147 | terminates, visits a joint and its descendants once each in order, returns the index past them, multiplies the poses from there down, and writes nothing else |
| Skeletons.UpdateAll | code/src/engine/animation/mixer.cpp:114-116 | every matrix is the product of the poses of all joints whose subtree holds the joint, outermost first |
| Skeletons.ChainOfParent | code/src/engine/animation/mixer.cpp:139-146 | that product is the parent's matrix times the own pose; for a root it is the pose |
| Skeletons.FlattenIsForest | code/src/engine/animation/mixer.cpp:128-147 | every forest of trees laid out in preorder is an armature the update handles |
| Skeletons.ForestProducts | code/src/engine/animation/mixer.cpp:128-147 | on a forest of trees laid out in preorder the matrices are the products taken recursively down the trees |
| Skeletons.Playback.Tick | code/src/engine/animation/mixer.cpp:98-116 | the frame advances and wraps, finishes at the wrap unless repeating, and the matrices are those of the new frame |
| Layouts.AlignLaw | code/src/utility/aggregation_allocator.hpp:142-145 | rounds to the least multiple that is not smaller |
| Layouts.OffsetsAgree | code/src/utility/aggregation_allocator.hpp:147-162 | offset_of on a prefix of the types is the matching entry of offsets |
| Layouts.LayoutLaw | code/src/utility/aggregation_allocator.hpp:164-187 | arrays lie behind the header, one behind the other, each aligned to its element size, and the last ends the block |
| Layouts.InsideBlock | code/src/utility/aggregation_allocator.hpp:164-169 | every array ends inside the block |
| Layouts.Disjoint | code/src/utility/aggregation_allocator.hpp:164-187 | no byte belongs to two arrays |
| Layouts.FirstStays | code/src/utility/aggregation_allocator.hpp:158-162 | the first offset does not depend on the capacity |
| Patterns.MatchLaw | code/src/utility/regex.hpp:14-76 | under either negation flag a Boolean combination of classes consumes one character exactly when its meaning, or the opposite, holds |
| Patterns.AnyNumberOf | code/src/utility/regex.hpp:97-112 | takes the maximal run |
| Patterns.AtLeastOne | code/src/utility/regex.hpp:114-130 | takes the maximal run and matches exactly if it is not empty |
| Patterns.Parser.Find | code/src/utility/regex.hpp:386-399 | the leftmost match, or the end if there is none |
| Patterns.Parser.MatchHere | code/src/utility/regex.hpp:401-405 | matches exactly if the character at the place does |

## Left out

- Weak memory orderings, fences and data races inside std::bitset: steps are sequentially consistent and bits are atomic cells.
- PageQueue with producers inside each other's calls, where a page can be reclaimed under a stale header: it is modelled call by call.
- PageQueues.PageQueue.Destroy: speaks of pages only; the code frees the pages without destroying values still queued in them, so such values are lost, and the contract promises nothing of them.
- PageQueues.PageQueue.WithCapacity: needs a capacity of at least one; with 0 the first page holds nothing and try_pop can miss values behind it.
- SimpleQueues.SimpleQueue.constructor: needs a size of at least one, since a ring keeps a cell free.
- RefCounting.RunsAreSafe: pointer objects that live inside the managed value are not modelled; `p = p->next` runs dec() and then reads the source from the block it may just have destroyed and freed (code/src/utility/shared_ptr.hpp:116-131), so safety is claimed for sources that outlive the operation. As for any C++ object, a pointer object that one operation writes, or reads up to its end, is not written by another.
- The bit trick of clp2: its result is modelled, not the shifts.
- UnorderedCollection and the internals of vector, array and their growth: erase moves the last element into the gap, growing fails unchanged or rehashes.
- JSON escaping and records without members: the writer does not escape and the reader has no case for them.
- JsonWriter.WriteValue: a buffer that is too small is not modelled, because a key that does not fit makes the code write past the buffer; the room is a precondition, as is nesting of at most sixteen, the tabs in the literals.
- IniBuffer.WriteIni: as above; a buffer the text fills exactly counts as too small.
- IniScanner.ScanEntries: an equals sign right behind a space gives the code a key of negative length, which has no meaning; the model reports missing spaces.
- IniScanner.ScanIni: inherits the case above, and the last line without a line end below.
- IniReader.ReadEntry: an equals sign right behind blanks gives the code a key of negative length; the model reports missing spaces. A text or enumeration value on a last line without line end makes the code look past the buffer; the model reports the end of the text.
- INI sections inside sections: the writer emits them, the reader looks every header up at the top level.
- ful::find, ful::copy, fio::to_chars and fio::from_chars: contracts only, with decimal integers as an instance; floating-point formatting is not modelled.
- proxy types, error row and column reporting: only branch-level facts.
- Failing allocations inside add_file and failing insertions of directories and aliases; path hashes are taken to be injective.
- Directories.FileSystem.ProcessRegisterTemporary: the path mkdtemp made is a parameter, and an insertion is refused exactly if the path is registered.
- System calls, threads, pipes, the watches and the reading and writing of files.
- Position and orientation movement, fades and object playback in the mixer; matrices are any associative monoid, so rounding is not modelled.
- Wrap-around of std::size_t in the layout arithmetic; allocation, construction and destruction in the block.
- String, newline and end patterns and sequencing: a string that fails part-way leaves the position advanced, so a disjunction of strings is not the union of its parts, and the laws stated are those of single-character classes.
- debug_assert and debug_verify are modelled as evaluating to their condition.
