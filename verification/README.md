# Verification of the Temporal Replay Badge software

A Dafny model of the parts of the badge repository where correctness is hard to
see: the protocols between host and badge, the story compiler and its checker,
the octet-level codecs, the bundle cache, and the state machines of the games,
the WiFi service, the flash workflows and the script harness. `dafny verify
dfyconfig.toml` checks all of it.

Code that changes state is modelled as classes and loops proved against
specification functions; the properties are lemmas about those functions. What
the environment may do (a lost reply, a stalled link, a power cut, the order in
which children finish) is a nondeterministic choice, so each theorem is about
every such choice.

| Files | What they model |
|---|---|
| `BadgeLink`, `PushSteps`, `BadgePush`, `BadgeSync` | Pushing files over a link that may stall anywhere, and synchronising a badge with a manifest |
| `RawRepl` | Reading a raw REPL reply in arbitrary pieces |
| `Digraph`, `CycleSearch`, `BreadthFirst` | Depth-first cycle search and breadth-first distances |
| `Twee`, `Treewalk`, `TreewalkCompiler`, `TreewalkTables`, `TreewalkRows`, `TreewalkReader`, `TreewalkCheck`, `TreewalkBuild` | From Twee text to TREEWALK tables, what the badge reads in them, and the independent checker |
| `Bytes`, `Crc32`, `Sha`, `ShaExample`, `MsgPackFormat`, `MsgPackReader`, `Png`, `PngReader` | Codecs, each beside the format it implements |
| `Bundle`, `DataCache` | The data bundle, its builder, and the cache with its crash points |
| `SnakeBoard`, `DurableSnake` | Durable Snake over whole runs |
| `Torus`, `LifeRows`, `LifeDraw`, `AmbientLife`, `StaleLife` | Five Game of Life steps, run-length drawing, and the ambient runner |
| `HarnessScript` | The scripted-input interpreter on the virtual clock |
| `FlashBatch`, `BadgeFlash` | The fan-out flash workflow and one badge's retries |
| `WifiConnect` | The asynchronous connect between UI and worker |

## Where the code and its documentation differ

The model follows the code.

- `write_books` says a merge needs an existing file; the code makes a fresh one
  (`TreewalkTables.DatabaseFile.WriteBooks`).
- A push raises on the sixth stall in a row, not the fifth
  (`BadgePush.PushVia`). For an empty file that limit always ends the push; for
  any other file finish replies can be lost for ever without reaching it
  (`PushSteps.RetriesBoundIff`).
- A listing leaves out a directory it cannot open and a file it cannot read and
  still ends without an error (`BadgeSync.List`, `RelistIsClean`).
- An error-free `sync` need not relist as clean: clearing stale files undoes
  their push, and a name the listing hides never shows (`BadgeSync.CleanIff`
  has the exact condition).
- `writeFatFsAtomic` discards the results of `f_sync` and `f_close`. When both
  fail it puts an empty file in place of the old bundle and reports success
  (`DataCache.LostFlush`); a true result means the new bundle is stored exactly
  when one of the two worked (`DataCache.WriteFatFsAtomic`).
- `init` of the bundle cache can return true with nothing active, when the
  fetcher reports no change to an empty cache; a non-null body of
  length 0 is never freed; a valid bundle above 256 KiB is stored but
  not loaded again (`DataCache.Cache.Init`, `TryDownload`, `RefreshAndRestart`).
- `validate` adds the three lengths up in the badge's 32-bit `size_t`; lengths
  whose sum wraps are accepted and their spans then do not fill the buffer
  (`Bundle.FillsIff`, `Bundle.WrappedAccepted`, `DataCache.SpansFillIff`).
- The header promises that dismissing the WiFi popup mid-handshake does nothing.
  A sweep over two or more saved networks sets the phase to failed between
  candidates, and a dismissal can then hide the next one
  (`WifiConnect.DismissPromise`).
- Skipping a MessagePack value with a map of 2^31 pairs or more anywhere in it
  stops short (`MsgPackReader.SkipExactIff`); the unsigned reader refuses positive numbers
  in signed formats and the signed one wraps numbers of 2^63 and more.
- A PNG without rows or columns, or with more than 2^31 - 1 octets of data, is
  written but cannot be read (`PngReader.ImageRoundTrip`).
- Snake's death animation shortens the list before the score is taken, so the
  reported length is 1 for every run that ends in a death
  (`DurableSnake.PlayRun`, which is exact); a snake that fills the board makes the search for
  food run forever (`DurableSnake.Game.SpawnFood`), and a run gets there (`LastMeal`).
- The script harness adds its half minute in 32 bits, so a script near 2^32 ms
  gets a limit below its own length, or none at all when the sum comes out as 0
  (`HarnessScript.DefaultLimit`).
- A search for the badge's port that keeps raising ends the flash workflow with
  an exception, even after a flash that worked, and the phase it reports never
  becomes failed (`BadgeFlash.Badge.Run`).
- A carriage return, an empty line and a newline read as one line ending, so a
  text of mixed endings can lose that line (`Twee.EndingsRoundTrip`).
- A link's words and target are not always what the author wrote: the exact
  condition for each of the four forms is `Twee.Safe`.

## Model

| member | source | states |
|---|---|---|
| `BadgePush.PushVia` | `firmware/scripts/badge_sync.py:533-583` | Whatever stalls, partial appends and lost replies occur, the calls made are a run of the steps of PushSteps; at every moment the path holds the old file, nothing or the whole data and, once begun, the temporary file is a prefix of the data; returning normally means the path holds exactly the data; giving up means more than five stalls came in a row; no other file is touched. An empty file needs no bound on lost replies to end |
| `BadgePush.Push.Attempt` | `firmware/scripts/badge_sync.py:544-583` | One round resumes from the size the badge reports and strictly lowers (replies that can still be lost after the rename, bytes not yet sent, stalls left) |
| `BadgePush.Push.Resync` | `firmware/scripts/badge_sync.py:551-560` | Asking for the temporary file's size puts the offset where the badge really is |
| `BadgePush.Push.SendChunks` | `firmware/scripts/badge_sync.py:566-572` | Chunks are sent until all bytes are held; only an acknowledged chunk lowers the stall count |
| `BadgePush.Push.SendFinish` | `firmware/scripts/badge_sync.py:573-576` | An acknowledged finish leaves the data under its name and no temporary file; a lost acknowledgement uses one of the losses up |
| `BadgePush.RunIsSafe` | `firmware/scripts/badge_sync.py:533-583` | At every moment of every run of the steps, with no bound on lost replies: the path holds the old file, nothing or the whole data, the temporary file is a prefix of the data once begun, no other file is touched, a push that returns has its file in place, and it gives up exactly after more than five stalls in a row |
| `PushSteps.RetriesBoundIff` | `firmware/scripts/badge_sync.py:540-583` | The length of the runs of a push has a bound, whatever the badge and the link do, if and only if the file is empty |
| `PushSteps.LoseMany` | `firmware/scripts/badge_sync.py:540-583` | For every non-empty file, of any number of chunks, and every n there is a run in which n finish replies are lost after the file was in place, and the stall count never passes one |
| `PushSteps.EmptyRunIsShort` | `firmware/scripts/badge_sync.py:540-583` | No run for an empty file has more than 28 calls, since no chunk ever lowers the stall count |
| `BadgeLink.Badge.Begin` | `firmware/scripts/badge_sync.py:437-452` | Begin may fail before, between or after its steps; acknowledged, the temporary file is empty |
| `BadgeLink.Badge.Chunk` | `firmware/scripts/badge_sync.py:453-459` | An append may land any prefix of its chunk; acknowledged, all of it |
| `BadgeLink.Badge.Finish` | `firmware/scripts/badge_sync.py:466-484` | The rename happens only if size and hash match, and goes through the old file, nothing, the new file; any reply may be lost |
| `BadgeLink.Badge.Clear` | `firmware/scripts/badge_sync.py:485-495` | Acknowledged, the listed paths are gone except those it skipped, a missing file or one that cannot be removed being no error |
| `BadgeLink.AppendedTwice` | `firmware/scripts/badge_sync.py:453-459` | Appending two pieces is appending their concatenation |
| `BadgeLink.HashInBlocks` | `firmware/scripts/badge_sync.py:466-484` | Hashing a file block by block gives the FNV-1a of the whole file |
| `BadgeLink.FnvCheck` | `firmware/scripts/badge_sync.py:106-123` | The hash of foobar is the one published for FNV-1a |
| `BadgeSync.Diff` | `firmware/scripts/badge_sync.py:407-423` | Missing, stale and unchanged are the manifest's entries of each kind in manifest order, and extras are exactly the listed files the manifest does not name, one for each path |
| `BadgeSync.BucketMeans` | `firmware/scripts/badge_sync.py:407-423` | An entry is unchanged exactly when the badge holds a file of its size and hash, and missing exactly when no listable file has its path |
| `BadgeSync.TmpIsHidden` | `firmware/scripts/badge_sync.py:106-139` | A temporary file is never listed |
| `BadgeSync.ListableIs` | `firmware/scripts/badge_sync.py:106-139` | A file is listed if and only if no name on the way to it begins with a dot or ends in .tmp |
| `BadgeSync.Sync` | `firmware/scripts/badge_sync.py:599-661` | After an error-free sync every listable file is as flags and plan say: what was to clear is gone unless skipped, what was to push holds the local data, all else is as before; the badge then matches the manifest if and only if the pushes suffice. With errors a file is still as before, the one to come, or gone, reported pushes are there, and each path to push was pushed or has its error |
| `BadgeSync.NoExtraLeft` | `firmware/scripts/badge_sync.py:599-661` | With clear_extras no unwanted listable file is left but those the listing hid or the clear skipped |
| `BadgeSync.NothingLost` | `firmware/scripts/badge_sync.py:599-661` | Without a clearing flag no file that is not pushed changes, whatever fails |
| `BadgeSync.CleanIff` | `firmware/scripts/badge_sync.py:599-661` | The exact condition: every missing or stale entry is pushed from a local file that matches it and is listable (or, not pushed, was only hidden from the listing), and no pushed file is cleared again unless that clear skipped it |
| `BadgeSync.RelistIsClean` | `firmware/scripts/badge_sync.py:159-167` | A listing makes a clean plan exactly when the files match the manifest and none of them was left out because it or its directory could not be read |
| `BadgeSync.PlanMeans` | `firmware/scripts/badge_sync.py:407-423` | A plan made from a listing says of the files seen by it what its four lists claim |
| `BadgeSync.PushAll` | `firmware/scripts/badge_sync.py:633-645` | Each path was pushed or has its error, files reported as pushed are there, and only paths to push have changed, to the local file or none; without errors all were pushed in order |
| `RawRepl.ExecStreaming` | `firmware/scripts/badge_sync.py:289-351` | However the reply's bytes are split into reads, the delivered lines and the error are those of the reply seen whole; a timeout delivers a prefix of the lines |
| `RawRepl.ReplyUnique` | `firmware/scripts/badge_sync.py:289-351` | A byte stream has at most one such reading |
| `RawRepl.SplitRoundTrip` | `firmware/scripts/badge_sync.py:309-351` | Splitting into lines loses nothing and leaves no newline in a line |
| `RawRepl.TakeChunk` | `firmware/scripts/badge_sync.py:316-351` | Taking one more piece is splitting the concatenation, up to the end mark |
| `RawRepl.ReadUntilOk` | `firmware/scripts/badge_sync.py:222-233` | Reads up to the first OK and no byte more |
| `RawRepl.ReadUntilEot` | `firmware/scripts/badge_sync.py:222-233` | Reads up to the first end mark and no byte more |
| `RawRepl.Trailer` | `firmware/scripts/badge_sync.py:331-346` | The error text is exactly what lies between the two end marks |
| `Twee.LinkRoundTrip` | `firmware/scripts/treewalk_build.py:125-135` | A link written in any of the four forms is read back as words and target if and only if nothing in it reads as another separator |
| `Twee.SplitPassages` | `firmware/scripts/treewalk_build.py:138-152` | No line is lost, each lies under the last header line before it, and joined by newlines the lines are the whole text with its line endings made newlines |
| `Twee.HeaderIs` | `firmware/scripts/treewalk_build.py:143-143` | A header line is two colons and anything after them |
| `Twee.LinesJoined` | `firmware/scripts/treewalk_build.py:142-142` | The lines of a text joined by newlines give it back, and none holds a newline |
| `Twee.LinesOfJoined` | `firmware/scripts/treewalk_build.py:142-142` | Splitting is the only way to take a text apart into such lines |
| `Twee.EndingsRoundTrip` | `firmware/scripts/treewalk_build.py:142-142` | Lines written with any mix of the three line endings come back if and only if no carriage return meets a newline across an empty line |
| `Twee.StripIs` | `firmware/scripts/treewalk_build.py:125-135` | Stripping takes off blanks at both ends, all there are and nothing else |
| `Twee.DocumentRoundTrip` | `firmware/scripts/treewalk_build.py:138-152` | Any document written out line by line is read back, so the reading is the only one |
| `TreewalkCompiler.ParseBook` | `firmware/scripts/treewalk_build.py:181-235` | A book is accepted exactly when it is compilable; accepted, it tells the same story and its parents are assigned; rejected, the error is true of the source |
| `TreewalkCompiler.Compiler.Collect` | `firmware/scripts/treewalk_build.py:189-216` | Fails exactly on unreadable sources and otherwise holds the story passages in document order |
| `TreewalkCompiler.TitleIs` | `firmware/scripts/treewalk_build.py:189-195` | The last StoryTitle passage names the book, an empty one by the default name |
| `TreewalkCompiler.StartIs` | `firmware/scripts/treewalk_build.py:190-200` | The last StoryData passage that names a start counts, else Start |
| `TreewalkCompiler.Compiler.CheckLinks` | `firmware/scripts/treewalk_build.py:218-225` | No error exactly when no passage has more than three links and every link resolves |
| `TreewalkCompiler.Compiler.AssignIds` | `firmware/scripts/treewalk_build.py:238-244` | No error exactly when all names hash to different IDs; the error names a real collision |
| `TreewalkCompiler.Compiler.AssignParents` | `firmware/scripts/treewalk_build.py:269-286` | The search leaves out exactly the unreachable passages and otherwise gives each node a parent one step nearer the start |
| `Treewalk.StableId` | `firmware/scripts/treewalk_build.py:100-103` | IDs are positive and fit 31 bits |
| `Treewalk.CheckId` | `firmware/scripts/treewalk_build.py:100-103` | The ID of the CRC-32 check text is its check value without the highest bit |
| `CycleSearch.FindCycle` | `firmware/scripts/treewalk_build.py:247-266` | A reported path is a real cycle reachable from the start, and none is reported only if there is none |
| `CycleSearch.Search.Visit` | `firmware/scripts/treewalk_build.py:252-264` | One visit either finds a cycle or finishes the node and keeps the search invariant |
| `CycleSearch.HasCycle` | `firmware/scripts/treewalk_build.py:419-433` | The checker's own search says true if and only if a cycle can be reached |
| `Digraph.NoCycleInOrder` | `firmware/scripts/treewalk_build.py:247-266` | A graph whose successors all come first in some order has no cycle |
| `BreadthFirst.Finish` | `firmware/scripts/treewalk_build.py:269-286` | An emptied queue has met exactly the reachable nodes, at their distances |
| `BreadthFirst.Reach` | `firmware/scripts/treewalk_build.py:275-282` | Meeting a new child keeps the queue invariant |
| `BreadthFirst.PathBounds` | `firmware/scripts/treewalk_build.py:269-286` | No path is shorter than the level a node was met at |
| `TreewalkTables.ReplacedRows` | `firmware/scripts/treewalk_build.py:326-353` | Writing a book leaves exactly its rows under its ID and every other book's rows as they were |
| `TreewalkTables.OtherRowsStay` | `firmware/scripts/treewalk_build.py:326-353` | Writing many books does not touch the rows of any other book |
| `TreewalkTables.WrittenRows` | `firmware/scripts/treewalk_build.py:326-353` | After writing many books each ID holds exactly the rows of the last book with it |
| `TreewalkTables.DatabaseFile.WriteBooks` | `firmware/scripts/treewalk_build.py:311-353` | Fails exactly for colliding IDs, a wrong schema version or an ID stored under another name, and then changes nothing |
| `TreewalkTables.CheckIds` | `firmware/scripts/treewalk_build.py:317-323` | No error exactly when different names have different book IDs |
| `TreewalkTables.CheckStored` | `firmware/scripts/treewalk_build.py:326-333` | No error exactly when no ID is stored under another name |
| `TreewalkCheck.CheckBook` | `firmware/scripts/treewalk_build.py:379-407` | Reports no problem if and only if the rows are sound: one root, parents and choices resolve, numbering is 1..n, the graph is acyclic and all is reachable; what is reported is exactly what is wrong with the rows, each problem with its node and its numbers, the graph being looked at only when the rows are in order |
| `TreewalkCheck.CheckGraph` | `firmware/scripts/treewalk_build.py:410-433` | No problem if and only if every node is reachable from the root and no cycle is |
| `TreewalkCheck.CheckDatabase` | `firmware/scripts/treewalk_build.py:356-376` | No problem if and only if the version is right and every listed book is sound; otherwise all the faults of the listed books, or the wrong version alone |
| `TreewalkCheck.CheckNode` | `firmware/scripts/treewalk_build.py:395-405` | No problem if and only if this node's parent and choices are in order |
| `TreewalkCheck.GroupChoices` | `firmware/scripts/treewalk_build.py:386-393` | Choices are grouped under their nodes in order, and orphans reported |
| `TreewalkCheck.OrderRows` | `firmware/scripts/treewalk_build.py:386-389` | The rows in order, none lost |
| `TreewalkCheck.ReachedFrom` | `firmware/scripts/treewalk_build.py:410-420` | Exactly the reachable nodes |
| `TreewalkBuild.GoodBookIsSound` | `firmware/scripts/treewalk_build.py:379-433` | The rows of every accepted book pass the independent checker |
| `TreewalkBuild.WrittenIsSound` | `firmware/scripts/treewalk_build.py:311-353` | Writing accepted books into a sound database leaves a sound database |
| `TreewalkBuild.WrittenSoundIff` | `firmware/scripts/treewalk_build.py:311-353` | Writing accepted books into any database leaves it sound if and only if the books that are not replaced were |
| `TreewalkBuild.IdCycleIsNameCycle` | `firmware/scripts/treewalk_build.py:410-433` | A cycle over IDs is a cycle over passage names, since IDs do not collide |
| `TreewalkBuild.StepNearer` | `firmware/scripts/treewalk_build.py:269-286` | Each parent is one step nearer the start |
| `TreewalkBuild.ShortestChain` | `firmware/scripts/treewalk_build.py:269-286` | Each parentID chain reaches the root in shortest-distance many steps |
| `TreewalkBuild.Build` | `firmware/scripts/treewalk_build.py:439-454` | Succeeds, with sound tables, exactly when every input is compilable, the tables can take the books and the stored books that are not replaced are sound; then the badge finds the story of each source that no later one replaces, and every other book as it was. Rejects exactly when an input is not compilable and fails to write exactly when the tables cannot take them, each time with a true error and the file unchanged; the self-check never fails on a file that is fresh or was sound |
| `TreewalkReader.BookTells` | `firmware/src/screens/TreewalkStore.cpp:75-93` | What the badge loads at any node of a compiled book: for each passage its text and its links in order, their targets as IDs, and nothing for any other ID |
| `TreewalkReader.StartsAtRoot` | `firmware/src/screens/TreewalkStore.cpp:52-63` | The root the badge finds is the start passage |
| `TreewalkReader.HeldTells` | `firmware/src/screens/TreewalkStore.cpp:43-93` | Tables that hold a compiled book show its title, its start and all its passages as the source has them |
| `TreewalkReader.ChoicesBack` | `firmware/src/screens/TreewalkStore.cpp:85-89` | The choices of a node, ordered by number, are its links |
| `Sha.Context.Update` | `firmware/host/shim/mbedtls_shim.cpp:95-104` | For any split of a message into updates the context holds the fold of the full blocks and the rest of all octets fed so far |
| `Sha.Context.Finish` | `firmware/host/shim/mbedtls_shim.cpp:105-117` | The result is the digest of everything fed: the block fold over the message padded as section 5.1.1 of FIPS 180-4 says; the padding loop ends |
| `Sha.Block` | `firmware/host/shim/mbedtls_shim.cpp:61-83` | The loops compute section 6.2.2 of FIPS 180-4: message schedule and 64 rounds |
| `ShaExample.DigestOfAbc` | `firmware/host/shim/mbedtls_shim.cpp:61-117` | The digest of the three octets of abc is the one FIPS 180-4 publishes |
| `ShaExample.ConstantsArePublished` | `firmware/host/shim/mbedtls_shim.cpp:51-59` | Each round constant is the first 32 bits of the fractional part of the cube root of its prime |
| `ShaExample.InitialIsPublished` | `firmware/host/shim/mbedtls_shim.cpp:85-93` | Each word of the initial state is the first 32 bits of the fractional part of the square root of its prime |
| `ShaExample.SigmasRotate` | `firmware/host/shim/mbedtls_shim.cpp:66-77` | The four sigma functions are rotations and shifts by the published amounts |
| `ShaExample.ChChooses` | `firmware/host/shim/mbedtls_shim.cpp:74-74` | Bit by bit the first word chooses between the other two |
| `ShaExample.MajIsMajority` | `firmware/host/shim/mbedtls_shim.cpp:77-77` | Bit by bit the majority of three words |
| `Sha.Pad` | `firmware/host/shim/mbedtls_shim.cpp:105-113` | The padded message is a whole number of blocks |
| `Sha.Sha1Buffer` | `firmware/host/shim/mbedtls_shim.cpp:16-23` | The one-shot SHA-1 buffer lays out the same padding |
| `Crc32.RomCrc32` | `firmware/host/shim/esp_shim.cpp:106-113` | The bitwise loop computes the table-driven CRC of section 8 of RFC 1952 |
| `Crc32.EightShifts` | `firmware/host/shim/esp_shim.cpp:106-113` | Eight shifts of the register are one table step |
| `Crc32.Composes` | `firmware/host/shim/esp_shim.cpp:106-113` | Continuing with the previous value is the CRC of the concatenation |
| `Crc32.CheckValue` | `firmware/host/shim/esp_shim.cpp:106-113` | The CRC of 123456789 is 0xCBF43926 |
| `MsgPackReader.SkipExactIff` | `firmware/src/api/MsgPackReader.cpp:246-325` | Skipping an encoded value lands exactly behind it if and only if it is nested at most 16 deep from here and no map anywhere inside it has 2^31 pairs or more, for every suffix |
| `MsgPackReader.SkipEncoded` | `firmware/src/api/MsgPackReader.cpp:246-325` | Skipping undoes the encoder for every value, format choice and suffix, and fails when it is too deep |
| `MsgPackReader.SkipEncodedItems` | `firmware/src/api/MsgPackReader.cpp:246-325` | The same for the elements of a container, one after another |
| `MsgPackReader.WideStopsShort` | `firmware/src/api/MsgPackReader.cpp:314-322` | A value with a map of 2^31 pairs or more anywhere inside it is never skipped to its end, since the doubled count wraps in 32 bits |
| `MsgPackReader.ReadIntEncoded` | `firmware/src/api/MsgPackReader.cpp:107-167` | The signed reader returns every encoded integer, wrapping those of 2^63 and more |
| `MsgPackReader.ReadUIntEncoded` | `firmware/src/api/MsgPackReader.cpp:76-105` | The unsigned reader accepts exactly the unsigned formats and returns the value |
| `MsgPackReader.ReadBytesEncoded` | `firmware/src/api/MsgPackReader.cpp:207-233` | Strings and binaries come back octet for octet |
| `MsgPackReader.ReadCountEncoded` | `firmware/src/api/MsgPackReader.cpp:169-205` | Array and map headers give the count and leave the cursor at the first element |
| `MsgPackReader.FlagEncoded` | `firmware/src/api/MsgPackReader.cpp:55-74` | What the boolean and nil readers look for is what the encoder writes |
| `MsgPackReader.EveryIntegerFits` | `firmware/src/api/MsgPackReader.cpp:107-167` | Exactly the integers of 64 bits, signed or not, have a format |
| `MsgPackReader.Skip` | `firmware/src/api/MsgPackReader.cpp:246-325` | The cursor never moves back or past the end, on any octets |
| `MsgPackReader.Reader.SkipValue` | `firmware/src/api/MsgPackReader.cpp:246-325` | The recursive loops move the cursor as the specification function does |
| `MsgPackReader.Reader.ReadInteger` | `firmware/src/api/MsgPackReader.cpp:107-167` | Same for the signed reader, on any octets |
| `MsgPackReader.Reader.ReadUnsigned` | `firmware/src/api/MsgPackReader.cpp:76-105` | Same for the unsigned reader, on any octets |
| `MsgPackReader.Reader.ReadBytes` | `firmware/src/api/MsgPackReader.cpp:207-233` | The span returned is the declared number of octets, inside the data |
| `MsgPackReader.Reader.ReadString` | `firmware/src/api/MsgPackReader.cpp:235-244` | The copy is the string cut to the buffer and ends in a zero octet |
| `MsgPackReader.Reader.ReadBool` | `firmware/src/api/MsgPackReader.cpp:62-74` | Accepts exactly the two boolean octets, and consumes one octet even when it fails |
| `Bundle.PackedIsValid` | `data/build-data.py:252-268` | What the builder packs passes the badge's checks, does not wrap, and gives back the same three payloads |
| `Bundle.FillsIff` | `firmware/src/api/DataCache.cpp:90-92` | The payloads of an accepted bundle fill it exactly when the sum of its lengths does not wrap in the badge's 32-bit size_t |
| `Bundle.WrappedAccepted` | `firmware/src/api/DataCache.cpp:90-92` | For every payload some bundle whose lengths wrap is accepted |
| `DataCache.SpansFillIff` | `firmware/src/api/DataCache.cpp:94-98` | The three spans lie one behind the other and fill the buffer exactly when the lengths do not wrap |
| `Bundle.Validate` | `firmware/src/api/DataCache.cpp:76-99` | True exactly for bundles of the right magic, version, size and CRC whose lengths add up to the size in 32 bits, as on the badge |
| `Bundle.Pack` | `data/build-data.py:252-268` | Packing fails exactly when the size does not fit 32 bits |
| `Png.Write` | `firmware/host/harness/png.cpp:35-71` | The loops emit signature, header, stored-block data and end chunk of the picture |
| `Png.AdlerLoop` | `firmware/host/harness/png.cpp:64-65` | Reducing after every octet gives the Adler-32 of section 8.2 of RFC 1950 |
| `Png.AdlerCheck` | `firmware/host/harness/png.cpp:64-65` | The published checksum of Wikipedia |
| `Png.StoredBlocks` | `firmware/host/harness/png.cpp:56-63` | The loop emits the stored blocks of the scanlines |
| `Png.WriteChunk` | `firmware/host/harness/png.cpp:22-29` | Length, type, data and CRC of the type and data |
| `PngReader.ImageRoundTrip` | `firmware/host/harness/png.cpp:35-71` | A reader of ISO/IEC 15948, RFC 1950 and RFC 1951 recovers the pixels if and only if there are pixels and the data fits one chunk |
| `PngReader.BlocksWellFormed` | `firmware/host/harness/png.cpp:56-63` | Every stored block is at most 65535 octets and only the last is marked final |
| `PngReader.BlocksRoundTrip` | `firmware/host/harness/png.cpp:56-63` | Inflating the blocks gives the octets back and stops where they end |
| `PngReader.ZlibRoundTrip` | `firmware/host/harness/png.cpp:55-66` | The zlib stream is read back and its Adler-32 verifies |
| `PngReader.ChunkRoundTrip` | `firmware/host/harness/png.cpp:22-29` | A chunk of any length is read back, CRC and all, if and only if its data is at most 2^31 - 1 octets |
| `PngReader.ScanlinesRoundTrip` | `firmware/host/harness/png.cpp:49-54` | The scanlines give the pixel rows back |
| `DataCache.WriteFatFsAtomic` | `firmware/src/api/DataCache.cpp:187-211` | For every pattern of failing calls: returns true exactly when the calls it checks work, and then the whole bundle is in place if and only if f_sync or f_close worked, an empty file otherwise; at every moment the cache file is that, the old one or absent; a temporary file left by a failure is removed if that call works |
| `DataCache.FlushesFail` | `firmware/src/api/DataCache.cpp:198-199` | With both flushes failing and all other calls working the replacement reports success on any disk and keeps nothing of any bundle |
| `DataCache.LostFlush` | `firmware/src/api/DataCache.cpp:187-211` | That case: an old bundle is replaced by an empty file and success is reported |
| `DataCache.CrashAndRestart` | `firmware/src/api/DataCache.cpp:187-265` | After a crash at any moment of the replacement, whatever calls failed then or fail later, the next start activates the old, the new or the embedded bundle |
| `DataCache.RefreshAndRestart` | `firmware/src/api/DataCache.cpp:156-268` | A refreshed bundle is active again after a restart if and only if it reached the cache file and is at most 256 KiB, or is the embedded one and nothing else loads; replaced without a flush, the embedded bundle comes back |
| `DataCache.Cache.AdoptOwned` | `firmware/src/api/DataCache.cpp:112-127` | A valid buffer becomes the active bundle with the spans its header has; an invalid one is freed and nothing else changes |
| `DataCache.Cache.UseEmbedded` | `firmware/src/api/DataCache.cpp:129-145` | The embedded bundle is activated exactly when it is valid, and an owned buffer is freed once |
| `DataCache.Cache.LoadFromFatFs` | `firmware/src/api/DataCache.cpp:149-184` | Succeeds exactly when the two calls it makes work and the cache file validates and is within the size cap; one that does not validate is unlinked |
| `DataCache.Cache.TryDownload` | `firmware/src/api/DataCache.cpp:216-257` | The result, outcome, active bundle and disk for every reply of the fetcher and every pattern of failing calls; the one leak is a non-null body of length 0 |
| `DataCache.Cache.Init` | `firmware/src/api/DataCache.cpp:261-265` | Every buffer stays owned or freed exactly once; for every pattern of failing calls the result, the source and the active bundle: the loadable cache file, else a valid body, else (unless the fetcher says no change) a valid embedded bundle, else the one before |
| `DataCache.Cache.Refresh` | `firmware/src/api/DataCache.cpp:267-269` | Keeps the same invariant and replaces the active bundle exactly by a valid body |
| `DurableSnake.Game.Step` | `community_apps/durable_snake/ds_engine.py:228-300` | The state after a step, field by field, in terms of the state before it: bonus expiry, due test, move, death, meal and new food; the play invariant holds after it |
| `DurableSnake.StepMeans` | `community_apps/durable_snake/ds_engine.py:228-300` | A step moves at most one cell and only when due; the snake dies exactly by leaving the board or entering a cell it still occupies; an eating step never dies and is worth one life or one point |
| `DurableSnake.Game.Move` | `community_apps/durable_snake/ds_engine.py:234-300` | The same for a step that is due |
| `DurableSnake.Game.Turn` | `community_apps/durable_snake/ds_engine.py:215-225` | However often it is called between steps, the next direction never reverses the current one |
| `DurableSnake.Game.SpawnFood` | `community_apps/durable_snake/ds_engine.py:156-167` | Food lands on the board and off the snake, and is a bonus only with a life missing; it never returns exactly when the board is full |
| `DurableSnake.LastMeal` | `community_apps/durable_snake/ds_engine.py:228-300` | A run from the start, turned along a tour of the board and eating at every step, whose 400th apple fills the board: the search for the next one never returns |
| `DurableSnake.RandomFreeCell` | `community_apps/durable_snake/ds_engine.py:134-138` | A free cell, unless there is none |
| `DurableSnake.Game.RestartAfterContinue` | `community_apps/durable_snake/ds_engine.py:196-212` | A retry restarts snake and pace, and keeps score and lives |
| `DurableSnake.Game.ExpireBonus` | `community_apps/durable_snake/ds_engine.py:229-233` | A bonus that ran out is replaced by ordinary food, and a free cell for it always exists |
| `DurableSnake.Game.PlayLoop` | `community_apps/durable_snake/ds_engine.py:499-532` | A life is its passes, one for each input: it goes on only past a pass that was survived without quit, is over exactly on a survived pass with quit, and ends in a death or hangs exactly by the step of its last pass; the play invariant holds over every sequence of inputs |
| `DurableSnake.PlayRun` | `community_apps/durable_snake/ds_engine.py:706-718` | A run is its lives: another one starts exactly on a death with a life left and a retry as the next input, from a fresh snake with score and lives kept, and how the run ends is settled by the last life and the input after it. Lives plus deaths equal three plus the bonuses caught; a run is lost exactly at death number three plus bonuses; the snake it reports is one cell long exactly when the last life ended in a death, and whole when the player quit |
| `DurableSnake.ComputeInterval` | `community_apps/durable_snake/ds_engine.py:118-131` | The countdown loop computes the pace of n apples |
| `DurableSnake.PaceQuickens` | `community_apps/durable_snake/ds_engine.py:118-131` | Each apple makes the game strictly faster until the 21st, which reaches the floor |
| `DurableSnake.BonusLasts` | `community_apps/durable_snake/ds_engine.py:156-167` | A bonus runs out exactly six seconds after it appeared, across the wrap of the tick counter |
| `SnakeBoard.MoveKeeps` | `community_apps/durable_snake/ds_engine.py:253-266` | A move keeps the snake a self-avoiding path of adjacent cells equal to its set |
| `SnakeBoard.BiteIsOdd` | `community_apps/durable_snake/ds_engine.py:257-261` | A snake can only bite a segment an odd number of steps, at least three, behind its head |
| `SnakeBoard.ShortNeverBites` | `community_apps/durable_snake/ds_engine.py:257-261` | A snake of at most four cells cannot bite itself |
| `SnakeBoard.FiveCanBite` | `community_apps/durable_snake/ds_engine.py:257-261` | Five cells are enough to bite |
| `SnakeBoard.FullBoard` | `community_apps/durable_snake/ds_engine.py:134-138` | A snake has at most 403 cells, and exactly then fills the board |
| `SnakeBoard.TourIsSnake` | `community_apps/durable_snake/ds_engine.py:253-266` | Every beginning of the tour is a snake, and the whole tour fills the board |
| `SnakeBoard.TourGrows` | `community_apps/durable_snake/ds_engine.py:253-266` | A snake on the tour eats its way on along it |
| `LifeRows.GolStep` | `community_apps/tardigotchi/engine.py:57-80` | The bit-packed step (also led_gol_step, the 8 by 16 field step and the icon's 30 by 24 step) is the toroidal B3/S23 rule on sets of cells, for every grid of three or more each way |
| `LifeRows.Stamp` | `community_apps/tardigotchi/engine.py:50-54` | Stamping sets exactly the wrapped pattern cells and clears none |
| `LifeDraw.GolDraw` | `community_apps/tardigotchi/engine.py:83-101` | The boxes drawn cover exactly the two-by-two squares of the live cells |
| `LifeDraw.RowRuns` | `community_apps/tardigotchi/engine.py:91-101` | The runs of a row are its longest runs of live cells, left to right, none missing |
| `Torus.StepCommutesWithShift` | `community_apps/tardigotchi/icon.py:122-147` | A generation of a shifted board is the shifted generation, for every shift of the torus |
| `Torus.StepCommutesWithMirror` | `community_apps/tardigotchi/icon.py:122-147` | A generation of the mirrored board is the mirrored generation |
| `Torus.SumIsCount` | `community_apps/tardigotchi/engine.py:66-79` | Adding up eight neighbour bits counts the neighbour set |
| `AmbientLife.MsbStep` | `firmware/initial_filesystem/matrixApps/led_runtime.py:383-399` | The high-bit-first step gives the next generation |
| `AmbientLife.OrderDoesNotMatter` | `firmware/initial_filesystem/matrixApps/led_runtime.py:383-399` | Read high bit first or low bit first, the next generation has the same octets |
| `AmbientLife.StepCommutesWithReversal` | `firmware/initial_filesystem/matrixApps/led_runtime.py:383-399` | The low-bit-first step on bit-reversed rows is the bit-reversed step |
| `AmbientLife.PackRoundTrip` | `firmware/initial_filesystem/matrixApps/led_runtime.py:383-399` | Every set of cells has a frame and is read back from it |
| `StaleLife.Runner.LifeFrame` | `firmware/initial_filesystem/matrixApps/led_runtime.py:372-412` | Frames are the seed's orbit; the reset of the count changes nothing; a new seed comes exactly on the eighth stale frame in a row |
| `StaleLife.StaleForever` | `firmware/initial_filesystem/matrixApps/led_runtime.py:400-409` | Once a frame is empty, still or period two, every later frame is stale too |
| `StaleLife.StaleIffSettles` | `firmware/initial_filesystem/matrixApps/led_runtime.py:400-409` | Stale frames are exactly those of orbits that have settled to period one or two |
| `StaleLife.Watch` | `firmware/initial_filesystem/matrixApps/led_runtime.py:372-412` | Over whole runs the runner leaves a seed seven frames after its first stale frame, and no other seed |
| `HarnessScript.Script.Tick` | `firmware/host/harness/script.cpp:228-285` | For every sequence of tick times the actions are the script's, in order, none before the durations of the steps before it; true means all of it was done; a wait ends at most one gap late per timed step |
| `HarnessScript.Script.Perform` | `firmware/host/harness/script.cpp:244-283` | Each kind of step makes its own calls, leaves its own ending pending and sets its own time to resume |
| `HarnessScript.Script.Next` | `firmware/host/harness/script.cpp:242-283` | One step starts at or after its time, and its release or centring is pending before the next step can start |
| `HarnessScript.TotalMs` | `firmware/host/harness/script.cpp:135-225` | The recorded length is the script's length modulo 2^32 |
| `HarnessScript.DefaultLimit` | `firmware/host/harness/main.cpp:120` | The default time limit is the length plus half a minute exactly when that fits 32 bits, below the length otherwise, and 0, which means no limit, exactly when the sum is a multiple of 2^32 |
| `HarnessScript.Harness.Yield` | `firmware/host/harness/main.cpp:39-52` | With the default limit a script with room for its gaps never times out; with a limit other than 0 below its length a script finishes only by jumping over the limit in one gap; with limit 0 nothing ever times out |
| `HarnessScript.StartsStep` | `firmware/host/harness/script.cpp:242-260` | Starting a step turns the next planned action into a done one and its ending into the pending one |
| `HarnessScript.StepsMean` | `firmware/host/harness/script.cpp:242-260` | A press holds its button and a release lets it go, a tap holds it while it lasts, the stick is where a stick step puts it while that lasts, and nothing else moves |
| `FlashBatch.Batch.Run` | `ignition/flash_worker/workflows.py:436-608` | For every completion order and outcome: one child per device under distinct names, each awaited once, passed plus failed equals children, results in device order, success exactly if all succeed; nothing is started on a mismatch or when preparing or detecting throws; an exception leaves the workflow exactly then or when the service refuses one of the names the devices get |
| `FlashBatch.Batch.StartChildren` | `ignition/flash_worker/workflows.py:502-563` | Children are started under the names of their devices, in order, up to the first name the service refuses |
| `FlashBatch.FirstFree` | `ignition/flash_worker/workflows.py:516-526` | The first free candidate among the name, name-2, name-3 and so on; there always is one |
| `FlashBatch.IdentityIsFirst` | `ignition/flash_worker/workflows.py:512-518` | A device goes by the first of its identifiers that is not empty |
| `FlashBatch.SafeIdPartIs` | `ignition/flash_worker/workflows.py:45-47` | A safe part is the dashed value without dashes at its ends, the fallback if nothing is left, cut to 80 characters |
| `FlashBatch.DashedRun` | `ignition/flash_worker/workflows.py:45-47` | Safe characters stay and each run of others becomes one dash |
| `FlashBatch.SaysSo` | `ignition/flash_worker/workflows.py:565-608` | The answer and the children's rows in terms of the outcomes alone: an exception is a failure with its text |
| `FlashBatch.NamesBegin` | `ignition/flash_worker/workflows.py:505-526` | A child's name depends only on the devices up to its own |
| `FlashBatch.Batch.Gather` | `ignition/flash_worker/workflows.py:565-593` | Results come in as children finish; at the end each has been awaited and counted once |
| `FlashBatch.DecimalIsInjective` | `ignition/flash_worker/workflows.py:521-525` | Different suffix numbers are written differently |
| `BadgeFlash.Badge.Run` | `ignition/flash_worker/workflows.py:228-404` | A badge passes exactly when it flashes within three attempts, boots within two and takes the time with no search raising before that; an exception leaves the workflow exactly when a search raises first, and then the phase is neither done nor failed; the activities run are exactly those: nothing is flashed after a success, verified before it or clocked before a boot, each in the phase a query would see |
| `BadgeFlash.AttemptsAre` | `ignition/flash_worker/workflows.py:228-345` | In so many words: three attempts to flash and two to boot, each reached only if no earlier search raised |
| `BadgeFlash.Badge.Verify` | `ignition/flash_worker/workflows.py:304-345` | Up to two boot checks, none after a success or a search that raised |
| `BadgeFlash.Badge.Flash` | `ignition/flash_worker/workflows.py:246-302` | Up to three attempts, none after a success or a search that raised |
| `WifiConnect.AlwaysSafe` | `firmware/src/api/WiFiService.cpp:345-682` | In every interleaving of UI calls and worker writes: at most one worker, the power lock held once and only by it, and between calls with nothing in flight the phase is idle, connected or failed |
| `WifiConnect.WorkersEnd` | `firmware/src/api/WiFiService.cpp:512-682` | Every write of a worker lowers its rank, so a worker ends whatever the UI does |
| `WifiConnect.WorkersGoOn` | `firmware/src/api/WiFiService.cpp:512-682` | A worker that has not exited can always make its next write |
| `WifiConnect.DismissPromise` | `firmware/src/api/WiFiService.h:57-62` | Dismissing can touch a connection still being waited for if and only if the connect has two or more candidates |
| `WifiConnect.DismissalFindsQuiet` | `firmware/src/api/WiFiService.cpp:345-350` | With at most one candidate a dismissal never takes an active phase away |
| `WifiConnect.SweepHidden` | `firmware/src/api/WiFiService.cpp:610-682` | A concrete interleaving in which dismissing overwrites a sweep's next attempt |
| `WifiConnect.Association.PollStaAssociation` | `firmware/src/api/WiFiService.cpp:403-447` | True exactly when the radio comes up before it refuses; which phase is left; at most two kicks, all while nothing but idle was seen |

## Left out

- BadgePush.PushVia: for a non-empty file the method is given some finite number of finish replies that may still be lost after the rename; `RunIsSafe` states the same of all runs without such a bound.
- BadgeLink.Badge.Begin: creating parent directories is only a possible failure, not modelled as directories.
- BadgeSync.Sync: names that FAT or the listing format cannot carry are those `Listable` excludes; file system limits are not modelled.
- RawRepl.ExecStreaming: time is a number of empty reads the caller still accepts.
- Twee.SplitPassages: the header line is kept whole; its tags, metadata and escapes are read with regular expressions, which are not modelled.
- TreewalkCompiler.ParseBook: passages come with their links already found and their bodies cleaned (regular expressions, JSON and the font's character map are not modelled); a start name in StoryData that is not a string and all warnings are left out. Python's limit of 1000 frames, which `_find_cycle` reaches on a very deep book (treewalk_build.py:262-263), is not modelled: such a book is rejected by an exception.
- CycleSearch.FindCycle: the same recursion limit of `visit` is not modelled; a chain of about a thousand passages exceeds it.
- CycleSearch.HasCycle: nor is that of the checker's `cyclic`, which recurses just as deep.
- TreewalkCheck.CheckDatabase: the journal-mode, page and index checks of SQLite are left out.
- Sha.Sha1Buffer: the rounds of SHA-1 are left out, the padding being the point.
- MsgPackReader.SkipExactIff: floats are octets of the right width, not numbers; extension types are left out, as the reader refuses them.
- Bundle.Validate: on a host build with a wider `size_t` the sum does not wrap, and only bundles with `NoWrap` are accepted.
- Bundle.PackedIsValid: the payloads are octets; how the builder makes them from spreadsheets (and its location codes) is left out.
- DataCache.Cache.Init: the mutex and a badge without a mounted file system are left out; the file system is two files, every call on which may fail.
- DataCache.WriteFatFsAtomic: a failed call does nothing, except that a failed write may land any prefix; damage to the allocation table by a power cut is left out.
- DurableSnake.Game.Step: drawing, sound, LEDs and the milestone timers are left out; the clock is the 30-bit tick counter.
- LifeRows.GolStep: rows are unbounded naturals, as in Python; bits beyond the width are ignored as the code ignores them.
- LifeDraw.GolDraw: clipping at the display's edge and the sprite run-length loop of `draw_oled_tardi` are left out.
- HarnessScript.Script.Tick: tokenising the script is left out; what a comparison will say is part of its step; 64-bit overflow of microseconds is not modelled.
- FlashBatch.Batch.Run: the Temporal service is a function from child name to outcome and a choice of completion order; queries, memos and time limits are left out.
- BadgeFlash.Badge.Run: each flash, boot check and clock setting is a yes or no per attempt, the service's own repeats of an activity included; cancellation, logs, durations and the port found are left out.
- WifiConnect.AlwaysSafe: status texts, the blocking `connect` path used at boot and by HTTP calls, and the CPU-frequency fallback without a power lock are left out.
- The key-value file of the host shim, `AppRegistry`, `generate_startup_files`, the LED window helpers `_frame_from_columns` and `_frame_from_32`, the icon tables and the build scripts would only add easier members.
- Serial ports, subprocesses, SQLite, FatFs, FreeRTOS, the Temporal SDK, drawing and fonts appear only as the small abstract machines named above.
