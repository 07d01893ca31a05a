# Verified models of Warpinator and its bundled protobuf runtime

A Dafny model of the parts of Warpinator, and of the protobuf C runtime shipped with it, in which state is hardest to keep right, with proofs of what they promise. `dafny verify dfyconfig.toml` checks everything.

**Message wrappers** (`MessageForest`, `WrapperGraph`, `WrapperCounts`, `WrapperSync`, `WrapperFrames`, `MessageCopies`, `MessageWrappers`). A Python wrapper of a protobuf message is a stub, which owns its parent and is registered in the parent's table of unset fields, or reified, in which case it points at data and is entered in the object cache. Addresses, counts, tables and data are explicit values, so sharing, dangling pointers and leaks can be expressed. `WrapperGraph.Invariant` says how they fit together; every operation keeps it, and what an operation does is stated on the abstract value of messages, a map from field paths to scalars. `outside` accounts for the references that are not owned by a stub.

**File transfer** (`FileTree`, `FileSender`, `ReceiverModel`, `FileReceiver`, `PermissionOrder`, `Confinement`, `SaveFolder`, `RoundTrip`, `SentOrder`, `Leftovers`, `CleanUp`, `LinkChanges`, `LinkStreams`). The sender's walk and chunker, compression, the receiver with its counter and its permission pass. The counting, ordering and confinement theorems hold for any stream and any file system; the round trip is proved for one with owner permission bits, in which a folder that has got its final mode may be closed to everything below it. Its entries are held by place, above the save folder too; paths are followed part by part, through links and `..`, and acted on where they lead. `Host` stands for what depends on the machine: the modes of new entries, where links lead, and what is left of an entry that cannot be removed completely.

**UTF-8** (`Utf8Grammar`, `Utf8Words`, `Utf8Range`). The word-at-a-time ASCII skip and the byte loop, against the grammar in section 4 of RFC 3629.

**Repeated fields** (`SliceSemantics`, `RepeatedContainer`). Overlapping block moves in a buffer with a size field, against the meaning of Python slices.

**Threads and peers** (`ThreadExecutor`, `StatusDelivery`, `DuplexHandshake`, `DuplexCalls`). Step-by-step models whose theorems quantify over every interleaving.

**Smaller algorithms** (`WireFormat`, `WireGrammar`, `UnknownFields`, `MapIteration`, `HostNames`).

Where the code works in place, a class does the same steps on fields and each method is proved equal to a function on states; the theorems are about these functions.

Ten results are of the kind "not always", each with the exact condition:

- deleting an empty slice with a step other than 1 or -1 goes wrong; `RepeatedContainer.UpbArray.DeleteSubscript` says exactly when deletion is right and what goes instead, `SliceSemantics.EmptyStridedSliceArises` gives a slice for which it is not;
- copying a message onto a part of itself never ends (`MessageCopies.ContainsIffContained` and `MessageForest.CopyContainsItself`; `MessageCopies.PartOfItself`);
- a tree does not come through if an earlier one of the same names cannot be removed (`Leftovers.EveryTreeComesThrough`; `Leftovers.ReadOnlyTreeSentTwice` sends one twice);
- a mode may be changed through a link, although every path was checked when its run began (`LinkChanges.FollowsIffStrays`; `LinkStreams.ModeThroughLink`, `LinkStreams.ModeBeyondLink`);
- cleaning up after a refusal may remove what was not announced (`Confinement.RemovesUnannouncedIffAstray`, `Leftovers.UnannouncedRemoved`);
- cleaning up after an interruption may leave what was received, behind a link that leads out of the save folder (`CleanUp.InterruptedTree`, `CleanUp.LinkIsLeft`);
- an iterator over a map does not notice new keys that are merged into its message (`MapIteration.VersionTellsKeys`, `MapIteration.MergingGoesUnnoticed`);
- machine information that arrives late puts a remote whose thread has ended back to ONLINE (`DuplexHandshake.RevivedIffAnswered`, `DuplexHandshake.RevivalArises`);
- two status changes may be queued at once (`StatusDelivery.OneQueuedUnlessForgotten`, `StatusDelivery.TwoSourcesCanBeQueued`);
- an operation accepted before a shutdown may never start (`ThreadExecutor.QueuedIsLeftBehind`, `ThreadExecutor.LeftBehind`).

Two results are properties of a function that its callers may want to know. A refused assignment to a field of an unset submessage still creates the submessages on the way (`MessageWrappers.Runtime.SetFieldValue`). The builder of unknown fields takes the end of its input for the end of all open groups (`WireFormat.CutOffIffBetween`); no caller hands it such input, since the decoder has refused unterminated unknown groups before it stores them (src/protobuf-6.31.1/upb/wire/decode.c, lines 316-323 and 1395).

## Model

| member | source | states |
|---|---|---|
| MessageWrappers.Runtime.New | src/protobuf-6.31.1/python/message.c:245-261 | a new message is a reified wrapper with one reference and nothing waiting, entered in the object cache |
| MessageWrappers.Runtime.GetFieldValue | src/protobuf-6.31.1/python/message.c:953-968 | reading a submessage field gives the wrapper of the set submessage, or the stub registered for the field, or a new one that is then registered; the caller gets exactly one reference to it; no data and no other wrapper changes |
| MessageWrappers.Runtime.GetStub | src/protobuf-6.31.1/python/message.c:893-914 | the registered stub with one more reference, or a new one registered under its field; the invariant is kept |
| MessageWrappers.Runtime.Get | src/protobuf-6.31.1/python/message.c:850-868 | the cached wrapper of a message with one more reference, or a new one that is then cached |
| MessageWrappers.Runtime.InitAsMsg | src/protobuf-6.31.1/python/message.c:613-621 | a stub becomes reified with a new empty message and is cached; it stays registered for the moment |
| MessageWrappers.Runtime.SetField | src/protobuf-6.31.1/python/message.c:623-630 | the child leaves the table of unset fields, its data becomes the field of the parent, and the reference it held on the parent goes |
| MessageWrappers.Runtime.ClimbOnce | src/protobuf-6.31.1/python/message.c:661-671 | one turn of the loop reifies the next ancestor, attaches the child to it and moves one step up the chain |
| MessageWrappers.Runtime.Climb | src/protobuf-6.31.1/python/message.c:656-671 | the loop ends at the nearest reified ancestor, all of the chain reified and attached |
| MessageWrappers.Runtime.EnsureReified | src/protobuf-6.31.1/python/message.c:632-676 | the data grows by exactly the missing path, every wrapper of the chain points into it, each former ancestor loses one reference and its table entry for the next stub, every other link and table and all outside references are as before, the invariant holds; a reified wrapper is left alone |
| MessageWrappers.Runtime.SetFieldValue | src/protobuf-6.31.1/python/message.c:970-1012 | the new state in full: what reifying makes of it, in which no link and no table off the climbed chain has changed, with one scalar set, or nothing more if the value is refused, or the submessage field read if its type is well-known; a repeated field is refused before anything changes. So the tree of the nearest reified ancestor, and of every message above it, is the old one with the missing path added and that one leaf set, every other tree is unchanged, and the value reads back |
| MessageWrappers.Runtime.Release | src/protobuf-6.31.1/python/message.c:820-848 | giving up a reference: wrappers nobody needs go, up the chain of parents; nothing else changes |
| MessageWrappers.Runtime.Dealloc | src/protobuf-6.31.1/python/message.c:820-835 | a dying stub leaves its parent's table and lets the parent go, a dying reified wrapper leaves the cache; no dangling entry remains |
| MessageWrappers.Runtime.DoClearField | src/protobuf-6.31.1/python/message.c:1427-1457 | the field and all below it are gone from every tree that contains the message; a waiting stub leaves the table and has a new empty message of its own; once the message is reified no wrapper comes or goes, and every other stub, the ones of other fields too, waits on where it waited |
| MessageWrappers.Runtime.Clear | src/protobuf-6.31.1/python/message.c:1393-1425 | the message is empty in every tree that contains it, its table of unset fields is empty and each stub that was in it has a new empty message of its own; once the message is reified no wrapper comes or goes and no other link or table changes |
| MessageWrappers.Runtime.ClearEntries | src/protobuf-6.31.1/python/message.c:1404-1420 | the loop takes every entry out of the table and reifies its stub with a message of its own |
| MessageWrappers.Runtime.Reify | src/protobuf-6.31.1/python/message.c:687-700 | a stub is pointed at given (or new) data, lets its parent go and synchronises its own stubs |
| MessageWrappers.Runtime.SyncSubobjs | src/protobuf-6.31.1/python/message.c:702-759 | every surviving stub below whose path is set in the data points at the message on that path, to any depth; every other link and all data are as before; registration is restored |
| MessageWrappers.Runtime.SyncEntry | src/protobuf-6.31.1/python/message.c:738-755 | one entry of the loop: left alone if its field is absent, otherwise unregistered and reified |
| MessageWrappers.Runtime.CopyFrom | src/protobuf-6.31.1/python/message.c:1289-1317 | unless the source contains the target: every tree that contains the target gets the source's tree in its place, or nothing if the source was a stub, and no other tree changes; the stubs below the target are attached to the copy or, if the source was a stub, cut off, and every other wrapper keeps its link; copying a message onto itself does nothing; the invariant is kept |
| MessageCopies.ContainsIffContained | src/protobuf-6.31.1/python/message.c:1303-1309 | the data read contain those written exactly if, before the call, the source is one of the target's ancestors or its data contain those of the nearest reified one |
| MessageCopies.PartOfItself | src/protobuf-6.31.1/python/message.c:1303-1309 | such a call takes three wrappers: a message, an unset field of it and an unset field of that |
| MessageForest.CopyContainsItself | src/protobuf-6.31.1/upb/message/copy.c:189-217 | after the first step of a deep copy the target contains itself, so that the second does not end, exactly if the source contains the target |
| WrapperGraph.ExpandoAssignment | src/protobuf-6.31.1/python/message.c:632-676 | reifying and setting a scalar through any depth of stubs is exactly "add the path, set the leaf" on every tree |
| WrapperFrames.TwoAssignments | src/protobuf-6.31.1/python/message.c:970-1011 | two assignments, the second through a stub that was read before the first: every message that contains the first one's data sees both leaves, each at its place |
| WrapperFrames.WriteBesideCleared | src/protobuf-6.31.1/python/message.c:1427-1457 | an assignment through a stub that was read before a clearing beside it sets its leaf as if nothing had been cleared |
| WrapperFrames.CutOffByLinks | src/protobuf-6.31.1/python/message.c:1404-1424 | when stubs of one message are cut off, no wrapper dies, and every table loses exactly those stubs |
| WrapperGraph.GrownTree | src/protobuf-6.31.1/python/message.c:632-676 | reifying adds the empty messages of the missing path to every tree that contains the ancestor, and the wrapper points at their end |
| WrapperGraph.GrowthAddsPath | src/protobuf-6.31.1/python/message.c:970-1006 | an assignment that fails after reifying leaves the path added and nothing else |
| WrapperGraph.ChainsEndReified | src/protobuf-6.31.1/python/message.c:558-576 | following parents from any wrapper is acyclic and ends at a reified one, and the first missing field is absent from its data |
| WrapperGraph.CountIsConserved | src/protobuf-6.31.1/python/message.c:558-574 | a wrapper's count is its outside references plus the number of stubs whose parent it is |
| WrapperGraph.HeldFromOutside | src/protobuf-6.31.1/python/message.c:820-835 | no leak: every live wrapper is in the chain of parents of one that is held from outside |
| WrapperCounts.ReferencesAreTaken | src/protobuf-6.31.1/python/message.c:623-671 | reifying takes exactly one reference, and exactly the table entry of the next stub, from each former ancestor that survives, and nothing from the wrapper itself or from any other |
| WrapperCounts.SideSurvives | src/protobuf-6.31.1/python/message.c:820-848 | what hangs beside the chain is not freed by the climb: it survives with whatever holds it from outside |
| WrapperGraph.ChildGetsData | src/protobuf-6.31.1/python/message.c:632-648 | the stub of a reified wrapper gets a new empty message |
| WrapperSync.CopiedAfterGrowth | src/protobuf-6.31.1/python/message.c:1289-1317 | growing the way to a message and then rebuilding it puts the copy at the end of the path in every tree that contains the ancestor |
| WrapperSync.SyncedIsAttached | src/protobuf-6.31.1/python/message.c:702-759 | after copying, every stub that lay below the target points at the message on its path, or waits on |
| MessageForest.ReplacedTree | src/protobuf-6.31.1/python/message.c:1301-1309 | rebuilding one message is seen in exactly the trees it is part of |
| WrapperGraph.IdentityKept | src/protobuf-6.31.1/python/message.c:850-853 | after reifying, reading a field of an ancestor gives the very wrapper that was its stub |
| WrapperGraph.AllotKeepsCore | src/protobuf-6.31.1/python/message.c:613-621 | the invariant after a stub got data of its own, with the one entry that is now out of step |
| WrapperGraph.AttachKeepsCore | src/protobuf-6.31.1/python/message.c:623-630 | attaching closes that entry and breaks no other |
| WrapperGraph.UnlistKeepsCore | src/protobuf-6.31.1/python/message.c:823-826 | a dying stub can be taken out of its parent's table without breaking the invariant |
| WrapperGraph.UncacheKeepsCore | src/protobuf-6.31.1/python/message.c:827-829 | a dying reified wrapper can be taken out of the cache without breaking the invariant |
| WrapperGraph.NewStubOk | src/protobuf-6.31.1/python/message.c:558-574 | a new stub keeps the invariant |
| WrapperGraph.NewWrapperOk | src/protobuf-6.31.1/python/protobuf.c:177-179 | a new cached wrapper keeps the cache a bijection |
| WrapperGraph.ClearReified | src/protobuf-6.31.1/python/message.c:1456-1457 | clearing a field nobody waits for removes it and all below it from every tree, and nothing else |
| WrapperGraph.ClearStub | src/protobuf-6.31.1/python/message.c:1427-1457 | the same for a field a stub waits for, which is first grown and then cut off |
| WrapperGraph.ClearWhole | src/protobuf-6.31.1/python/message.c:1423-1424 | emptying a message is seen in every tree that contains it and in no other |
| WrapperSync.ClearingStep | src/protobuf-6.31.1/python/message.c:1404-1420 | one cut-off stub keeps the invariant and the data there was |
| WrapperSync.CopyOk | src/protobuf-6.31.1/python/message.c:1301-1309 | a deep copy leaves the object cache a bijection and puts only unwrapped messages below the target |
| MessageForest.PathsAreUnique | src/protobuf-6.31.1/python/message.c:650-676 | in message data without sharing or cycles two messages are joined by at most one path |
| MessageForest.GraftIsForest | src/protobuf-6.31.1/python/message.c:650-676 | growing a missing path keeps the data a forest |
| MessageForest.GraftTree | src/protobuf-6.31.1/python/message.c:650-676 | growing a path changes the tree of every message, ancestors included, by exactly that path |
| MessageForest.WithScalarTree | src/protobuf-6.31.1/python/message.c:1010-1011 | setting one scalar changes one leaf of every tree that contains the message |
| MessageForest.WithoutTree | src/protobuf-6.31.1/python/message.c:1456-1457 | removing fields removes what is below them from every tree, and nothing else |
| FileSender.SendOp.GatherFileInfo | src/transfers.py:350-407 | the listing is the pre-order walk of the forest, the count is its length, the top names are those of the forest |
| FileSender.SendOp.ProcessFolder | src/transfers.py:362-383 | the loop appends the walk of a folder's children |
| FileTree.WalkIsLookup | src/transfers.py:350-407 | a file is listed exactly when its path leads to a node of the tree, and described as that node |
| FileTree.WalkDistinct | src/transfers.py:350-407 | no path is listed twice |
| FileTree.WalkParentsFirst | src/transfers.py:362-383 | every folder on the way to a listed path is listed before it |
| FileSender.ReadFile | src/transfers.py:112-147 | the chunks of one file, block after block, up to the first short one |
| FileSender.ReadChunks | src/transfers.py:95-147 | the stream is the chunks of the files in listing order |
| FileSender.BlocksJoin | src/transfers.py:121-144 | for any block size the blocks join to the bytes again; all but the last are full and the last is short |
| FileSender.Compressor | src/interceptors.py:112-122 | each chunk goes out with its data compressed, or as it is if it has none |
| FileSender.Decompressor | src/interceptors.py:17-30 | each chunk comes in with its data decompressed, or as it is if it has none; what cannot be decompressed ends the stream |
| FileSender.InflateDeflate | src/interceptors.py:17-30 | the two undo each other, empty blocks included |
| FileReceiver.Receiver.ReceiveData | src/transfers.py:222-252 | one chunk: new paths close the last file, checks come in the source's order, the file is made once and then appended to |
| FileReceiver.Receiver.CloseCurrentFile | src/transfers.py:254-295 | the mode is restored at once for a file, put aside for a folder, never for a link; the count goes down by one |
| FileReceiver.Receiver.DoApplyFolderPermissions | src/transfers.py:297-307 | the folders put aside are worked off from the last to the first |
| FileReceiver.Receiver.CleanCurrentTopDirFile | src/transfers.py:195-209 | after an error the top-level item of the current path goes, if that path is safe |
| CleanUp.NoPartIsLeft | src/transfers.py:195-209 | after a refusal, whatever would have come after, or a cancellation: if the receiver was at a safe path nothing is left under the top-level name of that path that can be removed, and every other entry is as the last chunk left it; otherwise everything is |
| CleanUp.InterruptedTree | src/remote.py:483-538 | the transfer of any tree that is cancelled, or meets an undecodable chunk, after any number of its chunks: exactly the top-level trees sent before are there, in full but for the modes of their folders, and nothing of the one it stopped in; unless the last chunk was a link that leads out of the save folder, behind which everything received stays |
| CleanUp.LinkIsLeft | src/transfers.py:195-209 | a concrete link that leads out of the save folder and stays after a cancellation |
| FileReceiver.CleanExistingFiles | src/transfers.py:189-193 | each announced top-level name is removed before the transfer |
| FileReceiver.StartTransferOp | src/remote.py:508-537 | cleaning, the receive loop, finishing and the outcomes of an operation: finished, with or without a warning, failed, or cancelled, which cleans up and sets no status |
| FileReceiver.Receiver.ReceiveStream | src/remote.py:511-512 | the loop receives chunk after chunk and stops at the first fault or undecodable chunk |
| ReceiverModel.CountFollowsRuns | src/transfers.py:222-238 | for any chunks whatever the counter is the announced total less the runs of equal paths closed so far, and never negative |
| ReceiverModel.CountTheorem | src/remote.py:508-537 | barring other errors a stream is refused iff it has more runs than announced, ends FINISHED iff the numbers agree and FINISHED_WARNING iff it has fewer |
| ReceiverModel.SurplusIsCounted | src/transfers.py:231-238 | a chunk that begins one file too many under an announced name is refused for the count, whatever the path check would say |
| ReceiverModel.CancelledIsUnfinished | src/remote.py:526-528 | a call cancelled without a fault keeps its status, however many files have come, with the count of the runs closed by then |
| ReceiverModel.ReceiveSplit | src/remote.py:508-512 | receiving two streams one after the other is receiving their concatenation |
| PermissionOrder.PermissionsComeLast | src/transfers.py:277-307 | the last calls of a receipt are the chmods of exactly the folders put aside; descendants come before ancestors if the stream was pre-order, each folder once if the chunks of a path were together |
| PermissionOrder.FolderModesAre | src/transfers.py:277-288 | a folder's mode is put aside exactly when a run of chunks starts with it |
| PermissionOrder.FoldersInOrder | src/transfers.py:277-307 | the list has no folder after one below it, and none twice |
| Confinement.OnlyCheckedPaths | src/transfers.py:222-252 | whatever the chunks say and however the operation ends, every path that is made, written or has its mode changed began a run of chunks, began with an announced top-level name, and passed the path check on the file system that run began with |
| Confinement.NothingUnlogged | src/transfers.py:195-252 | these are all acts: no chunk and no removal changes the file system without one being recorded |
| Confinement.RemovesUnannouncedIffAstray | src/transfers.py:195-209 | after a refusal or a cancellation something that was not announced is removed iff the receiver is at a safe path whose first name was not announced; an operation that is not refused removes nothing more |
| Leftovers.UnannouncedRemoved | src/transfers.py:222-233 | a concrete chunk for an unannounced path, which is refused and for which what is at that path is removed |
| LinkChanges.FollowsIffStrays | src/transfers.py:254-307 | for any stream received without a fault, into any file system: a mode is changed through a link iff some file whose mode is sent has a link on its way when its run begins or is replaced by one within the run, or some other path whose mode is sent has a link on its way or at its end once everything has come |
| LinkChanges.RefusedFollowsIffStrays | src/transfers.py:222-295 | for any stream that is refused, cancelled afterwards or not: iff this holds of a file in a run closed by then |
| LinkChanges.CancelledFollowsIffStrays | src/remote.py:526-528 | for a call cancelled after chunks that were all received: iff it holds of a file in a run before the last |
| LinkChanges.StreamTracked | src/transfers.py:222-295 | at every point of a stream the links are those there were and those that were put, each at the place its path led to when it came, and none ever goes; the file at hand has only folders on its way unless there was a link |
| LinkStreams.LinksAsSent | src/transfers.py:240-243 | if no link is sent below another, these places are the paths sent, so that the condition can be read off the stream and the folder |
| LinkStreams.ModeThroughLink | src/transfers.py:222-288 | a concrete stream, a file with a mode and then a link of the same path, that ends FINISHED with the mode given to what the link leads to |
| LinkStreams.ModeBeyondLink | src/transfers.py:222-307 | a concrete stream, a folder below a link that leads inside and then another link in the place of the first, that ends FINISHED with the mode asked for at a path through the second |
| SaveFolder.PlaceIsPlain | src/util.py:446-471 | a path that meets no link leads to the place it names, ".." taken back |
| SentOrder.SentInOrder | src/transfers.py:350-407 | the chunks of any tree are in pre-order, and those of one path are together |
| SentOrder.SentFoldersInnermostFirst | src/transfers.py:297-307 | so for any tree sent the receiver ends with one chmod for each folder whose mode was sent, inner folders first |
| RoundTrip.RebuildsTree | src/remote.py:508-526 | for any tree with distinct sibling names, any block size and any earlier contents that can be removed under the sent names: FINISHED, and the save folder holds exactly the tree (types, bytes, link targets, modes) under the sent names and is otherwise unchanged, though folders may be sent with modes that close them |
| Leftovers.EveryTreeComesThrough | src/transfers.py:189-220 | the exact condition on the save folder: every tree with given top-level names comes through iff each folder already there under these names can be listed and, if it holds something, searched and changed |
| Leftovers.LeftoverSpoils | src/transfers.py:189-220 | if some folder there cannot be removed, sending plain files of the same names does not come through |
| Leftovers.ReadOnlyTreeSentTwice | src/transfers.py:189-252 | a read-only folder with a file in it, sent with modes preserved, comes through once, and sent again ends FAILED |
| RoundTrip.Transfer | src/transfers.py:95-166 | the methods of both machines run one after another, with compression on both sides or neither, give that outcome, and under that condition the same tree |
| RoundTrip.ListReceived | src/transfers.py:222-252 | receiving the chunks of any listing with parents first lays down exactly its items |
| RoundTrip.PassRestores | src/transfers.py:297-307 | working from the end the pass can reach every folder whatever modes it has set, and sets each mode |
| SaveFolder.OrdinaryAdds | src/transfers.py:240-247 | at a path of ordinary names with its parents there, folder, link and file are made at that very place |
| Utf8Range.ValidateUTF8Naive | src/protobuf-6.31.1/utf8_range/utf8_range.c:52-138 | the verdict on the bytes from start on: all well-formed, or the longest well-formed prefix, as asked |
| Utf8Range.SkipAscii | src/protobuf-6.31.1/utf8_range/utf8_range.c:160-176 | it stops at the first byte that is not ASCII, or at the end |
| Utf8Words.WordTest | src/protobuf-6.31.1/utf8_range/utf8_range.c:160-170 | the test against 0x80..80 holds exactly of eight ASCII bytes |
| Utf8Range.Validate | src/protobuf-6.31.1/utf8_range/utf8_range.c:178-199 | resuming after the skip changes no verdict |
| Utf8Range.IsValid | src/protobuf-6.31.1/utf8_range/utf8_range.c:201-203 | true iff the bytes are a concatenation of characters of section 4 of RFC 3629 |
| Utf8Range.ValidPrefix | src/protobuf-6.31.1/utf8_range/utf8_range.c:205-207 | the length of the longest prefix that is well-formed, which is the whole length iff the bytes are well-formed |
| Utf8Range.GiveUp | src/protobuf-6.31.1/utf8_range/utf8_range.c:95-129 | where no branch of the loop accepts, no well-formed prefix is longer |
| Utf8Range.Accept | src/protobuf-6.31.1/utf8_range/utf8_range.c:77-127 | where a branch accepts, the prefix with the character is well-formed |
| Utf8Grammar.PrefixFree | src/protobuf-6.31.1/utf8_range/utf8_range.c:52-138 | no character of the grammar begins another |
| Utf8Grammar.Cancel | src/protobuf-6.31.1/utf8_range/utf8_range.c:178-199 | what follows a well-formed prefix of well-formed bytes is well-formed |
| Utf8Grammar.SkipPrefix | src/protobuf-6.31.1/utf8_range/utf8_range.c:178-199 | a well-formed prefix may be skipped, for the verdict and for the longest prefix |
| Utf8Grammar.LongestIsUnique | src/protobuf-6.31.1/utf8_range/utf8_range.c:205-207 | there is one longest well-formed prefix, and it is everything iff everything is well-formed |
| SliceSemantics.NormalisedIsPythonic | src/protobuf-6.31.1/python/protobuf.c:372-398 | normalisation yields in-range positions, exactly those Python's index or slice selects, with the slice's own step |
| SliceSemantics.RefusedIffPythonRefuses | src/protobuf-6.31.1/python/protobuf.c:372-398 | an index is refused iff it is below minus the size or not below the size, a slice iff its step is zero |
| SliceSemantics.KeptIsPythonic | src/protobuf-6.31.1/python/protobuf.c:372-398 | keeping what the normalised range leaves is keeping what Python keeps |
| SliceSemantics.EmptyStridedSliceArises | src/protobuf-6.31.1/python/protobuf.c:372-398 | a concrete slice that normalises to an empty range with step 2 |
| SliceSemantics.KeptReversed | src/protobuf-6.31.1/python/repeated.c:368-374 | turning a slice round does not change what it leaves |
| RepeatedContainer.UpbArray.Move | src/protobuf-6.31.1/python/repeated.c:386-388 | memmove within the buffer, refused when it would leave it |
| RepeatedContainer.UpbArray.MoveBetweenSteps | src/protobuf-6.31.1/python/repeated.c:376-389 | the loop leaves at the front what the slice leaves before its last position, and has not touched what follows |
| RepeatedContainer.UpbArray.MoveTail | src/protobuf-6.31.1/python/repeated.c:394-399 | the rest moves down and the size shrinks; a start past the end is refused |
| RepeatedContainer.UpbArray.DeleteSubscript | src/protobuf-6.31.1/python/repeated.c:364-401 | exactly the elements outside the slice remain, in order, every move in bounds, the size less by count: iff count >= 1 or the step is -1, 0 or 1; otherwise the one element at which the slice begins goes, or the one before if it runs backward, or the move leaves what is there |
| RepeatedContainer.UpbArray.DeleteItem | src/protobuf-6.31.1/python/repeated.c:403-418 | del with any index or slice: refused iff Python refuses it, with its error and nothing changed; else it means what Python means iff it is an index, or the step is 1 or -1, or something is selected; and what it deletes if not |
| RepeatedContainer.UpbArray.SetSubscript | src/protobuf-6.31.1/python/repeated.c:307-362 | one element, a splice of any length at step 1 (growing or shrinking), or strided writes to those positions and no other; nothing when lengths differ at another step; what a failing conversion leaves |
| RepeatedContainer.UpbArray.Reshape | src/protobuf-6.31.1/python/repeated.c:332-337 | room for another number of elements: front and rest are as before, also when the rest lies beyond the new size |
| RepeatedContainer.UpbArray.WriteItems | src/protobuf-6.31.1/python/repeated.c:346-356 | the converted items stand one step apart and nothing else has changed; it stops at the first that does not convert |
| ThreadExecutor.AlwaysInvariant | src/util.py:67-142 | the executor's invariant in every state of every interleaving |
| ThreadExecutor.NoLostWakeup | src/util.py:67-74 | if the factory waits although there is an operation or a shutdown, a client still owes a notify, can make it, and it wakes the factory |
| ThreadExecutor.StartedInOrder | src/util.py:76-82 | operations start at most once each and in the order put, and only queued ones or the one in hand are outstanding |
| ThreadExecutor.NextIsStarted | src/util.py:67-82 | progress: in every reachable state without a shutdown in which something put is not started, the factory and the clients that owe a notify can by themselves start exactly the next operation |
| ThreadExecutor.StartedWithinSevenSteps | src/util.py:67-82 | the bound: whatever else happens short of a shutdown, the next operation has been started seven steps of the factory later |
| ThreadExecutor.SubmittedIsStarted | src/util.py:93-114 | an operation submitted in any reachable state without a shutdown is taken, and the threads can by themselves start all that was put up to it |
| ThreadExecutor.RefusedAfterShutdown | src/util.py:93-99 | after a shutdown only the calls that had got past its test before are still put |
| ThreadExecutor.QueuedIsLeftBehind | src/util.py:84-104 | once the factory has ended, what was put beyond what was started is exactly what is queued, none of it is ever started, and what is put later joins it |
| ThreadExecutor.LeftBehind | src/util.py:67-91 | a concrete run in which an operation accepted before the shutdown is left behind |
| ThreadExecutor.CountIsLiveWorkers | src/util.py:106-128 | the count is that of the started workers which have not counted down, one more while a thread is being started |
| ThreadExecutor.EveryWorkerNotifies | src/util.py:116-131 | in every run each worker that is gone has notified the factory, once |
| ThreadExecutor.ShutdownIsComplete | src/util.py:133-142 | once shutdown has returned every started operation has returned, and none is ever started again |
| ThreadExecutor.ShutdownNeverStuck | src/util.py:84-91 | until the factory has ended after a shutdown, some thread can go on, and comes nearer to that end |
| ThreadExecutor.ShutdownEnds | src/util.py:84-91 | from every reachable state after a shutdown was called the threads can by themselves bring the factory to its end |
| ThreadExecutor.ShutdownReturns | src/util.py:133-142 | and every client that called it can return |
| ThreadExecutor.StepKeepsNotify | src/util.py:93-104 | put before notify, and the flag before notify, keep the debt visible at each step; a waiting factory is woken by a notify and by nothing else, and nobody notifies while it holds the lock |
| StatusDelivery.LastRequestIsDelivered | src/remote.py:302-322 | in every interleaving, whenever nothing is queued or running the status is the last one asked for, and listeners heard of every change and of nothing else |
| StatusDelivery.SecondRequestReplacesFirst | src/remote.py:302-307 | of two requests in a row only the second stays queued |
| StatusDelivery.OneQueuedUnlessForgotten | src/remote.py:302-311 | in any run at most one source is ever queued iff no request comes while a callback dispatched too early has reset the id of the queued one |
| StatusDelivery.TwoSourcesCanBeQueued | src/remote.py:309-311 | a concrete run in which a callback dispatched too early forgets the next source, so that two are queued |
| StatusDelivery.RemoteStatus.SetRemoteStatus | src/remote.py:302-307 | withdraws the source of the last request if it is still queued, and queues the new one last |
| StatusDelivery.RemoteStatus.SetStatusCb | src/remote.py:309-322 | forgets the source id, and tells listeners if the status changes |
| DuplexHandshake.WaitingForDuplex | src/server.py:534-560 | true at the first poll that finds a good view, or a deadline error after exactly 20 polls that find none |
| DuplexCalls.CallWaits | src/server.py:534-560 | over runs of both machines: a version 2 call ends as this method does on the views its polls meet, whatever happens between them: true at the first good one, aborted at the twentieth bad one, undecided before |
| DuplexCalls.CallLooks | src/server.py:522-532 | a version 1 call is answered at its only look, by whether that view is good |
| DuplexCalls.GivesUpAtEleventh | src/remote.py:134-171 | on one channel version 1 takes ten refusals and goes back to connecting exactly at the eleventh |
| DuplexCalls.RequestsInOrder | src/remote.py:100-275 | in every run each thread runs only for a machine that was discovered, and the order of the statuses it asks for is one of those listed, which depend on the version |
| DuplexCalls.FailureIsReported | src/remote.py:257-268 | an attempt that fails by timeout, abort or lost call is reported as UNREACHABLE, a lost call by version 2 only |
| DuplexCalls.InfoIsCounted | src/remote.py:363-386 | each time a thread gets online one request for information is made, which fails, is dealt with, or is still on its way |
| DuplexHandshake.OnlineNeedsBoth | src/remote.py:151-162 | in every run of two peers of either version a connection thread asks for ONLINE only after AWAITING_DUPLEX, and after the other's good look at its own view since, before which the other had asked for AWAITING_DUPLEX too; arriving machine information asks for ONLINE only after the thread has |
| DuplexHandshake.StoppedStaysOffline | src/remote.py:270-275 | after the thread has stopped and as long as it is not started again, whatever else happens on both machines: once nothing is on its way the status is OFFLINE iff no machine information has arrived since; none arrives if no answer was there when the channel closed |
| DuplexHandshake.RevivedIffAnswered | src/remote.py:363-386 | a stopped remote can settle at ONLINE, with no thread behind it, iff an answer with machine information had come but was not dealt with when it stopped |
| DuplexHandshake.RevivalArises | src/remote.py:363-386 | a run of two machines from the start that reaches such a state |
| DuplexHandshake.NeverRefused | src/server.py:522-532 | two peers that both wait for duplex never refuse each other in any undisturbed run |
| DuplexHandshake.StepKeepsInvariant | src/remote.py:236-275 | every step of either peer keeps the history that backs an ONLINE request |
| UnknownFields.UnknownFieldSet.Build | src/protobuf-6.31.1/python/unknown_fields.c:199-233 | appends exactly the fields of the parse and leaves the cursor where it ends, or fails exactly when it fails |
| UnknownFields.UnknownFieldSet.BuildValue | src/protobuf-6.31.1/python/unknown_fields.c:149-195 | one value of each wire type; a group is a set built recursively; other wire types fail |
| UnknownFields.ReadLongVarint | src/protobuf-6.31.1/upb/wire/reader.c:18-33 | the loop that adds up a varint, cancelling continuation bits, with its bounds |
| WireGrammar.ParsesExactly | src/protobuf-6.31.1/python/unknown_fields.c:199-233 | the parse gives some fields and a rest iff the input begins with these fields, as a grammar of the format says: nothing else is accepted, so overlong or overlarge tags, sizes from INT32_MAX on, other wire types and foreign end-group tags are refused |
| WireGrammar.ReadsVarint | src/protobuf-6.31.1/upb/wire/internal/reader.h:29-45 | a varint is read iff one stands there, of as many bytes and as large a value as is allowed; bits beyond the 64th are lost |
| WireFormat.RoundTrip | src/protobuf-6.31.1/python/unknown_fields.c:199-233 | an encoded message with groups nested to any depth parses back to its fields with nothing left over |
| WireFormat.FieldsParse | src/protobuf-6.31.1/python/unknown_fields.c:199-233 | encoded fields in front of any input parse to these fields and then what follows |
| WireFormat.WrongEndIsRefused | src/protobuf-6.31.1/python/unknown_fields.c:211-214 | at every depth an end-group tag with the wrong number makes the whole parse fail |
| WireFormat.CutOffIffBetween | src/protobuf-6.31.1/python/unknown_fields.c:204-228 | of all the ways to cut an encoded message short, those that cut between two fields, with any number of groups open, and no others are accepted |
| WireFormat.CutOffIsAccepted | src/protobuf-6.31.1/python/unknown_fields.c:204-228 | the end of input ends all open groups: they are accepted as if they had been ended |
| WireFormat.VarintReads | src/protobuf-6.31.1/upb/wire/internal/reader.h:29-45 | every 64-bit number reads back from its varint, also through the wrapping arithmetic of the long form |
| WireFormat.TagReads | src/protobuf-6.31.1/upb/wire/reader.h:35-42 | every field number and wire type reads back from its tag |
| WireFormat.LittleEndianReads | src/protobuf-6.31.1/upb/wire/reader.h:85-103 | fixed-width integers read back |
| MapIteration.VersionTellsKeys | src/protobuf-6.31.1/python/map.c:93-148 | the version never falls, stays in exactly the cases named, and the keys change under an unchanged version exactly when data merged into the message bring a key of their own, into a stub or into a table in use |
| MapIteration.MatchingVersionMeansSameKeys | src/protobuf-6.31.1/python/map.c:111-255 | over any sequence of operations without such a merge, a version that still matches means the same keys in the same order |
| MapIteration.ReplacingKeepsIterators | src/protobuf-6.31.1/python/map.c:135-148 | replacing a value keeps the version and the order |
| MapIteration.IterationYieldsOriginalKeys | src/protobuf-6.31.1/python/map.c:487-500 | whatever is done to the map meanwhile, but for merging new keys into it, an iteration yields the keys there were, each at most once, all of them if it ends by itself, otherwise it reports the change |
| MapIteration.ReportedOnlyIfModified | src/protobuf-6.31.1/python/map.c:487-500 | a modification is reported only if the version has moved |
| MapIteration.UndisturbedIterationEnds | src/protobuf-6.31.1/python/map.c:487-500 | an iteration nobody disturbs yields all keys and then ends |
| MapIteration.MergingGoesUnnoticed | src/protobuf-6.31.1/python/message.c:1332-1372 | concrete merges, into a stub and into a table in use, that change the keys under an unchanged version |
| MapIteration.MapContainer.Merged | src/protobuf-6.31.1/python/message.c:1332-1372 | the new state after data have been decoded into the map: every entry is inserted, the version stays |
| MapIteration.MergedMeans | src/protobuf-6.31.1/python/message.c:1332-1372 | under each merged key is what came last under it, and the other keys are as they were |
| MapIteration.MeansDictionary | src/protobuf-6.31.1/python/map.c:152-255 | assignment, deletion, lookup with default, setdefault and clear mean what they mean for a dictionary; invalidation changes nothing |
| MapIteration.FailureChangesNothing | src/protobuf-6.31.1/python/map.c:152-255 | an operation that fails leaves keys, values and order as they were |
| MapIteration.FailsForCause | src/protobuf-6.31.1/python/map.c:152-255 | each error has exactly its cause: a key or value that does not convert, no memory for a new key, no default, a missing key; without one the operation succeeds |
| MapIteration.MapContainer.AssignSubscript | src/protobuf-6.31.1/python/map.c:152-176 | the new state and result of an assignment, conversion failures included |
| MapIteration.MapContainer.GetItem | src/protobuf-6.31.1/python/map.c:178-198 | the new state and result of a lookup that may insert |
| MapIteration.MapContainer.SetDefault | src/protobuf-6.31.1/python/map.c:222-255 | the new state and result of setdefault |
| MapIteration.MapIterator.MoveNext | src/protobuf-6.31.1/python/map.c:487-500 | the next key, the end, or the report of a modification |
| HostNames.Server.EnsureUniqueHostname | src/server.py:363-381 | ends within one pass more than there are remotes, with a name none of them shows and the smallest free suffix |
| HostNames.Server.AddRemote | src/server.py:344-356 | adding machines one after another keeps display names pairwise distinct |
| HostNames.Pigeonhole | src/server.py:363-381 | no more candidates can be taken than there are remotes |
| HostNames.CandidatesDiffer | src/server.py:372-374 | different suffixes give different names, whatever the host name |
| HostNames.CandidateNumber | src/server.py:372-374 | a suffixed name is the host name and, in brackets, the plain decimal numeral of the suffix |
| HostNames.Server.IsDisplayed | src/server.py:369-376 | one pass over the table finds the name iff some remote shows it |

## Left out

- Message wrappers: repeated and map stubs in the table of unset fields, oneofs, extensions, message types, required fields, and decoding into submessages that are present; with them the invariant would be another one.
- Message wrappers: counts of arenas and types; addresses of freed wrappers are not used again; no allocation fails.
- Message wrappers: HasField, comparison, serialisation and printing read the data only.
- MessageWrappers.Runtime.Reify: the source overwrites the parent pointer before it gives up the reference, the model after; nothing runs in between.
- MessageWrappers.Runtime.Dealloc: the wrapper disappears before its parent's reference is given up, in the source after; nothing runs in between.
- MessageWrappers.Runtime.CopyFrom: the deep copy of upb is a parameter with the contract of a deep copy, asked for only where the source does not contain the target, since there the call does not return; which intermediate stubs nobody else holds are freed on the way is not stated.
- MessageWrappers.Runtime.SetFieldValue: what the Python method `_internal_assign` of a well-known type does; the model ends with the wrapper it is called on. The reference held on that wrapper is not given back in the source either.
- WrapperGraph.CountIsConserved: the counter has no width, so it cannot overflow.
- Transfers: sizes, times, progress, cancellation on the sender's side, short reads, files changing while they are sent, links followed at the top level (the forest is what the enumeration reports), and files that are neither regular, folder nor link.
- Transfers: relative paths are the sequences of names that joining them to the save folder leaves, so `.` and empty names are gone and absolute paths are not covered; the name given to the temporary file of a link is not modelled, nor is what a refused link leaves of it.
- CleanUp.NoPartIsLeft: nothing is said of a path that begins with `..`, whose first name does not lie below the save folder.
- ReceiverModel.CountTheorem: a fresh operation; an operation that is tried again keeps its old counter.
- RoundTrip.RebuildsTree: only the owner's permission bits count, and removal may leave any of what it meets before the first thing it cannot remove.
- LinkChanges.FollowsIffStrays: the save folder itself keeps its mode; a link can be followed whenever it leads somewhere, whatever the permissions of the folders its target passes; links inside folders that may not be searched are seen by the path check.
- FileReceiver.Receiver.CloseCurrentFile: modification times, which are restored before the mode.
- RoundTrip.Transfer: zlib is any pair of functions that undo each other and never compress to nothing, as section 2.2 of RFC 1950 guarantees by its header.
- UTF-8: the SIMD path, whose files are not part of this model.
- RepeatedContainer.UpbArray.SetSubscript: no allocation fails, and the new elements of a grown array are not zeroed before they are written.
- Repeated fields: append, extend, insert, pop, remove, reverse and sort.
- ThreadExecutor.AlwaysInvariant: the table of thread names, which shares its lock with the count, and the sandbox rules of a worker.
- ThreadExecutor.StartedWithinSevenSteps: that every thread gets to run is up to the scheduler; steps of the factory are counted, not time.
- ThreadExecutor.ShutdownIsComplete: operations return normally; one that raises never counts down, and shutdown then waits for ever.
- StatusDelivery.LastRequestIsDelivered: the main loop runs idle sources in the order in which they were added.
- DuplexHandshake.OnlineNeedsBoth: channels, certificates, discovery and the time between polls; a call may fail at any moment.
- WireFormat.RoundTrip: overlong varints are read as the source reads them but never written by the encoder.
- UnknownFields.UnknownFieldSet.Build: reading beyond the input fails at once, in the source at the next check of the stream; the result is the same.
- UnknownFields.UnknownFieldSet.BuildDelimited: when the size of a delimited value cannot be read, the source goes on with an unset variable and a null pointer, the model fails.
- Unknown fields: the MessageSet format and the depth limit of skipped groups.
- MapIteration.MapContainer.Merged: decoding is given as the entries it brings, in their order.
- MapIteration.MatchingVersionMeansSameKeys: the version has no width; the hash table's order is that of insertion, and no claim rests on it across an insertion.
- HostNames.Server.AddRemote: two threads that both search before either inserts can choose the same name; only insertions one after another are covered.
- User interface, preferences, D-Bus, notifications, networking, authentication and sandboxing.
