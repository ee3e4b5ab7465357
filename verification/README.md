# Proofs about HyperBEAM

Models, in Dafny, of the parts of HyperBEAM where a mistake costs data or money, with proofs of what
those parts are for. `dafny verify dfyconfig.toml` checks the project.

- **Merkle proofs of data** (`Merkle*.dfy`, `SplitRules.dfy`, `TreeRoots.dfy`, `AgreeingProofs.dfy`, `MovedFrames.dfy`, `Marked*.dfy`,
  `Chunking.dfy`).
  A list of chunks, possibly nested, becomes an offset-annotated hash tree; `generate_path` emits a proof for a byte and `validate_path` checks
  arbitrary bytes under four rulesets. SHA-256 is any function with 32-byte values. Soundness is stated
  for a function without a collision among the finitely many strings that the builder and the validator
  hash in the case at hand, so a violation exhibits two colliding strings.
- **Bundler and escrow** (`Ledger.dfy`, `Bundler*.dfy`). The bundling server is a class with the source's
  fields and one method per source function, each proved against a pure function of the state. Around it
  `BundlerSystem` is a step system of uploads, mailbox, timers, workers and a token ledger. Mailbox order
  and worker results are left open.
- **Network of token ledgers** (`HyperToken.dfy`, `TokenNetwork.dfy`, `TokenEffects.dfy`). One process per ledger, as a class;
  the network is a step system of transfers, deliveries and losses.
- **ANS-104** (`AvroTags.dfy`, `DataItems.dfy`, `Bundles.dfy`, `BundleRoundTrip.dfy`, `ItemLayout.dfy`) and the **search for
  the deepest item at a byte** (`OffsetLookup.dfy`, `Layouts.dfy`, `OffsetSearch.dfy`, `HeaderCuts.dfy`,
  `StoredTree.dfy`, `DeepestItem.dfy`, `MissedItem.dfy`).
- **Range reads** (`RangeRead.dfy`, `FixedRangeRead.dfy`). The weave is a byte string with an arbitrary
  division into chunks of at most 256 KiB.
- **Keccak** (`Fips202.dfy`, `Keccak*.dfy`, `Sponge.dfy`). FIPS 202 is written down from the standard, bit by
  bit; the C code is methods with loops over the same arrays, in place. A 64-bit word is its bits, least
  significant first; a byte is eight bits (appendix B.1 of FIPS 202).
- **Deep hash** (`DeepHash.dfy`) and the **key pool** (`WalletPool.dfy`).
- **Flat messages** (`FlatCodec.dfy`). Maps are visited in any order that lists each key once.

`Options.dfy`, `Bytes.dfy`, `MapSum.dfy`, `Counting.dfy` and `Remainders.dfy` hold what several of them share.

## Results that are not what one would hope for

- A rebased left subtree of several chunks validates only below the root or below a plain right child;
  `MerkleRebase.RebaseExactly` gives the exact condition and `IllPlacedExample` a list of four full chunks
  for which an offset fails. The offset passed on to `PrevNote` is the left bound of the node only in those
  places.
- Under the rebasing ruleset proofs are not unique, and what they yield can be wrong. Against the root of a
  flat list an offset in the seventh chunk can be answered with the sixth (`MarkedExamples.WrongChunk`), and
  against a list with a nested one an offset can be answered with an interval that does not hold it
  (`WrongBounds`). An accepted path whose marks agree with the tree gets the true answer, nested lists included
  (`AgreeingProofs.NestedSoundness`), and of the accepted paths exactly these are generated ones
  (`GeneratedIffAgrees`); against a flat list it is the path without marks (`MarkedProofs.GeneratedIffUnmarked`).
  Against a flat list the answer is true exactly if no branch of the path but the last moves the origin of the
  offsets (`MovedFrames.FlatVerdictIff`). In a nested list a mark that comes too early can take the place of one
  that is missing (`MarkedExamples.EarlyMarkIsRight`).
  If all chunks are full but the last two, as both chunkers cut them, every answer is true
  (`MarkedProofs.FullFrontSoundness`, `Chunking.OnlyTrueChunks`).
- The root covers all sub-ledgers together, but not each of them: a transfer between sub-ledgers moves no
  balance on the root (`TokenNetwork.LedgerSlackDropsExactly`), and the redemption that follows can be
  refused, after which nobody has the tokens (`PeerRedemptionCanBeLost`).
- Tag blocks with an empty name do not round-trip (`AvroTags.TagsRoundTrip` is an if-and-only-if).
- A bundle is read back exactly if every item in it has tags that say what its data are
  (`BundleRoundTrip.TreeRoundTrip`); one item that does not keeps the list around it from being written at
  all (`ImpostorSpoilsList`).
- The search by offset decodes a header from one chunk. A header that is cut off by the end of the chunk can
  decode as one with fewer tags (`HeaderCuts.CutDecodes`), and a nested bundle is then taken for a plain item
  (`MissedItem.NestedIsMissed`). `DeepestItem.LookupFindsInnermost` says exactly when the search is right.
- A bundle whose first 32 bytes cross the end of a chunk cannot be looked up (`StoredTree.IndexReadIff`).
- A flat map with a path through another one is read differently in different orders
  (`FlatCodec.OrderMattersExactly`), and a value under the empty key is filed under the atom `undefined`
  (`EmptyKeyIsFiled`).
- The fixed-size path skips a chunk that holds no step of 256 KiB and not the end of the range, and can return
  a result of the right length without its bytes (`FixedRangeRead.FixedReadsIff`, `ShortChunkIsMissed`).

## Model

| member | source | states |
|---|---|---|
| Merkle.GetFinds | src/ar_merkle.erl:341-345 | lookup by ID finds a node with that ID whenever there is one |
| Merkle.Descend | src/ar_merkle.erl:162-222 | going down a proof keeps the position inside the bounds of the parent, in plain and in rebased branches |
| MerkleSoundness.ProofInterval | src/ar_merkle.erl:96-231 | from any position, an accepted proof ends in an interval inside it, and borders keep it within 256 KiB |
| MerkleBuild.GenerateTreeIsShape | src/ar_merkle.erl:251-312 | the node list that is built holds exactly the nodes of a binary tree with the returned root ID, nested lists included |
| MerkleLayout.TreeLayout | src/ar_merkle.erl:256-312 | the leaves of that tree, in order, are the chunks of the nested list at their absolute bounds |
| TreeRoots.RootIsFormula | src/ar_merkle.erl:251-312 | the root of any list, nested or not, is a formula over the hash: lists are split at the largest power of two below their length, and two parts hash the hash of the left root, of the right root and of the 32-byte end of the left part |
| TreeRoots.RootOfTwo | src/ar_merkle.erl:272-312 | the root of two chunks written out, without any condition on the hash |
| TreeRoots.PathIsFormula | src/ar_merkle.erl:314-339 | the generated path of a flat list is, on the way down, both roots and the end of the left part, and then chunk ID and end |
| TreeRoots.NoteDigit | src/ar_merkle.erl:347-348 | byte i of a note is digit 31 - i of the number to the base 256 |
| MerkleProofs.GeneratedPath | src/ar_merkle.erl:314-345 | the path found through the node list by ID is the path through the tree, for every destination |
| MerkleShapes.ProofValidates | src/ar_merkle.erl:96-231 | a path through a well-placed tree validates at every offset and returns the located leaf with its absolute bounds |
| MerkleProofs.PathCompleteness | src/ar_merkle.erl:35-231 | for every offset the generated path validates with the ID and exact bounds of the chunk there, if the ruleset admits the chunks |
| MerkleProofs.RebaseCompleteness | src/ar_merkle.erl:251-339 | nested lists of aligned 256 KiB chunks: every generated path validates under the rebasing ruleset with absolute bounds |
| MerkleRebase.RebaseExactly | src/ar_merkle.erl:162-231 | all generated paths of a nested list of aligned chunks, in whose tree siblings have different IDs and no ID is zero, validate if and only if each rebased left subtree of several chunks hangs from the root or from a plain right child |
| MerkleRebase.SomeOffsetFails | src/ar_merkle.erl:314-339 | otherwise, with the same IDs, there is an offset whose generated path is rejected or yields the wrong chunk |
| MerkleRebase.IllPlacedExample | src/ar_merkle.erl:314-339 | with four full chunks nested in such a way, some offset fails |
| MerkleSoundness.AcceptedInterval | src/ar_merkle.erl:44-231 | on arbitrary bytes and under every ruleset an accepted path yields 0 <= start <= clamped offset, start < end <= right bound, and end - start <= 256 KiB where borders are checked |
| MerkleSoundness.RulesetsNest | src/ar_merkle.erl:48-95 | acceptance under the strict split implies acceptance under strict borders, and that under the basic rules, with the same result |
| SplitRules.BasicExactly | src/ar_merkle.erl:59-64 | on arbitrary bytes: the basic rules accept a path exactly if its nodes hash up to the root, and yield the bounds at its leaf |
| SplitRules.StrictBordersExactly | src/ar_merkle.erl:96-107 | strict borders also need note and right bound of the leaf to be at most 262144 beyond its left bound |
| SplitRules.StrictSplitExactly | src/ar_merkle.erl:108-124 | the strict split also needs, with leaf note e and bounds [lb, rb): e - lb is 262144 and lb a multiple of it; or e is the data size, rb no multiple and lb at most rb rounded down; or lb is a multiple and the data size less lb lies strictly between 262144 and 524288; otherwise it rejects |
| SplitRules.RebaseSplitExactly | src/ar_merkle.erl:125-159 | the relaxed split needs, at absolute offsets, a start at a multiple of 262144, or a last chunk of several that ends inside the next 262144 bytes and not at their start |
| SplitRules.BoundsAreNotes | src/ar_merkle.erl:188-222 | without marks the bounds at the leaf are the largest note at or before the offset and the smallest one after it |
| SplitRules.LastIsRightOfAll | src/ar_merkle.erl:200-222 | and the leaf counts as the last one exactly if there are branches and all were passed to the right |
| SplitRules.GeneratedExactly | src/ar_merkle.erl:35-231 | the generated path of every offset of every flat list is accepted under the basic rules, under strict borders exactly if the chunk has at most 262144 bytes, and under the strict split exactly if start and end of the chunk also meet the three cases |
| SplitRules.GeneratedRebaseExactly | src/ar_merkle.erl:35-231 | and under the rebasing ruleset exactly if the chunk has at most 262144 bytes and starts at a multiple of 262144, or is the last of several and ends inside the next 262144 bytes |
| SplitRules.ShortChunkIsRefused | src/ar_merkle.erl:108-124 | of two chunks of 100 bytes the first is accepted under strict borders and refused under the strict split |
| MerkleSoundness.RebaseWithoutMarks | src/ar_merkle.erl:96-200 | on a path without rebase marks the rebasing ruleset parses what the others parse |
| MerkleSoundness.FlatProofsAreUnique | src/ar_merkle.erl:84-231 | under the three rulesets without rebasing, whatever bytes validate against the root of a flat list are the generated path, or two hashed strings collide |
| MerkleSoundness.FlatSoundness | src/ar_merkle.erl:84-231 | and they yield the real chunk at the offset with its exact bounds |
| MerkleSoundness.AcceptedChunkIsInTree | src/ar_merkle.erl:84-231 | against any tree and under any ruleset an accepted path yields a chunk ID that is in the tree, though not always the one at the offset |
| AgreeingProofs.NestedSoundness | src/ar_merkle.erl:44-231 | against the root of any list, nested or not, and under every ruleset an accepted path that is marked exactly above rebased children yields the real chunk at the offset with its exact bounds |
| AgreeingProofs.GeneratedIffAgrees | src/ar_merkle.erl:126-345 | in a well-placed tree without zero IDs a path that the rebasing ruleset accepts is the generated one if and only if it is marked like that |
| MovedFrames.LateMoveIsTrue | src/ar_merkle.erl:126-231 | against the root of any flat list an accepted path of which only the last branch moves the origin of the offsets yields the real chunk at the offset with its exact bounds |
| MovedFrames.FlatVerdictIff | src/ar_merkle.erl:126-231 | if no chunk is empty and no two have the same ID, what an accepted path yields is right if and only if it is such a path |
| MarkedProofs.GeneratedIffUnmarked | src/ar_merkle.erl:126-200 | a path that the rebasing ruleset accepts against the root of a flat list is the generated one if and only if it has no rebase marks |
| MarkedProofs.FullFrontSoundness | src/ar_merkle.erl:84-231 | if all chunks of the list are full but the last two, every path that the rebasing ruleset accepts yields the real chunk at the offset with its exact bounds |
| MarkedExamples.WrongChunk | src/ar_merkle.erl:126-200 | without that, an offset in the seventh of seven chunks is answered with the sixth |
| MarkedExamples.WrongBounds | src/ar_merkle.erl:178-231 | a nested chunk is accepted without its mark, with an interval that does not hold the offset |
| MarkedExamples.EarlyMarkIsRight | src/ar_merkle.erl:126-231 | against the root of a nested list a path whose marks do not agree with the tree gets the true answer |
| MarkedExamples.RebaseProofsAreNotUnique | src/ar_merkle.erl:126-157 | the tree of two full chunks has two accepted paths for one offset |
| Chunking.ChunksConcat | src/ar_tx.erl:460-482 | the pieces that both chunkers cut concatenate to the binary |
| Chunking.ChunksBetweenBorders | src/ar_tx.erl:460-505 | the chunks, with their hashes and bounds, in closed form: cuts at the multiples of 262144 and at the end, except that arweave-js cuts what is left behind the last but one full chunk in the middle, the larger half first, when its last part would have fewer than 32768 bytes |
| Chunking.ChunksOk | src/ar_tx.erl:460-482 | each has at most 262144 bytes and, unless empty, lies between its cuts as the strict split asks in numbers, and as the relaxed one does |
| Chunking.ChunksFullFront | src/ar_tx.erl:460-482 | all are full but the last two, and none but the last is empty |
| Chunking.ProofOfEveryByte | src/ar_tx.erl:424-505 | for every non-empty binary, mode, offset and ruleset the generated path validates and returns the hash and the bounds of the chunk that holds the byte, which are two neighbouring cuts; the rebasing ruleset needs that no ID is zero |
| Chunking.OnlyTrueProofs | src/ar_tx.erl:95-110 | without rebasing nothing but that path validates against the data root, at any offset |
| Chunking.OnlyTrueChunks | src/ar_tx.erl:95-110 | under every ruleset what validates yields the real chunk at the offset with its exact bounds |
| Ledger.RunConserves | scripts/hyper-token-p4.lua:56-235 | over every sequence of actions the balances plus what is reserved are constant |
| Ledger.RunEvolves | scripts/hyper-token-p4.lua:95-235 | a reservation keeps its account and quantity, and its recipient until it is released, and moves only from reserved to released or refunded |
| Ledger.SettledForGood | scripts/hyper-token-p4.lua:152-235 | once settled it stays so over every later run |
| Ledger.SettleOnce | scripts/hyper-token-p4.lua:152-235 | after a release or refund, neither changes anything again, whatever happens between |
| Ledger.RefundUndoesReserve | scripts/hyper-token-p4.lua:95-235 | reserve and then refund leaves every balance as it was |
| Ledger.ReserveReleaseTransfers | scripts/hyper-token-p4.lua:95-192 | reserve and then release moves exactly the quantity from payer to recipient |
| Ledger.ChargeMoves | scripts/hyper-token-p4.lua:56-93 | a charge changes the balance of every account by minus the quantity if it is the account charged, and by plus the quantity if it is the recipient |
| Ledger.ReserveExactly | scripts/hyper-token-p4.lua:95-150 | a reserve is refused exactly if its ID was ever used or the balance is less than the quantity; otherwise that is taken from the account |
| Ledger.ReleaseExactly | scripts/hyper-token-p4.lua:152-192 | a release pays the recipient that it names, or else the one of the reservation, once, and is refused exactly if the ID is unknown or refunded |
| Ledger.RefundExactly | scripts/hyper-token-p4.lua:195-235 | a refund pays the account, once, and is refused exactly if the ID is unknown or released |
| Ledger.IncompleteChangesNothing | scripts/hyper-token-p4.lua:56-120 | requests that lack a field change nothing |
| Bundler.Server.Serve | src/dev_bundler.erl:235-296 | a turn of the server leaves exactly the state and effects of the specification, for every message; what those are is stated by the rows of BundlerPayloads |
| BundlerInvariants.TurnKeeps | src/dev_bundler.erl:235-603 | every turn keeps the batching limits, moves entries only between queue, one bundle and completion, and keeps the work of each bundle equal to what it waits for; what that work carries is stated by BundlerPayloads.TurnTasks |
| BundlerInvariants.AssignKeeps | src/dev_bundler.erl:431-451 | after assigning no task is queued or no worker is idle |
| BundlerPayloads.TurnTasks | src/dev_bundler.erl:235-574 | every task after a turn was there before or is retried, or belongs to a live bundle and posts exactly its entries or builds the proofs of its transaction; bundles keep entries and transaction |
| BundlerPayloads.TurnPosted | src/dev_bundler.erl:500-574 | the entries in the reported transaction of a turn are those that move to the bundles with a transaction or to completion |
| BundlerPayloads.EnqueueExactly | src/dev_bundler.erl:298-357 | an item waits as long as count and bytes are below both limits; otherwise all that waits, newest first, becomes one bundle whose task posts all of it; the first one to wait arms the timer |
| BundlerPayloads.DispatchExactly | src/dev_bundler.erl:369-377 | a timer or an idle timeout makes one bundle of all that waits and cancels the timer |
| BundlerPayloads.AssignExactly | src/dev_bundler.erl:431-451 | the idle workers get the oldest tasks, one each in their order; the rest of the tasks stay in the queue |
| BundlerPayloads.PostedReport | src/dev_bundler.erl:500-513 | a posted transaction is kept with its bundle, and one task to build its proofs is queued |
| BundlerPayloads.BuiltReport | src/dev_bundler.erl:514-545 | each proof that was built is pending and gets a task, in order; without any, the bundle completes and its escrows are released |
| BundlerPayloads.ProofReport | src/dev_bundler.erl:546-603 | a posted proof is marked, and the last one completes the bundle |
| BundlerPayloads.FailureReport | src/dev_bundler.erl:471-497 | a failed task is scheduled again with one more retry and its worker is free |
| BundlerSystem.EveryRunIsGood | src/dev_bundler.erl:42-603 | no message crashes the server in any run, and all of the invariant holds in every state: queue limits, pending dispatch timer, each entry in one place, each live bundle with exactly its outstanding work, every task under way carrying exactly the entries or the transaction of its bundle, completed entries among the posted ones, each payment in the matching state |
| BundlerSystem.StepGood | src/dev_bundler.erl:42-603 | each single step keeps it |
| BundlerSystem.LiveBundleHasWork | src/dev_bundler.erl:392-574 | no live bundle is stuck |
| BundlerSystem.PaidOnce | src/dev_bundler_escrow.erl:9-100 | a reservation is in escrow exactly while one live entry carries it, and each payment is pending, released or refunded, never two of these |
| BundlerSystem.PaidForGood | src/dev_bundler_escrow.erl:67-103 | once a payment for an item has been reserved, every later priced upload of the item in the run is denied and changes nothing |
| BundlerPayments.UploadExactly | src/dev_bundler_escrow.erl:9-103 | an upload is free without a price; else it is accepted exactly if there is a quote and one signer who has the price and the item was never paid for, and then the price is taken from the signer and kept for the recipient |
| BundlerPayments.FailedUploadIsRefunded | src/dev_bundler.erl:61-93 | an upload that cannot be cached gives the signer the price back |
| BundlerPayments.CompletionPays | src/dev_bundler.erl:576-603 | a message changes the balance of every account by what the entries that it completes are worth to it as their recipient |
| BundlerPayments.CompletesWhole | src/dev_bundler.erl:576-603 | what completes is all of one live bundle, which is removed, or nothing |
| BundlerPayments.CompletedWasPosted | src/dev_bundler.erl:500-603 | nothing is completed that was not posted, and nothing posted that was not taken in |
| BundlerSystem.RunLedger | src/dev_bundler.erl:42-93 | over every run the money is constant and settled payments stay settled |
| TokenNetwork.Solvency | scripts/hyper-token.lua:557-806 | over every interleaving the root's total is constant, balances stay non-negative, user value never grows, and a root that covers the sub-ledgers keeps covering them |
| TokenNetwork.FreshNetworkIsCovered | scripts/hyper-token.lua:422-464 | a network that starts empty is covered |
| TokenNetwork.LedgerSlackDropsExactly | scripts/hyper-token.lua:657-750 | the cover of one ledger shrinks in a step if and only if the step is a positive transfer to its users from another sub-ledger, and then by that quantity |
| TokenNetwork.RedemptionHonoured | scripts/hyper-token.lua:657-750 | a redemption from a covered ledger is honoured |
| TokenNetwork.RedemptionExactly | scripts/hyper-token.lua:657-750 | any redemption that reaches the root is honoured if and only if its quantity is at most what the root holds for the ledger, and otherwise changes nothing |
| TokenEffects.NoticeExactly | scripts/hyper-token.lua:752-806 | at a sub-ledger a notice from the root, from a remembered peer or from one that passes the check adds exactly its quantity to the account of the recipient and changes no other; any other notice is dropped |
| TokenEffects.RegisterExactly | scripts/hyper-token.lua:382-397 | a registration changes no account; it is accepted and answered exactly if the peer is new and the ledger is the root, or the peer is its root or passes the check |
| TokenEffects.UnfundedDoesNothing | scripts/hyper-token.lua:557-610 | a transfer that lacks a field or funds does nothing |
| TokenEffects.LocalTransfer | scripts/hyper-token.lua:657-706 | without a route sender and recipient exchange the quantity on the ledger asked, and the recipient gets a notice |
| TokenEffects.RootTransfer | scripts/hyper-token.lua:682-706 | with a route the root moves the quantity to the account of that ledger and sends it a notice for the recipient |
| TokenEffects.Redemption | scripts/hyper-token.lua:708-728 | with the root as its route a sub-ledger takes the quantity from the sender and asks the root for a transfer |
| TokenEffects.PeerTransfer | scripts/hyper-token.lua:730-749 | with another route it takes the quantity from the sender and sends a notice there |
| TokenEffects.DepositArrives | scripts/hyper-token.lua:657-806 | a transfer on the root routed to a sub-ledger, followed by its delivery, leaves the account of the user there and the account of that ledger on the root larger by the quantity, and the sender with as much less |
| TokenEffects.WithdrawalArrives | scripts/hyper-token.lua:657-806 | the way back, while the root holds enough for the ledger |
| TokenEffects.PaymentArrives | scripts/hyper-token.lua:657-806 | from sub-ledger to sub-ledger the accounts of the users change by the quantity and those on the root not at all; without trust the quantity is lost |
| TokenNetwork.PeerRedemptionCanBeLost | scripts/hyper-token.lua:657-806 | one from an uncovered ledger can be lost |
| AvroTags.VintRoundTrip | src/ar_bundles.erl:404-416 | variable-length integers are read back from in front of any bytes |
| AvroTags.TagsRoundTrip | src/ar_bundles.erl:355-395 | the tag block is read back, with any suffix left untouched, if and only if every tag has a name |
| AvroTags.TagListStops | src/ar_bundles.erl:590-612 | an empty name ends the decoded list early |
| DataItems.HeaderRoundTrip | src/ar_bundles.erl:442-462 | the header of an item of signature type 1 to 4 is taken off the front of any data, and all fields are read back; where they lie is stated by the rows of ItemLayout |
| Bundles.BundleHeaderRoundTrip | src/ar_bundles.erl:289-293 | the index of a bundle is read back and the items follow it |
| DataItems.DecodeHeader | src/ar_bundles.erl:442-462 | on arbitrary bytes the data behind a header are shorter than the item, so reading nested bundles ends; which bytes are which field is stated by the rows of ItemLayout |
| ItemLayout.SignatureLayout | src/ar_bundles.erl:555-572 | bytes that are read begin with 1, 2, 3, 4 or 7 and a zero; the signature is b[2..514], b[2..66], b[2..67], b[2..66] or b[2..67], and the owner the next 512, 32, 65, 32 or 42 bytes |
| ItemLayout.UnknownTypeCrashes | src/ar_bundles.erl:555-572 | any other two first bytes are refused, and so are too few bytes for signature and owner |
| ItemLayout.FieldsLayout | src/ar_bundles.erl:442-462 | behind the owner come target, anchor and tags, and then the data |
| ItemLayout.FieldIs | src/ar_bundles.erl:584-587 | target and anchor are a zero byte or a one and 32 bytes; anything else is refused |
| ItemLayout.BundleLayout | src/ar_bundles.erl:536-553 | a bundle begins with the number of items in 32 little-endian bytes; size and ID of item k are the 64 bytes from 32 + 64 * k on |
| ItemLayout.SizeBytes | src/ar_bundles.erl:398-416 | a size is written as twice the number, seven bits a byte, low bits first |
| ItemLayout.ReadNumber | src/ar_bundles.erl:613-629 | a number is read back that way, its lowest bit being the sign |
| ItemLayout.OneTag | src/ar_bundles.erl:361-395 | the block of one tag, byte by byte |
| ItemLayout.TagSectionOf | src/ar_bundles.erl:355-359 | in front of it stand the number of tags and the size of the block, in eight little-endian bytes each |
| ItemLayout.CountsAreIgnored | src/ar_bundles.erl:574-582 | which are looked at for one thing only: whether both are zero |
| ItemLayout.WrittenExactly | src/ar_bundles.erl:121-190 | which items are written: the admissible sizes of fields, tag names and tag values, and the four signature types |
| ItemLayout.ListsAreTagged | src/dev_arweave_common.erl:39-62 | an item is a list, a map or plain by its first tags `bundle-format`, `bundle-version` and `bundle-map` |
| ItemLayout.TagsInFront | src/dev_arweave_common.erl:184-205 | a list gets the two tags in front that it lacks |
| BundleRoundTrip.TreeRoundTrip | src/ar_bundles.erl:236-629 | a sound tree of list bundles is serialized and read back, tagged and with its children numbered in order, if and only if every item in it has tags that say what its data are |
| BundleRoundTrip.PlainRoundTrip | src/ar_bundles.erl:236-629 | every tree without bundle-* tags of its own and with admissible fields is read back, and serialized to the same bytes again |
| BundleRoundTrip.ImpostorIsUnreadable | src/ar_bundles.erl:464-475 | an item of one byte whose tags say that it is a list is written but cannot be read |
| BundleRoundTrip.ImpostorSpoilsList | src/ar_bundles.erl:307-329 | and a list that holds it cannot be written |
| BundleRoundTrip.SerializeAgain | src/dev_arweave_common.erl:139-168 | what was read back is serialized to the same bytes again |
| BundleRoundTrip.PlainTags | src/dev_arweave_common.erl:184-205 | items without bundle-* tags of their own have tags that say what they are |
| OffsetLookup.FromBundle | src/dev_arweave_offset.erl:207-337 | the search ends on arbitrary bytes, and what it finds contains the target |
| OffsetLookup.UnreadIndex | src/dev_arweave_offset.erl:207-254 | what is answered where the chunk at the byte or the index of its data cannot be read |
| OffsetLookup.MemberDecides | src/dev_arweave_offset.erl:229-254 | nothing is found outside the members; a member answers for itself or for what is found in its data, if anything is |
| OffsetLookup.MemberAnswers | src/dev_arweave_offset.erl:255-302 | a member that cannot be read fails the search, one that is plain or begins its data behind the byte is found, and any other is looked into |
| Layouts.DeepestIsInnermost | src/dev_arweave_offset.erl:240-337 | the deepest item in a layout is the innermost of all extents that hold the byte, and there is none exactly if no extent holds it |
| OffsetSearch.SearchFindsDeepest | src/dev_arweave_offset.erl:207-337 | with the right index, the search is right about a bundle if and only if it is right about the member that holds the byte |
| HeaderCuts.CutLeavesNothing | src/ar_bundles.erl:438-462 | of a header that is cut off no bytes are left over as data |
| HeaderCuts.CutDecodes | src/ar_bundles.erl:575-629 | what a header that is cut off decodes to, for every place of the cut: nothing, or an item with the tags in front of the cut |
| StoredTree.BundleExact | src/dev_arweave_offset.erl:207-337 | the search for a byte in a stored bundle yields the deepest item if and only if the index counts and headers on the way to it, and no others, are each in one chunk or cut off without harm |
| StoredTree.IndexReadIff | src/dev_arweave.erl:679-716 | the index of a stored bundle is read if and only if its first 32 bytes are in one chunk |
| StoredTree.CutWithoutClaim | src/dev_arweave_offset.erl:207-337 | where the search goes on at the cut and what it reads there has no member that holds the byte, the cut does no harm if and only if reading does not fail for another reason than missing bytes and the byte comes before the first child |
| StoredTree.CutAtLongIndex | src/dev_arweave.erl:679-716 | so it is if the 32 bytes at the cut make an index longer than the weave: no harm if and only if the missing bytes are answered with not_found and the byte comes before the first child |
| DeepestItem.LookupFindsInnermost | src/dev_arweave_offset.erl:165-337 | looking up a byte of a serialized nested bundle returns start and size of the innermost item that holds it, and nothing only in the top index, if and only if the search reaches it |
| DeepestItem.EntryAt | src/ar_bundles.erl:255-329 | a list has one entry for each item, with the bytes of the item and their ID |
| DeepestItem.ReadableIsFound | src/dev_arweave_offset.erl:165-337 | it does if nothing on the way is cut off by the end of a chunk |
| DeepestItem.AfterCutOf | src/dev_arweave_offset.erl:277-302 | what the search makes of an item whose header is cut off, by which of its tags come before the cut |
| MissedItem.NestedIsMissed | src/dev_arweave_offset.erl:277-302 | in every list that begins with a list, a chunk that ends where the tags of the inner one begin hides what is in it: the enclosing item is found |
| MissedItem.NestIsNesting | src/ar_bundles.erl:236-304 | there are such lists |
| RangeRead.SortIncreasing | src/dev_arweave.erl:555-578 | sorting different chunks orders them strictly |
| RangeRead.GapsFilled | src/dev_arweave.erl:484-525 | fetching at all gaps adds only new chunks of the range and covers more, so filling ends |
| RangeRead.FillGapsExact | src/dev_arweave.erl:484-525 | filling yields the range and the rest of its last chunk, each byte once, and fails exactly if the range is not in the weave |
| RangeRead.VariableExact | src/dev_arweave.erl:445-458 | so does the variable-size path |
| FixedRangeRead.FixedExact | src/dev_arweave.erl:407-444 | the fixed-size path with its single tail fetch does the same when each chunk that begins in the range holds a step or the end |
| FixedRangeRead.FullCovers | src/dev_arweave.erl:407-415 | which is so when every chunk but the last is full |
| FixedRangeRead.FixedReadsIff | src/dev_arweave.erl:370-444 | for other bounds of chunks there are bytes for which the read is wrong |
| FixedRangeRead.ShortChunkIsMissed | src/dev_arweave.erl:370-444 | such a read returns as many bytes as were asked for, without the second one |
| FixedRangeRead.ReadsAreExact | src/dev_arweave.erl:370-403 | a read returns exactly the requested bytes, and fails exactly if they are not in the weave or span the threshold |
| Keccak.ThetaInPlace | native/hb_keccak/hb_keccak.c:55-63 | the loops leave each word with the parities of its neighbour columns added |
| Keccak.RhoPiInPlace | native/hb_keccak/hb_keccak.c:64-70 | the 24-step walk with one word in hand moves and rotates every word but the first exactly once |
| Keccak.ChiInPlace | native/hb_keccak/hb_keccak.c:71-77 | each row is replaced from a copy of itself |
| KeccakTables.ConstantBits | native/hb_keccak/hb_keccak.c:25-31 | the table of round constants holds what the shift register of section 3.2.5 of FIPS 202 generates |
| KeccakTables.WalkIsSource | native/hb_keccak/hb_keccak.c:20-24 | the table of positions is the walk of section 3.2.2 |
| KeccakTables.RhoIsRotation | native/hb_keccak/hb_keccak.c:16-19 | the table of rotations is that of section 3.2.2 |
| KeccakRefinement.ThetaRefines | native/hb_keccak/hb_keccak.c:55-63 | theta is section 3.2.1 |
| KeccakRefinement.RhoPiRefines | native/hb_keccak/hb_keccak.c:64-70 | the walk is sections 3.2.2 and 3.2.3 |
| KeccakRefinement.ChiRefines | native/hb_keccak/hb_keccak.c:71-77 | chi is section 3.2.4 |
| KeccakRefinement.RoundRefines | native/hb_keccak/hb_keccak.c:53-80 | a round is a round of section 3.3 |
| KeccakRefinement.KeccakInPlace | native/hb_keccak/hb_keccak.c:47-81 | the permutation in place is Keccak-f of section 3.4 |
| Sponge.AbsorbRefines | native/hb_keccak/hb_keccak.c:105-131 | the three XORs of the last block are the suffix and the pad10*1 of section 5.1, and the code absorbs what section 4 absorbs, for every input length and rate |
| Sponge.SqueezeRefines | native/hb_keccak/hb_keccak.c:132-135 | the code emits what section 4 squeezes, for every output length |
| Sponge.SqueezeExtends | native/hb_keccak/hb_keccak.c:132-135 | asking for more output only appends to it |
| KeccakHash.Hash | native/hb_keccak/hb_keccak.c:113-138 | the error codes, and otherwise the sponge of the input and the suffix that the delimiter encodes; nothing behind the output is written |
| KeccakHash.Shake | native/hb_keccak/hb_keccak.c:141-159 | shake128 and shake256 are SHAKE of section 6.2 |
| KeccakHash.FixedLength | native/hb_keccak/hb_keccak.c:148-173 | outputs longer than the digest are refused; otherwise KECCAK[2 * bits] of the input and its suffix, of the requested length |
| KeccakHash.Sha3 | native/hb_keccak/hb_keccak.c:155-166 | sha3_224 to sha3_512 write the front of SHA3 of section 6.1 |
| KeccakHash.OriginalKeccak | native/hb_keccak/hb_keccak.c:168-173 | keccak_224 to keccak_512 write the front of KECCAK[c] of section 5.2 without a suffix |
| DeepHash.DeepHashInjective | src/ar_deep_hash.erl:4-22 | two nested lists with equal deep hash are equal, or two of the strings hashed for them collide |
| DeepHash.HashListIsLast | src/ar_deep_hash.erl:15-20 | the fold from the front is the hash of the last accumulated pair |
| DeepHash.HashOfBlob | src/ar_deep_hash.erl:8-10 | a blob hashes the hash of "blob" with its size and the hash of itself |
| DeepHash.HashOfLists | src/ar_deep_hash.erl:11-20 | the empty list hashes "list0"; a list of two adds its items one by one to the hash of "list2" |
| DeepHash.DecimalDigits | src/ar_deep_hash.erl:8-13 | sizes are written as their decimal digits without a zero in front |
| WalletPool.Pool.Turn | src/ar_wallet.erl:74-91 | a turn starts the missing generators and handles the message as specified |
| WalletPool.RunPairs | src/ar_wallet.erl:74-106 | in every run the k-th request gets the k-th wallet and no other; wallets and waiters are never both there; wallets and generators together are six more than the waiters |
| FlatCodec.OrderMattersExactly | src/dev_codec_flat.erl:17-46 | a flat map is read with the same result in every order if and only if a key is a single slash, and it fails, or no key leads through another one and keys on one path have one value |
| FlatCodec.EmptyKeyIsFiled | src/hb_path.erl:246-272 | a value under the empty key is filed under the atom `undefined` |
| FlatCodec.PathOfTwo | src/hb_path.erl:246-272 | two names with byte 47 between them are the path of these names, and the other way round |
| FlatCodec.NestedRoundTrip | src/dev_codec_flat.erl:17-77 | flattening and reading back gives the same message if and only if every key is a name without slashes and no map inside is empty |
| FlatCodec.FlatRoundTrip | src/dev_codec_flat.erl:17-77 | reading a flat map and flattening again gives the same map if and only if its keys are names joined by single slashes and none leads through another one |
| FlatCodec.SetSucceeds | src/hb_util.erl:332-347 | setting a binary at a path fails exactly if there is a binary above |
| FlatCodec.SetLookup | src/hb_util.erl:332-347 | it replaces the path with all above and below it, and nothing else |
| FlatCodec.OrderMatters | src/dev_codec_flat.erl:17-46 | two keys and two orders: one fails, the other loses an entry |

## Left out

- HTTP, gateways, stores, caches, metrics and logs; the weave is a fixed byte string and workers report any result of the right kind.
- Crash recovery, stopping and inspecting the bundler, and release calls that fail: they are only logged (`src/dev_bundler.erl:593-603`).
- Signatures, `assess` messages, authority and scheduler lists, deduplication and `from-base` checks: a delivered message is one that was accepted, and it is delivered at most once.
- The workers of the bundler are numbered and its three parallel lists of a bundle are one list of entries.
- The quantity of `charge` is a whole number; the original subtracts whatever Lua can convert to a number.
- The growing delay before a failed task is retried: its timer may fire at any time.
- Map bundles, manifests, bare binaries inside bundles and typed_ethereum serialization; reading a map bundle fails in the model.
- Tag names are byte strings here; the original also refuses names that are not UTF-8.
- The unsigned and signed ID of an item are one function of its bytes.
- Tag counts of 2^64 and sizes of 2^256 and more.
- The reuse of the first chunk in the search by offset: it is the chunk that would be fetched.
- `get_chunk_range_relative`, which reads pending transactions.
- The order in which concurrent chunk fetches arrive: results are collected in the order of the offsets.
- A rate of zero, for which the C loop does not end, and sizes beyond the address space.
- Flat messages with lists or links, atoms as values, and list, integer or device keys.
- Keys, addresses and signatures of `ar_wallet`, and the timeout of a waiting client, whose wallet is still sent.
- OffsetLookup.FromBundle: says where the result lies; which item it is needs the stored bytes and is stated by DeepestItem.LookupFindsInnermost.
- DeepestItem.LookupFindsInnermost: where a header that is cut off already shows both bundle tags, and the bytes at the cut read as an index with a member that holds the byte, its condition is what the search in that member finds, because the index is made of arbitrary bytes of the items. StoredTree.CutWithoutClaim gives the condition for all other bytes.
- OffsetLookup.BundleHeader: the range read that fetches the rest of an index longer than its first chunk is taken to be exact there. It is wrong where FixedRangeRead.FixedReadsIff says so, and fails where the index spans the threshold of the strict data split.
