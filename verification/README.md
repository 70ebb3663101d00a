# NeoNet: models and proofs

NeoNet is a small identity-addressed mesh. This project models the parts of it that keep state over long runs,
and proves what they keep. `dafny verify dfyconfig.toml` checks everything.

| file | what it models |
|---|---|
| `Packing.dfy`, `Revocation.dfy`, `BlobStore.dfy`, `StoreHistory.dfy`, `StoreFrames.dfy` | encrypted storage: batches and pages, the revocation file, the core's blob directories and their whole history, and the size of every frame |
| `StoreClient.dfy`, `StoreRuns.dfy`, `StoreRoundTrip.dfy`, `Repush.dfy` | its client: what a push leaves, what a pull can return, push then pull, and pushing again |
| `Manifests.dfy`, `Files.dfy`, `Receiver.dfy`, `TransferRuns.dfy`, `TransferHistory.dfy` | resumable file transfer: manifests, the receiver's disk at every write, crashes, and whole histories |
| `TransferFrames.dfy`, `Retransmission.dfy` | its sender: frame sizes, the announcement, and the resend loop |
| `Framing.dfy`, `Wire.dfy`, `FrameBytes.dfy`, `Postcard.dfy`, `Protocol.dfy`, `Handshake.dfy` | frames on a byte stream, size limits, signed payloads, negotiation, and the mutual handshake |
| `Paths.dfy`, `Drive.dfy`, `DriveLaws.dfy`, `Vfs.dfy` | the virtual drive against a flat map from paths to entries, and what its commands do to it |
| `Routing.dfy`, `Router.dfy`, `RouterRuns.dfy`, `InboxRuns.dfy`, `StarMesh.dfy` | the message router, its whole runs, and a core with its edges |
| `Rendezvous.dfy`, `Pairing.dfy`, `Replication.dfy`, `ChatLog.dfy` | endpoint records, pairing tokens, replica reconciliation, and log files |
| `Base.dfy`, `Sorting.dfy` | shared types, machine integers, stable sorting |

Objects that the program updates in place are classes, and its loops are loops; each method is proved against a
function on plain values, and the properties are lemmas about those functions and about all runs built from them.
Lemmas switch Dafny's automatic induction off, so each proof is the one written down; `hide` statements keep
definitions a proof does not need out of it.

## Assumptions

- BLAKE3 is an injective function where a claim rests on content addressing (a parameter, `Injective(hash)`); claims
  that do not need this are proved for every function. Fingerprints are injective in the same sense.
- Signatures are symbolic and unforgeable: a signature under an honest key exists only if an honest session made it.
  The keys sign handshake payloads only. Nonces are new when drawn. A manifest's signature check is a recorded fact.
- A transfer id and a file id stand for one manifest each, because the client uses the manifest's hash. The receiver
  itself stores whatever manifest arrives under the id a frame names (`src/app/files.rs:71-80`).
- Chunks are encrypted before they reach the model; ciphertexts are opaque bytes.
- A call whose request or reply is dropped for its size waits for ever; the model returns `NoReply` for it. Error
  replies are a few words and always arrive.
- Channels are open or closed buffers; a send to a full open channel is a send that is taken later. Time is an input.
- Everything random or unordered (directory order, map order, relay order, short reads, arrivals, crashes) is an
  arbitrary choice, so the claims hold for every choice.

## Where code and documentation differ

The model follows the code.

- `src/app/storage.rs:263-265` says the batch cap keeps store frames under the transport limit "no matter how large the
  file being stored is". Every frame also carries the whole manifest, and a chunk over the cap still goes out alone.
  A file of 8190 default chunks, about 6 GiB, is refused at its first batch (`StoreRoundTrip.LargePushFails`), as is
  any chunk too large beside the manifest (`StoreRoundTrip.OversizedPushFails`). `StoreRoundTrip.PushThenPull` is the
  exact condition, `StoreFrames.SmallFilesFit` one that can be checked beforehand, and `StoreClient.PushChunks` says
  what such a push leaves behind.
- `src/app/storage.rs:325-327` promises every chunk, "paging so no single reply can exceed the messaging cap", or an
  error. The reply carries the manifest too; one that is too large is dropped and the client waits for ever. A batch
  can be stored that can never be fetched (`StoreRoundTrip.StoredNeverFetched`), exactly when its frame is as large as
  a frame may be (`StoreFrames.StoredButUnanswerable`).
- `src/app/storage.rs:269-270` calls a re-push safe because the store is content-addressed. `Repush.RepushSafeIff` is
  the exact condition; between pushes of one manifest it comes to every leftover being a blob of the same ciphertexts
  (`Repush.SameFileRepushSafeIff`). `src/main.rs:1366-1376` encrypts again, with
  new nonces, on every run. A pull may then report success for a wrong list of chunks, which also breaks the promise
  of `src/app/storage.rs:325-327` (`Repush.RepushReturnsWrongList`).
- A push of an empty file makes no call and reports success; nothing is stored, and its pull is denied
  (`StoreRoundTrip.PushThenPull`).
- `src/app/files.rs:266-270` promises to poll until the transfer completes or the time is up. The state that would
  report completion can be too large to be sent, and then the poll waits for ever. `TransferFrames.AllStatusesArriveIff`
  and `TransferFrames.StatusFitsIff` are the exact condition on the manifest; no file of 30424 chunks or more meets it
  (`Retransmission.LargeTransferNeverReported`), although up to 32749 can be announced.
- `src/files/mod.rs:405-407` promises the file "the moment the set completes". A crash between saving the state and
  rebuilding is permanent, since later arrivals take the early return: `TransferRuns.CrashedForEver` is such a run, for
  every nonempty file. `TransferRuns.ReportTrustedIff` says exactly when a complete report can be relied on.
- The handshake authenticates the remote key and proves that the remote holds this side's exact hello. It does not
  cover the version, features and session id the remote is taken to have sent (`Handshake.ForgedHelloRun`);
  `Handshake.MutualAgreement` says when both ends agree.
- An unpinned session that is brought back everything it sends completes with its own identity as remote
  (`Handshake.ReflectionRun`); nothing in the handshake compares the remote key with the own one.
- The router accepts a message that is exactly as large as the limit; the link writer then drops it silently
  (`RouterRuns.HandedButNotWritten`).
- Resolving p then q is not resolving p + "/" + q for the empty p below the root (`Paths.ResolveComposes`).
- A carriage return in a log sender does no harm; only tabs and newlines do (`ChatLog.LogRoundTrip`).
- `src/app/storage.rs:233-235` says the revocation check fails closed if the set cannot be read. A file that cannot be
  read or decoded is taken for an empty set, and the next revocation then overwrites it (`Revocation.RevocationsLost`).
  `Revocation.RefusedIff` says exactly when a revoked identity is refused.

## Model

| member | source | states |
|---|---|---|
| Packing.EncodeInjective | src/storage/mod.rs:15-20 | The serialized form of an encrypted chunk (varint index, 24-byte nonce, length-prefixed ciphertext) determines the chunk. |
| Packing.Batch | src/app/storage.rs:287-296 | The batching loop: the batches concatenate to the input, none is empty, each is within the cap or a single chunk, and none had room for the first chunk of the next. |
| Packing.GreedyUnique | src/app/storage.rs:287-296 | A list of chunks has exactly one such packing, so batches of a push and pages of a pull can be compared. |
| Packing.GreedyOptimal | src/app/storage.rs:287-296 | No order-preserving partition into groups within the cap (or single chunks) has fewer groups than the greedy one; used for batches and for pages. |
| Packing.Page | src/app/storage.rs:202-211 | The paging loop: the longest prefix of what is left that fits the budget, at least one chunk, an oversized chunk alone. |
| Packing.PageIsShort | src/app/storage.rs:363-364 | A page has far fewer than 2^32 chunks, so truncating its length to 32 bits is harmless. |
| BlobStore.PutAllContents | src/app/storage.rs:138-144 | Storing chunks adds exactly those chunks to the directory; no stored blob is lost or overwritten and every blob keeps its content address. |
| BlobStore.Core.RevokeIdentity | src/app/storage.rs:248-257 | Adds the identity to the set that can be read and rewrites the file from it. |
| Revocation.RefusedIff | src/app/storage.rs:233-246 | The exact condition for a revoked identity to be refused, over every history of revocations, damage and recovery of the file: it can be read now, and since some revocation of the identity no revocation was made while it could not. |
| Revocation.LegibleIff | src/app/storage.rs:240-246 | The file can be read unless the last thing that happened to it was damage. |
| Revocation.RevocationsLost | src/app/storage.rs:233-257 | Failing input: while the file cannot be read nobody is refused, and one more revocation made then voids the earlier one for good. |
| BlobStore.Core.StoreChunks | src/app/storage.rs:114-156 | Refused exactly for a bad manifest signature or a revoked requester, then nothing changes; otherwise the requester joins the readers there were, the manifest is the one given, the chunks join the blobs under the hash of their serialized form, and no other file changes. |
| StoreHistory.ReaderIff | src/app/storage.rs:146-154 | Over every history of requests, revocations and damage to the revocation file: an identity is a reader of a file if and only if one of its own store requests for that file was accepted. |
| StoreHistory.ManifestIsLast | src/app/storage.rs:146-151 | The manifest of a file is that of the last accepted request for it. |
| StoreHistory.ContentsAreStored | src/app/storage.rs:138-144 | A file is there if and only if some request for it was accepted, and it holds exactly the chunks of all accepted requests. |
| StoreHistory.Serve | src/app/storage.rs:114-156 | A store request is one step of that history. |
| BlobStore.Core.ReadBlobs | src/app/storage.rs:185-197 | Reading the directory yields every blob exactly once, in an arbitrary order. |
| BlobStore.Core.FetchChunks | src/app/storage.rs:158-213 | Refused exactly to revoked requesters and non-readers; otherwise a page, from the offset on, of some order of the directory sorted by index. |
| BlobStore.FetchedPage | src/app/storage.rs:185-211 | Whatever the directory order, a page holds stored chunks only, never runs past the end, makes progress before it, and continues the one strictly sorted list when indices are distinct. |
| StoreClient.PushChunks | src/app/storage.rs:271-323 | Every outcome, batch by batch: all batches accepted leave the directory as a single store of all chunks would; the first batch whose frame is over the size limit ends the push with exactly the batches before it stored; a push the core denies stores nothing; an empty push does nothing. |
| StoreClient.PushAnswers | src/app/storage.rs:298-321 | What the client is told, case by case: oversized first batch, unsigned manifest, revoked client, and exactly when a push succeeds. |
| StoreClient.PullChunks | src/app/storage.rs:328-396 | The pull loop: an error for the revoked and for non-readers; for a reader some run of fetches, each asked for where the pages before it ended and only while chunks are missing, ending with the verdict, with a refused request, or with a reply too large to arrive. It terminates. |
| StoreRuns.FetchRunCollects | src/app/storage.rs:333-377 | Over any number of fetches, each re-reading the directory in its own order, a pull collects stored chunks only; with distinct indices the pages are greedy and concatenate to a prefix of the one sorted list. |
| StoreRuns.PagesAreBatches | src/app/storage.rs:202-211 | The pages of a pull are the batches a push of the same list makes: a prefix of the one greedy packing. |
| StoreRuns.FetchedIsBatch | src/app/storage.rs:185-211 | Whatever order the directory is read in, and whatever blobs follow the file, a fetch at the end of some greedy batches returns exactly the next one, if the last batch has no room for a follower. |
| StoreRuns.PullIsSound | src/app/storage.rs:378-395 | Any directory, any order of reading it: a success holds stored chunks only, sorted by index, as many as the manifest counts; a pull never fails any other way than for size or for an incomplete count. |
| StoreRuns.PullOutcome | src/app/storage.rs:328-396 | When a manifest counts the leading blobs, of distinct indices, and the last batch has no room for a follower: every pull returns exactly them if and only if every greedy batch can be sent back; nothing else is ever a success; and if the batches could be sent out, the only failure is that the client waits for ever. |
| Wire.TransitBounds | src/messaging.rs:49-59 | The three size checks on a payload, to the byte: delivered, refused to the sender, or dropped by the link writer without telling anyone. |
| FrameBytes.StorageFrameLengths | src/app/storage.rs:17-42 | The storage frames written out byte by byte are as long as the size rules say. |
| FrameBytes.TransferFrameLengths | src/app/files.rs:18-52 | The transfer frames written out byte by byte are as long as the size rules say. |
| FrameBytes.MessageLengths | src/messaging.rs:24-64 | Messages and link frames written out byte by byte are as long as the size rules say. |
| StoreFrames.SmallFilesFit | src/app/storage.rs:263-265 | What a caller can check beforehand: no chunk above the batch cap and a manifest and file id that fit beside it make every batch storable and every page returnable. |
| StoreFrames.StoredButUnanswerable | src/app/storage.rs:68-83 | A batch is accepted but can never be fetched exactly when its frame is as large as a frame may be: the reply is one byte longer. |
| StoreRoundTrip.StoredNeverFetched | src/app/storage.rs:68-83 | Failing input, built for any small file id and one-chunk manifest: the push succeeds and no pull is ever answered. |
| StoreRoundTrip.OversizedPushFails | src/app/storage.rs:263-308 | Failing input: a chunk whose ciphertext and the digests of the manifest exceed the frame limit together; the push errors. |
| StoreRoundTrip.LargePushFails | src/app/storage.rs:263-308 | Failing input: a file of at least 8190 chunks whose first has the default 768 KiB, about 6 GiB, is refused at its first batch and stores nothing. |
| StoreRoundTrip.InterruptedPushLeavesOwnChunks | src/app/storage.rs:267-270 | From any directory that holds only chunks of the file, a push cut off after any number of blobs leaves only chunks of the file: interruptions compose. |
| StoreRoundTrip.PushedRepresents | src/app/storage.rs:138-144 | A full push leaves exactly one blob per index, in file order, if and only if everything left over was a blob of the same ciphertexts. |
| StoreRoundTrip.PushThenPull | src/app/storage.rs:271-396 | End to end: the exact outcome of push then pull by an unrevoked client, over any interrupted pushes of the same ciphertexts: the pushed chunks, in order and in the fewest possible pages, if and only if every greedy batch can be sent back; else what the sender is told of the first batch that cannot be sent out; else no reply. No other file is touched. An empty file is never stored. |
| Repush.RepresentableIffOneBlobPerIndex | src/app/storage.rs:198-211 | A store has a strictly sorted listing exactly when no two blobs share an index. |
| Repush.RepushSafeIff | src/app/storage.rs:267-270 | The exact condition of a safe push over leftovers of any kind: every pull returns the chunks just pushed if and only if leftovers under indices of the file are blobs of these same ciphertexts, the last batch has no room for a leftover that may follow it, and every greedy batch can be sent back. |
| Repush.SameFileRepushSafeIff | src/app/storage.rs:267-270 | The same for leftovers with indices of the file only, as the command line makes them: all must be blobs of the same ciphertexts. |
| Repush.RepushReturnsWrongList | src/app/storage.rs:325-327 | Failing input: an ordinary two-chunk file encrypted and pushed twice; a pull may report success with chunk 0 twice and chunk 1 missing. |
| Files.ReadSome | src/files/mod.rs:83-88 | A read returns a nonempty prefix of what is left, of any length up to the buffer, and nothing exactly at the end. |
| Files.BuildManifest | src/files/mod.rs:68-113 | With short reads anywhere: chunks concatenate to the content, carry their position and their hash, are nonempty and within the chunk size, and the recorded size is the content length; failure only for a bad chunk size or too many chunks. |
| Files.VerifiedIsOriginal | src/files/mod.rs:115-124 | A chunk verifies against a manifest if and only if it is one of the chunks the manifest was built from. |
| Files.MissingIsComplement | src/files/mod.rs:208-222 | `missing()` lists, once each, exactly the indices of the manifest that are not recorded. |
| Files.CompleteIffNothingMissing | src/files/mod.rs:208-225 | Pigeonhole: for distinct in-range records the length test of `complete()` holds exactly when nothing is missing, and recorded plus missing is the chunk count. |
| Receiver.RebuildNext | src/files/mod.rs:448-457 | One turn of the rebuilding loop: stop on an absent or wrong chunk file, else append it. |
| Receiver.RebuildFailsAt | src/files/mod.rs:448-457 | Rebuilding fails at the first chunk file that is absent or does not hash to its entry, and says which. |
| Receiver.EveryCrashPointValid | src/files/mod.rs:408-435 | After every single disk write of `receive_chunk` the disk is valid: chunk files hash to their manifest entries, records are distinct, in range and backed by a chunk file. Holds for any hash function. |
| Receiver.Received | src/files/mod.rs:408-435 | A finished `receive_chunk` leaves a valid disk with the same manifest. |
| Receiver.TransferReceiver.Announce | src/app/files.rs:71-111 | Accepted exactly when the manifest is signed and not empty, each failure under its own error and without a trace; otherwise records it under the named id and answers with what the saved state, or a new one, is missing. The disk stays valid unless another manifest was recorded under that id. |
| TransferHistory.OnlySignedManifests | src/files/mod.rs:276-284 | Over every history of announcements of any manifests, arrivals and crashes: a recorded manifest is signed, not empty, and the last such announced; until one is, nothing at all is on the disk. |
| TransferHistory.AnnounceTo | src/app/files.rs:71-111 | An announcement is one step of that history. |
| Receiver.TransferReceiver.Status | src/app/files.rs:180-201 | The saved state, or an error while there is none. |
| Receiver.TransferReceiver.ReceiveChunk | src/files/mod.rs:408-435 | Every outcome and every intermediate disk state of `receive_chunk`, written with its loop. |
| Receiver.TransferReceiver.Rebuild | src/files/mod.rs:439-466 | The rebuilding loop over sorted indices: outcome, every intermediate disk state, and the size check at the end. |
| TransferRuns.CompleteSorts | src/files/mod.rs:445-446 | The sorted records of a complete transfer count 0, 1, 2 and so on through the file. |
| TransferRuns.RebuildFrom | src/files/mod.rs:448-464 | Rebuilding from original chunk files yields the content and passes the size check. |
| TransferRuns.NewChunkCompletes | src/files/mod.rs:426-464 | The last missing chunk leaves the content as output and is reported complete, unless the recorded size is not its size, which is reported as such. |
| TransferRuns.ReceiveStep | src/files/mod.rs:408-435 | One arrival at an up-to-date receiver: records grow by exactly an original chunk, the report is complete iff all are recorded, and completing builds the content. |
| TransferRuns.RunRecords | src/files/mod.rs:420-427 | After any arrivals the recorded chunks are exactly the original chunks among them. |
| TransferRuns.TransferRoundTrip | src/files/mod.rs:408-466 | For every nonempty file and any sequence of arrivals, repeated, reordered or damaged: an arrival is reported complete exactly when it is a chunk of the file and all chunks have arrived; the output then equals the content; only foreign chunks fail, and the size check never does. |
| TransferRuns.CrashRunInvariant | src/files/mod.rs:190-226 | In every run with crashes after any disk write: records distinct, in range, each with a matching chunk file; missing is their complement; complete iff nothing is missing. |
| TransferRuns.CompleteIsNeverRebuilt | src/files/mod.rs:420-434 | Once the saved state is complete no later arrival changes the output, yet each authentic one is reported complete. |
| TransferRuns.CrashBeforeRebuild | src/files/mod.rs:426-433 | A crash right after the last state is saved leaves a complete state and the old output. |
| TransferRuns.NoOutputBeforeComplete | src/files/mod.rs:426-433 | Without crashes there is no output file until every chunk has arrived. |
| TransferRuns.CrashedForEver | src/files/mod.rs:405-435 | Failing run, for every nonempty file: all chunks but one arrive, the receiver crashes right after saving the state the last one completes; from then on, whatever arrives, every chunk is reported complete and there is no output file. |
| TransferRuns.CompleteReportTrusted | src/files/mod.rs:420-434 | On any valid disk a complete report means the output equals the content if and only if the arriving chunk was not recorded before or the output was already right. |
| TransferRuns.NoOutputWhileIncomplete | src/files/mod.rs:426-433 | In any run, with crashes after any write, there is no output file before the set is complete. |
| TransferRuns.CompletedOutputIff | src/files/mod.rs:405-435 | In any complete run, crashes included, the output equals the content if and only if the event that completed the set ran to its end, whatever happened since. |
| TransferRuns.ReportTrustedIff | src/files/mod.rs:420-434 | So, on every run, a complete report means the content is on disk if and only if the event that completed the set, an earlier one or this arrival, ran to its end. |
| TransferRuns.CompletedOnce | src/files/mod.rs:420-427 | Only one event of a run completes the set. |
| Retransmission.ResendsExactlyMissing | src/app/files.rs:307-317 | A round streams exactly the missing indices, once each, in file order. |
| Retransmission.RoundProgress | src/app/files.rs:286-319 | Under any loss, duplication, reordering or damage the missing set never grows in a round, and shrinks when one missing chunk gets through. |
| Retransmission.ProductiveRoundsSuffice | src/app/files.rs:286-319 | As many productive rounds as there are missing chunks complete the transfer. |
| Retransmission.Stream | src/app/files.rs:308-317 | The streaming loop sends the wanted chunks and no others. |
| Retransmission.PollAndResend | src/app/files.rs:284-319 | The poll loop: an error while the receiver has no saved state, no reply once that state is too large to send; otherwise it ends complete or at the deadline with the receiver's own state, having streamed in each round exactly what was then missing. |
| Retransmission.SendFile | src/app/files.rs:216-264 | Announce and first streaming: refused for the size of the announcement or by the receiver, and then nothing changes; otherwise exactly what the answer lists as missing is streamed, or everything if it lists nothing. |
| Retransmission.SendFileAndWait | src/app/files.rs:271-320 | The whole transfer from announcement to last poll, with every outcome. If the state of the finished transfer could be sent back every poll is answered, else completion is never reported; with a productive round for each missing chunk the outcome is completion in the first case and no reply in the second. |
| Retransmission.LargeTransferNeverReported | src/app/files.rs:286-305 | Failing input: from 30424 chunks on, about 22 GiB, the poll that would report a finished transfer gets no reply. |
| TransferFrames.FullIsLargest | src/app/files.rs:180-201 | A status reply is never larger than that of the finished transfer, and as large once the transfer is complete, in whatever order chunks came in. |
| TransferFrames.AllStatusesArriveIff | src/app/files.rs:180-201 | Every status reply of a transfer arrives if and only if the one of the finished transfer does: a condition on the manifest alone. |
| TransferFrames.StatusFitsIff | src/app/files.rs:180-201 | That condition in numbers, for files of 16384 chunks and more. |
| TransferFrames.AnnouncedNeverReported | src/app/files.rs:216-232 | Failing input: a manifest of 30424 to 32749 chunks under any file name of up to 255 bytes can be announced, and its finished transfer cannot be reported. |
| Framing.BigEndianReads | src/transport/mod.rs:20-26 | The 4-byte length prefix reads back as the length, for every 32-bit length. |
| Framing.BigEndianWrites | src/transport/mod.rs:20-26 | Every 4-byte prefix is the prefix of the length it reads as. |
| Framing.BigEndianAppends | src/transport/mod.rs:20-26 | The most significant byte of the prefix comes first. |
| Framing.FrameReadsBack | src/transport/mod.rs:13-36 | A frame in front of any bytes reads back as its payload and leaves those bytes. |
| Framing.ReadWasWritten | src/transport/mod.rs:13-36 | Whatever reads as a frame within the limit is the written form of that payload. |
| Framing.ReadFails | src/transport/mod.rs:25-36 | Which failure a read reports, and what it has used up, in each of the three cases. |
| Framing.LinkFrameReadsBack | src/transport/mod.rs:11-36 | Every frame a link writer lets through fits the frame limit and reads back. |
| Framing.StreamRoundTrip | src/transport/mod.rs:13-36 | A stream reads as a sequence of payloads, to its last byte, if and only if it is what writing that sequence produced. |
| Framing.UniquelyDecodable | src/transport/mod.rs:13-36 | Different payload sequences never share a stream. |
| Framing.Pipe.WriteFrame | src/transport/mod.rs:13-23 | Appends one frame, or refuses an oversized payload and appends nothing. |
| Framing.Pipe.ReadExact | src/transport/mod.rs:33-35 | Fills the buffer in place with the next bytes, or fails having used up what there was. |
| Framing.Pipe.ReadFrame | src/transport/mod.rs:25-36 | Outcome and remaining bytes for every stream: end of stream, oversized length, or one payload. |
| Framing.Pipe.WriteAll | src/transport/mod.rs:13-23 | Writing payloads in sequence puts exactly their frames on the stream. |
| Framing.Pipe.ReadAll | src/transport/mod.rs:25-36 | Reading to the end of a stream of written frames yields exactly the payloads and uses every byte. |
| Postcard.VarintSplits | src/protocol/mod.rs:143-149 | Variable-length integers are self-delimiting. |
| Postcard.VarintReads | src/protocol/mod.rs:143-149 | A variable-length integer stands for the number it encodes, seven bits a byte from the least significant. |
| Postcard.BlockListSplits | src/protocol/mod.rs:143-149 | Length-prefixed lists of strings are self-delimiting. |
| Protocol.EncodeHelloInjective | src/protocol/mod.rs:16-22 | The serialized hello determines version, features, key and session. |
| Protocol.PayloadSplits | src/protocol/mod.rs:143-149 | A signed payload splits into one hello and one nonce only. |
| Protocol.SortFeatures | src/protocol/mod.rs:86 | Sorting the kept features gives an ordered permutation of them. |
| Protocol.NegotiateProtocol | src/protocol/mod.rs:68-94 | Fails exactly on different majors, naming both; otherwise the common major, the smaller minor, and in byte order exactly the features both sides list, as often as this side does. |
| Protocol.NegotiatedVersion | src/protocol/mod.rs:68-94 | The negotiated version is the older of the two, and a version negotiated with itself is itself. |
| Protocol.AtMostIff | src/protocol/mod.rs:86 | The order of features is decided at the first differing byte, a prefix first. |
| Protocol.NegotiationAgrees | src/protocol/mod.rs:68-94 | Both ends negotiate the same protocol if and only if each shared feature is listed equally often by both; duplicate-free lists always agree. |
| Handshake.GetChallengePreserves | src/transport/mod.rs:95-103 | Signing a received challenge keeps the protocol invariant. |
| Handshake.AnswerFound | src/transport/mod.rs:105-114 | A signature that verifies under an honest key was made by that key over this session's own hello and challenge, after the challenge was drawn. |
| Handshake.RunInvariant | src/transport/mod.rs:72-137 | The protocol invariant holds in every run against an environment that controls the network. |
| Handshake.InjectiveAgreement | src/transport/mod.rs:72-137 | A session that completes with an honest remote identity was answered by a session of that identity that signed exactly its hello and challenge after the challenge was drawn; one signing answers one session, and each session signs at most once. Unless the remote identity is its own, the answering session is another one; a session answers itself only when it was brought its own hello and challenge. |
| Handshake.ReflectionRun | src/transport/mod.rs:72-137 | Failing run: an unpinned session that is brought back all it sends completes with its own identity as remote. |
| Handshake.RemoteHelloWasBrought | src/transport/mod.rs:72-137 | The remote hello a session holds is the one the network brought it in that session's own hello event, whoever wrote it. |
| Handshake.MutualAgreement | src/transport/mod.rs:72-137 | The answering session holds the completed session's exact hello, and has the remote key; if each answered the other, both hold the other's exact hello and challenge, and they negotiated the same protocol exactly when shared features are listed equally often. |
| Handshake.ForgedHelloRun | src/transport/mod.rs:72-137 | Failing run: any hello under the remote's own key, whatever its features, minor version and session id, can take the place of the remote's, and the session completes and negotiates by it. |
| Handshake.PinIsRespected | src/transport/mod.rs:116-123 | A pinned session never completes with another key. |
| Handshake.CompletedVersion | src/transport/mod.rs:125-137 | In every run a completed session negotiated its own major and no newer minor than its own or the brought hello names; brought version 1.0 it negotiated 1.0. |
| Handshake.CompletesIff | src/transport/mod.rs:105-137 | The last message completes a session if and only if it is the remote key's signature over this session's own hello and challenge, a pin names that key, and the majors agree. |
| Handshake.FaithfulRunCompletes | src/transport/mod.rs:72-137 | Over a network that just carries the messages both ends complete, each with the other's hello. |
| Paths.SplitPath | src/shell.rs:298-315 | The resolution loop, equal to the path function; canonical from a canonical working directory. |
| Paths.StepsResolve | src/shell.rs:302-313 | After any path from anywhere: a name goes down, `..` goes up and stays at the root, `.` and nothing stay. |
| Paths.PiecesResolve | src/shell.rs:302-313 | The same for single pieces from the working directory. |
| Paths.AbsoluteResolves | src/shell.rs:299-303 | An absolute path resolves from the root, wherever one is. |
| Paths.PrintSnoc | src/shell.rs:245-251 | The printed form has one slash before every part. |
| Paths.ResolveIsCanonical | src/shell.rs:298-315 | Results contain no empty part, `.`, `..` or slash. |
| Paths.ResolveComposes | src/shell.rs:298-315 | Resolving p and then every relative q equals resolving p + "/" + q if and only if p is nonempty or the working directory is the root. |
| Paths.PrintResolves | src/shell.rs:245-251 | Printing canonical parts and resolving the text, from anywhere, gives them back. |
| Drive.PutEntry | src/shell.rs:253-295 | Replacing a child shows at and below its path; every other path keeps its entry. |
| Drive.PrefixesAreDirectories | src/shell.rs:253-263 | Proper prefixes of existing paths are directories: the flat map is prefix-closed. |
| Drive.FlatDeterminesTree | src/shell.rs:183-196 | Trees with the same flat map are equal: the flat view loses nothing. |
| DriveLaws.MkdirLaw | src/shell.rs:354-367 | `mkdir` path by path: which error when, else one more directory and nothing else changed. |
| DriveLaws.RmdirLaw | src/shell.rs:369-385 | `rmdir` path by path: which error when, else exactly that directory gone. |
| DriveLaws.RmLaw | src/shell.rs:387-400 | `rm` path by path: which error when, else exactly that entry gone. |
| DriveLaws.TouchLaw | src/shell.rs:402-418 | `touch` path by path: which error when, else the path exists and only a new one is changed. |
| DriveLaws.CatLaw | src/shell.rs:420-427 | `cat` reads the text of a file and names the other cases. |
| DriveLaws.AppendLineLaw | src/shell.rs:436-440 | The old text stays in front and the new text is the last line, on a line of its own. |
| DriveLaws.WriteLaw | src/shell.rs:430-442 | What `write` put is read back after what was there, and nothing else changes. |
| DriveLaws.FreshFileLaw | src/shell.rs:402-442 | A new file written once holds the text and a newline; made and removed it leaves no trace. |
| DriveLaws.CopyLaw | src/shell.rs:444-447 | The destination reads as the source text appended, and the source stays. |
| DriveLaws.MoveLaw | src/shell.rs:449-454 | As a copy, and then the source is gone. |
| DriveLaws.NoSourceLaw | src/shell.rs:444-473 | Commands that read a source first report what reading it reports, and change nothing. |
| DriveLaws.RenameLaw | src/shell.rs:456-473 | The target has the text, the old name is free, what the target held is gone, and the rest is unchanged. |
| VirtualDrive.Vfs.constructor | src/shell.rs:205-220 | A fresh drive has exactly the root and the seven standard directories. |
| VirtualDrive.Vfs.Cd | src/shell.rs:327-341 | Moves to existing directories only, naming the two errors. |
| VirtualDrive.Vfs.MakeDir | src/shell.rs:354-367 | `mkdir` on the flat map: every error case, else one new directory entry and nothing else. |
| VirtualDrive.Vfs.RemoveDir | src/shell.rs:369-385 | `rmdir` on the flat map: every error case, else exactly that entry gone. |
| VirtualDrive.Vfs.RemoveEntry | src/shell.rs:387-400 | `rm` on the flat map: files and empty directories, exactly that entry gone. |
| VirtualDrive.Vfs.TouchFile | src/shell.rs:402-418 | `touch` on the flat map: a new empty file, or no change. |
| VirtualDrive.Vfs.ReadFile | src/shell.rs:420-427 | `cat` on the flat map. |
| VirtualDrive.Vfs.WriteLine | src/shell.rs:430-442 | `write` on the flat map: the text is appended as a line, separated from what was there; nothing else changes. |
| VirtualDrive.Vfs.CopyFile | src/shell.rs:444-447 | `copy` on the flat map: the source text appended to the destination. |
| VirtualDrive.Vfs.MoveFile | src/shell.rs:449-454 | `move_` on the flat map: as copy, then the source entry gone; the removal never fails. |
| VirtualDrive.Vfs.RenameFile | src/shell.rs:456-473 | `rename` on the flat map, including onto an existing directory, whose subtree is dropped. |
| VirtualDrive.Vfs.PrintedPathsResolve | src/shell.rs:245-315 | Every node in any reachable tree is found again by printing and resolving its path. |
| VirtualDrive.MkdirThenRmdir | src/shell.rs:354-385 | Removing a directory just made restores the drive. |
| VirtualDrive.MoveKeepsContent | src/shell.rs:449-454 | After a successful move the text is at the destination if and only if the two paths differ; the source is gone and every other path is unchanged. |
| MessageRouter.Router.PushOffline | src/messaging.rs:150-159 | The bounded queue: append, and return the oldest when over capacity. |
| MessageRouter.Router.SendMessage | src/messaging.rs:266-301 | The step of the router state for a send under some relay order, including the size refusal and the returned evicted message. |
| MessageRouter.Router.RegisterIdentity | src/messaging.rs:200-209 | A fresh, open inbox of the queue capacity is installed for the identity and filled from its queue one `try_send` at a time; other inboxes, routes and relays stay. |
| InboxRuns.InboxOwnership | src/messaging.rs:200-213 | In every reachable state an identity's inbox is the one registered for it last, and it has one if and only if since then it was neither unregistered nor found closed by a send. |
| InboxRuns.RegisteredReceives | src/messaging.rs:200-275 | Whoever registers and is then sent a message gets exactly that message in that inbox, after what was queued. |
| InboxRuns.SendingStep | src/messaging.rs:266-288 | A send is refused without a trace over the size limit, else recorded and handed to the inbox or next hop that is open; ones found closed are forgotten. |
| InboxRuns.QueuedWhenUnreachable | src/messaging.rs:150-159 | With no way open the message becomes the newest queued, and only a full queue gives up exactly its oldest. |
| InboxRuns.RelayIff | src/messaging.rs:247-256 | In every reachable state an identity is a relay if and only if it was made one and not removed since. |
| MessageRouter.Router.Connect | src/node.rs:258-267 | Set-up installs the new channel as next hop, and a relay flag for a dialled remote. |
| MessageRouter.Router.Disconnect | src/node.rs:307-313 | Tear-down removes the next hop only if this connection owns it; the relay flag unconditionally. |
| MessageRouter.Router.ReadInbound | src/node.rs:271-290 | A frame is routed exactly when it came over a relay connection or its sender is the authenticated remote. |
| RouterRuns.SendOutcome | src/messaging.rs:266-301 | A send hands the message to one open channel or queues it for a recipient without inbox; entries vanish only when found closed. |
| RouterRuns.DeliveryPriority | src/messaging.rs:266-301 | Inbox first, then the recipient's own next hop, then some open relay, and the offline queue only when none is open. |
| RouterRuns.RegisterHandsOver | src/messaging.rs:200-209 | Registering hands the whole queue over: it never exceeds the new channel. |
| RouterRuns.ConservationAndOrder | src/messaging.rs:130-209 | In every reachable state, per identity: accepted messages are exactly the handed, queued and evicted ones as multisets; inboxes followed by the queue are in acceptance order; evicted ones are older than queued ones; an identity with an inbox has an empty queue; queues respect the capacity. |
| RouterRuns.HandedButNotWritten | src/node.rs:293-297 | In every reachable state a message handed to a link is written to it unless it is exactly as large as the router accepts, which one payload length makes it. |
| RouterRuns.RouteStep | src/messaging.rs:218-241 | What any single operation can do to a route: set it, owner tear-down, or drop it when found closed. |
| RouterRuns.RouteOwnership | src/messaging.rs:218-241 | The next hop is a channel if and only if that connection set it last and has since been neither torn down nor found closed by a send; tearing down an older connection never matters. |
| StarMesh.MeshHolds | src/node.rs:252-305 | The star-mesh invariant holds in every reachable state of a core that dials nobody. |
| StarMesh.InboundIsFrameIn | src/node.rs:271-290 | What the reader of a connection does with a frame is the mesh step for it. |
| StarMesh.OwnIsNext | src/node.rs:252-305 | The core's own operations are the router's, but for relays and messages posing as frames. |
| StarMesh.FrameIsForwarded | src/node.rs:271-290 | A frame from one edge to another goes out on exactly the other edge's connection; one with another sender changes nothing. |
| StarMesh.AttributionAndAddressing | src/node.rs:271-290 | Every frame-borne message in a channel or queue carries the identity of the connection that sent it in, and everything on the channel to an edge is addressed to that edge. |
| Rendezvous.StoredIsLatest | src/app/rendezvous.rs:186-207 | The pruned map holds exactly the latest registration of each identity that no later registration saw expired. |
| Rendezvous.AnswerAgreesIff | src/app/rendezvous.rs:186-232 | For any clock, the map answers as the full log does unless the latest registration is live now although a later one already saw it expired. |
| Rendezvous.MapRefinesLog | src/app/rendezvous.rs:186-232 | Under a clock that does not go back the pruned map answers every lookup as the full log does. |
| Rendezvous.RegisteredIsFound | src/app/rendezvous.rs:186-218 | A registration is found as it was made until its lifetime is over and not a second longer, whatever others register. |
| Rendezvous.UnregisteredIsNotFound | src/app/rendezvous.rs:209-218 | An identity that never registered is not found. |
| Rendezvous.ClampKeeps | src/app/rendezvous.rs:193 | Lifetimes of 60 to 86400 seconds are kept, others brought to the nearer limit. |
| Rendezvous.Service.Register | src/app/rendezvous.rs:71-120 | A signed registration is logged with its time and clamped lifetime; an unsigned one changes nothing. |
| Rendezvous.Service.Lookup | src/app/rendezvous.rs:209-218 | For any clock, the latest registration of the fingerprint if live and retained, else nothing; under a clock that has not gone back, what the full log says. |
| Rendezvous.Service.List | src/app/rendezvous.rs:221-228 | For any clock, every live retained record exactly once, sorted by last registration time, whatever the map order; under a clock that has not gone back, every live latest registration of the log. |
| Pairing.PendingIsLastIssue | src/pair.rs:71-104 | The pending token is the last one issued, used exactly when a redemption was accepted since. |
| Pairing.AcceptedIff | src/pair.rs:89-104 | A redemption is accepted if and only if it presents the last issued token within its clamped lifetime and none was accepted since. |
| Pairing.AcceptancesMatchDistinctIssues | src/pair.rs:71-104 | Distinct acceptances belong to distinct issues, less than 600 seconds old. |
| Pairing.NoMoreAcceptancesThanIssues | src/pair.rs:71-104 | Accepted redemptions never outnumber issued tokens, with an unused pending token counted as one to spend. |
| Pairing.LedgerGrowsByAcceptance | src/pair.rs:107-122 | The ledger is duplicate-free, grows only at its end and only by an acceptance. |
| Pairing.LedgerIsPaired | src/app/pair.rs:23-50 | A device is in the ledger if and only if one of its redemptions was accepted and recorded; one cut short between the two writes spends the token and pairs nobody. |
| Pairing.LedgerEntries | src/pair.rs:107-122 | Every ledger entry holds the key and the recording time of the redemption that first paired its device. |
| Pairing.LifetimeKeeps | src/pair.rs:71-72 | Lifetimes of 1 to 600 seconds are kept, none means 120, others are brought to the nearer limit. |
| Pairing.Acceptor.IssueToken | src/pair.rs:71-84 | Replaces the pending token. |
| Pairing.Acceptor.ConsumeToken | src/pair.rs:89-104 | Succeeds exactly for a usable token and marks it used. |
| Pairing.Acceptor.RecordPairing | src/pair.rs:107-122 | Idempotent append to the ledger. |
| Pairing.Acceptor.RedeemToken | src/app/pair.rs:23-50 | Consume, then record with a second reading of the clock, unless the program stops in between: one step of the pairing trace. |
| Replication.PlanMembers | src/core/replication.rs:11-20 | The plan is exactly what the remote lists and is not held here. |
| Replication.ChunkIndex.Insert | src/core/mod.rs:27-33 | Refuses data that does not hash to its address and never replaces a chunk. |
| Replication.ChunkIndex.SyncFrom | src/core/replication.rs:11-20 | Plan, then insert any number of the planned chunks: the store gains exactly those. |
| Replication.RunGrows | src/core/mod.rs:27-33 | Over any schedule stores stay correctly addressed, lose nothing, change nothing, and gain only chunks some replica had. |
| Replication.StepLowersDeficit | src/core/replication.rs:11-20 | An exchange lowers the number of missing (replica, chunk) pairs by exactly the planned chunks it copied. |
| Replication.ProductiveExchangesBounded | src/core/replication.rs:11-20 | No schedule has more productive exchanges than pairs missing at its start. |
| Replication.QuietMeansEqual | src/core/replication.rs:11-20 | When all plans along a strongly connected set of pairs are empty, all stores are equal. |
| ChatLog.DecimalParses | src/lobby.rs:203-220 | A printed timestamp parses back to its value. |
| ChatLog.DecimalDigits | src/lobby.rs:203-204 | Decimal notation, digit by digit. |
| ChatLog.TimestampReads | src/lobby.rs:219 | A printed number is a timestamp if and only if it fits 64 bits; a plus sign is allowed, no digits are not. |
| ChatLog.NoTimestamp | src/lobby.rs:219 | Anything but digits is no timestamp. |
| ChatLog.ShortLines | src/lobby.rs:216-223 | Lines with one or two fields, and lines without a timestamp. |
| ChatLog.LineParses | src/lobby.rs:199-225 | A printed line parses to its entry with sanitized text; tabs in the text survive. |
| ChatLog.LinesAppend | src/lobby.rs:205-217 | Appending a line to a log that ends in a newline adds one line. |
| ChatLog.LogRoundTrip | src/lobby.rs:195-226 | The log reads back as exactly the appended entries with sanitized text if and only if every sender is free of tabs and newlines. |
| ChatLog.LogFile.AppendLog | src/lobby.rs:199-211 | Appends one printed entry. |
| ChatLog.LogFile.ReadLog | src/lobby.rs:213-226 | Returns the parsed entries, and the appended ones exactly under that condition. |

## Left out

- PullChunks: requires fewer than 2^32 blobs, or a manifest that counts some chunks; with neither, the saturating 32-bit
  offset stops moving and the program's loop does not end.
- PushThenPull: the core is not changed by other clients between the push and the pull.
- File ids are keys of separate directories. The program joins them as paths, so an id with a slash nests one
  directory in another, and fetching the outer one then fails on reading the inner.
- WriteLine: writing onto a directory panics in the program and is excluded by precondition, so also for `copy` and
  `move_`.
- Announce: a manifest counts fewer than 2^32 chunks, as one that arrived in a frame does.
- SendFile: the receiver holds no other manifest under the transfer id. The manifest is built once here; the program
  reads the file a second time to stream it.
- BuildManifest: the file does not change while it is read, so its recorded size is the length of its content.
- Connect: set-up and tear-down are each one step here; the run lemmas cover every interleaving of their parts.
- Input and output errors, unreadable or undecodable files except the revocation file, and temporary files left by a
  crash.
- A received file named like one of the receiver's own records (`state.json`, `manifest.json`, `chunks`).
- `ResumeState`, `reconstruct`, `transfer_manifest` and `mark_lost`: simpler variants of what is modelled.
- Loading a drive from JSON (its names are not checked), `ls`, `grep` and error message texts.
- Relay forwarding across several cores; the relay flag has no owner, unlike the next hop.
- Back-pressure on full channels, task scheduling, sockets and request matching by message id.
- The handshake as reads and writes on one stream: it is a state machine over its steps, so that any number of sessions
  interleave; framing is modelled separately.
- Bootstrap address lookup and the allow list: single membership tests.
- Lobby membership and encryption, the Burrow directory share, revocation epochs, the command line and installers.
