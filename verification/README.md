# dicker in Dafny

dicker uploads directory trees over several TCP connections to a server that stores them and can
hand them back as tar archives. This project models the parts of it where correctness is hardest to
see from the code, and proves what those parts are for. `dafny verify dfyconfig.toml` checks all of
it.

| files | what they model |
|---|---|
| `Ring.dfy` | the lock-free ring between two threads, as atomic steps |
| `AcceptMode.dfy` | the probe / reply / upload protocol, as steps of client, network, server and loop |
| `ByteChannel.dfy`, `Backpressure.dfy` | the hand-over buffer of a connection, and pausing the socket |
| `Frames.dfy`, `FrameLanguage.dfy`, `FramesRoundTrip.dfy`, `UploadLoop.dfy`, `Transfer.dfy`, `DeltaCodec.dfy` | the wire format: writer, reader, the bytes in good order, loops on both sides |
| `AcceptRoundTrip.dfy`, `FilterSafety.dfy`, `KeySafety.dfy`, `WriteSafety.dfy` | accept mode on the wire: what arrives, what may be written, which keys are held |
| `Tar.dfy`, `Archive.dfy`, `Untar.dfy` | the resumable tar writer, and a reader for what it writes |
| `BlockStream.dfy`, `Xxh64.dfy`, `Sha256.dfy`, `Xxh64Example.dfy`, `Sha256Example.dfy` | streaming hashes and HMAC, and a published value of each hash |
| `Handshake.dfy`, `Teardown.dfy`, `Starvation.dfy` | opening and closing a connection, and when its consumer stops by itself |
| `Regex.dfy`, `Glob.dfy`, `Walk.dfy` | filter rules and the pruned directory walk |
| `Split.dfy`, `Chunks.dfy`, `ReadAhead.dfy`, `Dispatch.dfy` | splitting and reassembly, the read-ahead pipeline, choice of worker |
| `Basics.dfy`, `Bits.dfy`, `Bytes.dfy` | options, machine arithmetic and little-endian numbers |

## How the model is made

- A protocol between threads is a state machine: one label per atomic step, `Enabled` and `Apply`
  for a step, `Runnable` and `Run` for a run. Theorems are about every run.
- An object that is changed by its methods is a class; each method is proved against a function of
  the bytes or of the old state.
- Machine words are natural numbers with the wrap-around written out, in the hashes bit vectors.
- Codecs are any pair of functions that obey a flush law (`Frames.Lawful`); `DeltaCodec` is a
  concrete codec that holds bytes back between calls and obeys it. The checksum in the frame proofs
  is any function; `Xxh64` shows the repository's own does not depend on how a unit is cut.
- What the operating system decides is a parameter: how many bytes a write or a read takes, which
  files can still be opened, when a thread runs, what a filter answers.

## Results that differ from what one might expect

- Backpressure: more than `low` bytes are buffered in every paused state without a pending resume
  if and only if no read asks for more than `high - low` bytes, and a connection can never wedge if
  and only if no read asks for more than `high`. The default marks meet this for the blocks the
  client sends and not for the largest block the server accepts.
- Dispatch: from a real index every worker is tried. From the "no worker" value the last worker is
  left out unless the number of workers divides 2^64.
- Filter rules: a leading `/` holds a pattern to the top of the tree only if the rest contains a
  slash or `**`; `/foo` selects `foo` in every directory.
- Tar: a name is read back if and only if it has at most 100 bytes or splits at a slash other than
  its first byte, a size if and only if it is below 8^11.
- Chunks: the target is opened without truncation, so the file on disk is the file sent if and only
  if no longer file was there before. With a threshold of 0 an empty file yields no work at all.
- Splitting: the chunks are the file, each byte once, if and only if the file is empty or the offset
  after the last chunk fits in 64 bits. The loop ends at all if and only if the file is no longer
  than 2^64 less the largest power of two that divides the chunk size; with a chunk size of 0 it
  never ends on a file that is not empty. Files of sizes an operating system can hold and chunk
  sizes below 2^63 other than 0 are not affected.
- High offsets: a chunk at an offset of 2^63 or more is written at the position of the shared file
  descriptor, not at its offset; for a file just opened that is its first byte. A unit goes to the
  offset it was granted if and only if its last piece starts below 2^63.
- Handshake: a refusal is sent again for every arrival after the bytes that complete the request.
  The client's opening of 57 bytes, cut after 56, gets it twice.
- Read-ahead: the storage thread becomes a second producer on the `spare` ring if and only if a file
  ends inside the range asked of it, after the first byte of that range.
- Teardown: if writing the OK reply of a handshake fails at once, the consumer is started although
  the handles are closing, and the teardown can end if and only if the bytes that came with the
  handshake are an unknown command or an upload that stops without waiting for more.
- `arch.md` speaks of probe batches of up to 32; the code, and the model, use 128.

## Model

| member | source | states |
|---|---|---|
| SpscRing.WrappedChecks | client/ring.h:38-61 | the wrapped 64-bit comparisons decide exactly whether a slot is free and whether an item waits |
| SpscRing.StepKeepsInv | client/ring.h:23-84 | every atomic step of producer, consumer and closer keeps the ring's invariant |
| SpscRing.RunKeepsInv | client/ring.h:23-84 | so does every interleaving |
| SpscRing.PoppedIsPrefixOfPushed | client/ring.h:31-84 | what has been popped is a prefix of what has been pushed, with 0 to Cap items in between |
| SpscRing.StepRefinesQueue | client/ring.h:50-80 | each step leaves the abstract FIFO queue alone, appends the pushed item at the publishing store, or removes the front item, which is the one read from the masked slot |
| SpscRing.NoOverwrite | client/ring.h:50 | the slot about to be written holds no unread item |
| SpscRing.PopFailsOnlyWhenDrained | client/ring.h:64-69 | `pop` takes its last look only at a closed ring, and then gives up if and only if everything published has been taken |
| SpscRing.PopEnds | client/ring.h:57-84 | `pop` returns only after it took an item and announced the room, or on a closed ring with nothing left |
| SpscRing.PushEnds | client/ring.h:31-55 | `push` returns only after it published its item and announced it, or on a closed ring |
| SpscRing.AnnouncementsAreEarned | client/ring.h:50-82 | a call that gets to its announcement took or published exactly one item just before |
| SpscRing.CloseCloses | client/ring.h:23-29 | `close` closes the ring, and no step opens it again |
| SpscRing.LonePopTakesFront | client/ring.h:57-84 | from any reachable state with an item in the ring, a `pop` left alone returns the front item in six of its own steps |
| SpscRing.LonePopParks | client/ring.h:60-77 | on an open empty ring it is parked after seven |
| SpscRing.LonePopGivesUp | client/ring.h:64-67 | on a closed empty ring it returns after four, having changed nothing |
| SpscRing.LonePushPublishes | client/ring.h:31-55 | from any reachable open state with room, a `push` left alone publishes its item and returns in seven of its own steps |
| SpscRing.LonePushParks | client/ring.h:34-48 | on an open full ring it is parked after seven |
| SpscRing.LonePushGivesUp | client/ring.h:35-37 | on a closed ring it returns after two, having changed nothing |
| SpscRing.NoLostWakeupForConsumer | client/ring.h:71-76 | a consumer parked on an unchanged gate has nothing to take, or the other side is between its store and its bump; on a changed gate a notification is under way; the 32-bit gate cannot come back to the value read |
| SpscRing.NoLostWakeupForProducer | client/ring.h:42-47 | the same for a producer waiting for room |
| SpscRing.NeverBothAsleep | client/ring.h:31-84 | both threads are parked at once only while a close is under way |
| SpscRing.ParkedConsumerIsWoken | client/ring.h:51-53 | a consumer parked although an item or a close awaits it is woken within two steps of one other thread |
| SpscRing.ParkedProducerIsWoken | client/ring.h:80-82 | a producer parked although there is room or the ring is closed is woken within four steps of one other thread |
| AcceptMode.StepKeepsInv | client/worker.h:217-324 | every step of client, network, server and loop keeps the protocol invariant |
| AcceptMode.RunKeepsInv | client/worker.h:217-324 | so does every interleaving |
| AcceptMode.Lockstep | client/worker.h:296-324 | in every reachable state the next reply carries the key of the unit being resolved, at most 128 units are pending, the replies under way are exactly the unread answers in probe order, waiting with units pending implies more work is queued, and uploads, skips and receipts are exactly what was decided, in order |
| AcceptMode.ArrivalsAreHandedOver | client/worker.h:217-251 | in every run the tasks handed over and those still queued are exactly those that arrived, in order |
| AcceptMode.RulingsAreKept | server/connection.cxx:650-665 | the decisions recorded are exactly the filter's answers, in order |
| AcceptMode.AskedInOrder | server/connection.cxx:613-665 | the n-th question to the filter is about the n-th task that arrived, under key n |
| AcceptMode.WindowsAreFilled | client/worker.h:217-324 | a window is resolved exactly when it holds 128 units or nothing is queued, and its replies are read only after all its probes are out |
| AcceptMode.ReplyMatchesPending | client/worker.h:300-308 | the reply at the front answers the pending unit at the same position with the server's decision for it |
| AcceptMode.AcceptedExactly | server/connection.cxx:650-708 | `accepted_` holds exactly the accepted and not yet uploaded probes under their own keys |
| AcceptMode.NoDeadlock | client/worker.h:217-324 | short of having finished, some actor other than the scheduler can move |
| AcceptMode.StepBurnsFuel | client/worker.h:217-324 | every step but a new arrival uses up fuel |
| AcceptMode.RunsAreFinite | client/worker.h:217-324 | once nothing new arrives every schedule ends |
| AcceptMode.SettledOutcome | client/worker.h:310-323 | at the end every task that arrived has been uploaded and received, or skipped, exactly once, in order of arrival and as the filter ruled, and the server waits for nothing |
| AcceptMode.PickPartitions | client/worker.h:310-320 | uploaded and skipped units together are all units, none lost and none twice |
| AcceptRoundTrip.ProbesServed | server/connection.cxx:613-665 | serving the bytes of a window of probes asks the filter about each unit in turn and posts each answer |
| AcceptRoundTrip.RepliesRead | client/worker.h:300-308 | the replies posted to a window are read back as the decisions, each under its unit's key |
| AcceptRoundTrip.UploadsServed | client/worker.h:310-320 | serving the uploads of a window delivers exactly its accepted units and uses up exactly their keys |
| AcceptRoundTrip.SessionDelivers | client/worker.h:217-324 | byte for byte, for every list of units, cut into windows, every filter and lawful codec: the accepted units arrive whole and in order, every probe is answered under its key, and nothing stays outstanding |
| ByteChannels.ByteChannel.Push | server/byte_channel.cxx:15-26 | appends to the flat byte stream, unless empty or closed |
| ByteChannels.ByteChannel.Close | server/byte_channel.cxx:65-69 | no bytes arrive afterwards |
| ByteChannels.ByteChannel.TakeFront | server/byte_channel.cxx:41-59 | one pass of the copying loop moves bytes from the stream to the output and loses none |
| ByteChannels.ByteChannel.ReadExact | server/byte_channel.cxx:28-63 | succeeds if and only if so many bytes arrive before the close, returns exactly the next bytes of the stream however it was cut, and signals once if some copy of the call leaves no more than the low mark buffered, else not at all |
| Backpressure.RunKeepsInv | server/connection.cxx:216-228 | every interleaving of check, pause, drain, signal and resume keeps the accounting |
| Backpressure.DrainUnsignaled | server/byte_channel.cxx:33-60 | a read of n+1 bytes can leave the socket paused with n bytes fewer than the pause mark and no resume due |
| Backpressure.PauseBelowLow | server/connection.cxx:223-228 | with the pause mark at or below the resume mark, pausing alone leaves too few bytes |
| Backpressure.StaysAboveLowWater | server/byte_channel.cxx:28-63 | paused with no resume due implies more than the low mark buffered, if and only if no read asks for more than the distance between the marks |
| Backpressure.NeverWedges | server/connection.cxx:586-592 | no reachable state is wedged if and only if no read asks for more than the pause mark |
| Backpressure.DefaultMarks | server/server.h:55-56 | the default marks are safe for every block this client sends, and not for a block of the largest size the server takes |
| Bytes.UnLeOfLe | shared/wire.h:9-65 | a number written little-endian in n bytes is read back, below 256^n |
| Bytes.LeOfUnLe | shared/wire.h:9-65 | bytes read as a number are written back unchanged |
| Bytes.LeDigit | shared/wire.h:32-65 | byte i of a number written is its i-th lowest |
| Bytes.UnLeShifts | shared/wire.h:9-30 | two, four and eight bytes read together are the sums of the shifted bytes, lowest first |
| Frames.EncodeOneMore | client/worker.h:353-373 | compressing one more block extends the bytes sent by its frame |
| FrameLanguage.HeaderExact | server/connection.cxx:717-738 | a header is taken if and only if it is, byte for byte, one in good order, and then as what it says |
| FrameLanguage.ProbeExact | server/connection.cxx:613-648 | the same for a probe |
| FrameLanguage.BlockExact | server/connection.cxx:815-831 | a block is taken if and only if it has 1 to 64 MiB under its own length |
| FrameLanguage.TrailerExact | server/connection.cxx:843-854 | a unit's end is taken if and only if the eight bytes of its checksum follow, or no checksum was agreed |
| FrameLanguage.WrongTrailer | server/connection.cxx:843-854 | any other eight bytes are refused |
| FrameLanguage.FrameExact | server/connection.cxx:670-741 | the server carries on if and only if the next bytes are a probe, plain unit or accepted unit in good order for its mode and its keys, and then does exactly what that frame says |
| FrameLanguage.ServeExact | server/connection.cxx:667-872 | any bytes are a run of such frames, all carried out, and a rest that does not begin with one, at which the server stops |
| FrameLanguage.LoggedIsVouched | server/connection.cxx:843-871 | for any bytes: every unit logged as received carried the checksum of its content if one was agreed, and only the last unit can be logged as failed |
| FramesRoundTrip.BlockRoundTrip | server/connection.cxx:815-831 | a block's length and bytes are read back and the rest is left |
| FramesRoundTrip.BlocksServed | server/connection.cxx:799-841 | however the codec holds bytes back, the blocks of a unit decode to a front part of its content and the decoder owes exactly the rest |
| FramesRoundTrip.BodyServed | client/worker.h:375-387 | after the flush the decoder has produced the whole content |
| FramesRoundTrip.TrailerServed | server/connection.cxx:843-854 | the trailer of the content received is accepted |
| FramesRoundTrip.HeaderParsed | client/worker.h:231-243 | a unit header is parsed back to its kind, path and offset, with the rest of the stream left |
| FramesRoundTrip.PlainUnitServed | server/connection.cxx:710-738 | a whole plain unit is delivered to its target with its content, and codec state carries over |
| FramesRoundTrip.UnitsRoundTrip | server/connection.cxx:667-872 | for every list of units the server delivers the same kinds, paths, offsets and contents, in order |
| FramesRoundTrip.ProbeServed | server/connection.cxx:613-665 | a probe reaches the filter with every field intact and its answer is posted under its key |
| FramesRoundTrip.ProbeParsed | client/worker.h:271-294 | the bytes of a probe parse back to its key and question |
| FramesRoundTrip.ReplyRead | client/worker.h:301-307 | the client reads decision and key back from a posted reply |
| FramesRoundTrip.AcceptedServed | server/connection.cxx:692-709 | an accepted unit goes to the target of its probe and its key is used up |
| DeltaCodec.DeltaIsLawful | client/worker.h:362-381 | the flush law assumed of codecs is met by one that holds bytes back between calls |
| UploadLoop.Worker.SendBlock | client/worker.h:196-205 | sends one frame, and nothing for an empty output |
| UploadLoop.Worker.SendBlocks | client/worker.h:350-373 | the read loop sends exactly the specified blocks |
| UploadLoop.Worker.Upload | client/worker.h:338-397 | sends header, blocks, flush, end marker and trailer as specified |
| UploadLoop.Consumer.ReceiveBlock | server/connection.cxx:799-841 | one pass of the block loop refines the reader on the flat stream |
| UploadLoop.Consumer.ReceiveBlocks | server/connection.cxx:799-841 | so does the loop |
| UploadLoop.Consumer.CheckTrailer | server/connection.cxx:843-854 | with checksums agreed succeeds if and only if the next eight bytes, read little-endian, are the checksum of the content; without, always and reading nothing |
| UploadLoop.Consumer.HandleUnit | server/connection.cxx:760-871 | opens, receives, checks, and logs the outcome as the reader on the flat stream does |
| UploadLoop.Consumer.ReadProbe | server/connection.cxx:613-648 | key and question of a probe, or failure, exactly as the parser on the flat stream |
| UploadLoop.Consumer.HandleProbe | server/connection.cxx:613-665 | answers a probe and remembers it if accepted |
| UploadLoop.Consumer.HandlePlain | server/connection.cxx:717-738 | reads a plain header with all its refusals, then its unit |
| UploadLoop.Consumer.HandleAccepted | server/connection.cxx:692-709 | looks a unit up by its key, or ends the connection |
| UploadLoop.Consumer.Turn | server/connection.cxx:670-741 | one turn of the outer loop, every unit type and mode |
| UploadLoop.Consumer.HandleUpload | server/connection.cxx:667-872 | what the server does depends only on the flat byte stream, not on how it was cut or when it arrived, and it comes to wait for bytes that never arrive exactly when the stream starves it |
| Transfer.SendAll | client/worker.h:326-397 | the client's loop over units sends their encoding |
| Transfer.Roundtrip | server/byte_channel.cxx:15-63 | the client's bytes, cut into pushes in any way, deliver exactly the client's units |
| FilterSafety.OnlyAcceptedIsWritten | server/connection.cxx:680-715 | for any bytes from the network and any filter, a target is opened at most as often as it was granted and not used yet |
| FilterSafety.WrittenImpliesGranted | server/connection.cxx:680-715 | in accept mode every target written was accepted by the filter |
| KeySafety.ServeFolds | server/connection.cxx:650-708 | for any bytes and any filter `accepted_` is what grants and uses make of it, and only a key that is held is used |
| KeySafety.KeysAreUsedOnce | server/connection.cxx:650-708 | for a client that never repeats a probe key, whatever else it sends: the keys held are exactly those granted and not used, for the targets granted, and no key is used twice or without a grant |
| WriteSafety.WrittenWhereGranted | server/connection.cxx:643-736 | for any bytes and any filter every unit written has a granted target, and its bytes go to that target's offset if and only if its last piece starts below 2^63 |
| WriteSafety.GrantedHighOffset | server/file_sink.cxx:38 | a granted chunk at offset 2^63 of a file just opened writes over its first byte |
| Tar.UnOctalOfOctal | server/archive.cxx:14-20 | n octal digits hold a number modulo 8^n |
| Tar.SetOctal | server/archive.cxx:14-20 | writes the digits and the terminator in place, and nothing else |
| Tar.FindSplit | server/archive.cxx:82-91 | the loop finds the last acceptable split |
| Tar.EmitHeader | server/archive.cxx:75-128 | the header filled in place is the specified block |
| Tar.ChecksumAlwaysHolds | server/archive.cxx:116-125 | the stored checksum is the sum of the block with a blank checksum field, for every name and size |
| Tar.UstarMarks | server/archive.cxx:111-114 | type, magic and version are those of a regular file in ustar format |
| Tar.OwnerFields | server/archive.cxx:106-110 | mode 0644 and zero owner, group and time are read back |
| Tar.HeaderFill | server/archive.cxx:75-128 | every byte of the block that no other field covers: terminators, the end of the checksum field, zeros |
| Tar.SizeReadsBack | server/archive.cxx:109 | the size is read back if and only if it is below 8^11 |
| Tar.NameReadsBack | server/archive.cxx:79-104 | the name is read back if and only if it is short or splits at a slash after its first byte |
| Archive.ArchiveLength | server/archive.cxx:154-185 | each opened member is a header block and its size rounded up to blocks |
| Archive.ReadMember | server/archive.cxx:162-179 | one read moves bytes from what the member is owed to the output, zeros making up for a short file |
| Archive.ArchiveStreamer.Stage | server/archive.cxx:133-190 | one pass of the staging loop moves the front of the archive still due, for every combination of flags |
| Archive.ArchiveStreamer.RefillRaw | server/archive.cxx:130-191 | staged bytes and bytes still due keep their concatenation, and the loop ends with enough staged or the input done |
| Archive.ArchiveStreamer.Round | server/archive.cxx:201-234 | a round of `next` feeds everything staged to the compressor and finishes only when nothing is due |
| Archive.Stream | server/archive.cxx:193-237 | over all rounds the compressor is given exactly the archive of the entries, whatever could not be opened or came up short: the blocks their sizes announce and 1024 zero bytes |
| Untar.ReadTarball | server/archive.cxx:130-191 | a strict reader, which wants zero padding, two zero blocks and nothing after them, gets an archive's files if and only if every header in it is understood |
| Untar.ArchiveReadsBack | server/archive.cxx:75-191 | a ustar reader gets back exactly the opened files, cut or zero-filled to the recorded size, if and only if ustar can carry each name and size |
| BlockStream.Append | shared/xxhash.h:3295-3332 | folding full blocks over a message continues from the fold and tail of its front part |
| BlockStream.StripeBuffer.Update | shared/xxhash.h:3287-3335 | after any update the accumulator has absorbed every full stripe and the buffer starts with the last total mod 32 bytes |
| BlockStream.BlockBuffer.Update | shared/sha256.h:46-60 | the same for the SHA-256 buffer, with its bit count modulo 2^64 |
| Xxh64.FinalizeLoop | shared/xxhash.h:3153-3177 | the tail loop computes the specified finalization of the first len bytes |
| Xxh64.Hash | shared/xxhash.h:3198-3231 | the hash fits the eight bytes of a checksum trailer |
| Xxh64.OneShot | shared/xxhash.h:3197-3231 | the one-shot loop computes the specified hash |
| Xxh64.Digest | shared/xxhash.h:3339-3356 | the digest of a stream is the one-shot hash of everything fed to it |
| Xxh64.HashPieces | server/connection.cxx:115-128 | one update per piece gives the hash of the content for every cut, so client and server agree |
| Xxh64Example.HashOfText | shared/xxhash.h:3093-3231 | the published hash of a text of 63 bytes, which takes every path, comes out of the specification |
| Sha256.Schedule | shared/sha256.h:86-98 | the message schedule of FIPS 180-4 section 6.2.2 |
| Sha256.ProcessBlock | shared/sha256.h:86-135 | the in-place rounds compute the compression function of FIPS 180-4 section 6.2.2 |
| Sha256.Finish | shared/sha256.h:62-84 | padding byte by byte and the length block give the hash of FIPS 180-4 section 6.2 of everything fed, and the padding loop ends |
| Sha256.PaddingIsMinimal | shared/sha256.h:62-70 | the zero run is the shortest that leaves room for the length, as FIPS 180-4 section 5.1.1 asks |
| Sha256Example.ShaOfAbc | shared/sha256.h:13-135 | the digest of "abc" that NIST publishes with FIPS 180-4 comes out of the specification, schedule and all 64 rounds |
| Sha256.HmacSha256 | shared/hmac_sha256.h:11-41 | HMAC as in section 2 of RFC 2104, for short and long keys |
| Sha256.ConstantTimeEqual | shared/hmac_sha256.h:43-49 | the accumulating comparison is equality |
| Handshake.Judged | server/handshake.cxx:21-54 | what becomes of a client's request for every key, version, algorithm and server; with equal keys every field arrives as sent |
| Handshake.AcceptedIsSigned | server/handshake.cxx:21-54 | a request is accepted as a greeting if and only if it is that greeting signed with the server's key, in a spoken version and a supported algorithm |
| Handshake.RequestLayout | client/worker.h:176-194 | a request byte by byte: "DKR1", version, flags, algorithm, session, and the digest of those 24 bytes |
| Handshake.RefusalCodes | server/handshake.cxx:21-54 | the status any 56 bytes get: the first of wrong magic 1, wrong digest 3, unspoken version 2, unknown algorithm 4, server unable to serve 5 |
| Handshake.ReplyLayout | server/connection.cxx:484-517 | a reply byte by byte: "DKR1", the status, and after an OK to version 2 the mode byte 0, 1 or 3 |
| Handshake.SessionMeans | server/server.h:94-103 | for any greeting the server asks first if and only if it filters and the version is 2 or more, wants hashes if moreover so configured, and checks sums as flag 1 says |
| Handshake.ConflictMeans | server/connection.cxx:235-248 | bytes are not dicker's as soon as one of the first four differs from the magic |
| Handshake.Preamble.Decide | server/connection.cxx:235-248 | dicker or HTTP is decided once, as early as the bytes allow |
| Handshake.Preamble.HandleData | server/connection.cxx:230-316 | session and bytes passed on depend only on the bytes received, not on how they were cut; an accepted request is answered once, a refused one once per arrival at or past its end |
| Handshake.Receive | server/connection.cxx:230-316 | a refusal goes out exactly as often as there are arrivals at or past the end of the request, so once if and only if there is one such arrival |
| Handshake.SplitOpening | client/worker.h:176-194 | the opening cut after the request brings two such arrivals, uncut one |
| Handshake.Client.Shake | client/worker.h:139-174 | the client reads exactly the reply to an accepted request and one copy of a refusal, however often it was sent, and takes the server's modes from the reply |
| Handshake.Client.Init | client/worker.h:91-125 | `init` succeeds exactly for equal signatures, a spoken version, a supported algorithm and a working server, retries with version 1, and then runs in accept mode if and only if the server filters and speaks version 2, sends hashes if moreover the server wants them, and sums as its own flags say; both sides agree and nothing is unread |
| HandshakeVerify.Opening | client/worker.h:176-194 | the bytes built step by step are the signed request and the command byte |
| HandshakeVerify.ParseAndVerify | server/handshake.cxx:21-54 | the verdict computed with HMAC-SHA256 is the specified one, in the order of checks of the code |
| HandshakeVerify.EqualKeysAgree | server/handshake.cxx:21-54 | with HMAC-SHA256 and equal keys a greeting in a spoken version and a supported algorithm is accepted with every field as sent |
| Teardown.StepKeepsInv | server/connection.cxx:875-941 | every callback and consumer step keeps the teardown invariant, the OK reply having been queued |
| Teardown.SafeTeardown | server/connection.cxx:899-941 | no handle is closed twice, the connection is deleted at most once, and only after every close and write was reported and the consumer joined |
| Teardown.ConsumerSignalsOpenHandles | server/connection.cxx:594-611 | while the consumer can still signal, its handles are open |
| Teardown.TeardownStarts | server/connection.cxx:539-581 | a teardown starts at a read error, a write refused or failed, the end of a refusal's write and the consumer's last signal, and at nothing else; it closes the channel of a running consumer, or else the handles |
| Teardown.TeardownCompletes | server/connection.cxx:875-941 | every teardown that has started can run to deletion |
| Teardown.EndingsComplete | server/connection.cxx:500-556 | once the consumer has signalled its end or a refusal is on its way out, the connection can run to deletion |
| Teardown.NoRunIsStranded | server/connection.cxx:875-941 | no run reaches a teardown that cannot complete |
| Teardown.RefusedReply | server/connection.cxx:278-310 | after an OK reply whose write fails at once, the teardown can end if and only if the consumer finishes on the bytes that came with the handshake |
| Starvation.Decided | server/connection.cxx:667-872 | an upload that does not run out of bytes has decided everything: later bytes change nothing |
| Starvation.RefusedUpload | server/connection.cxx:594-611 | that is, if and only if those bytes are an unknown command or an upload that stops without waiting for more |
| Starvation.LeftoverExamples | server/connection.cxx:594-611 | stuck with nothing or only the command after the request, not stuck with a command and an end |
| Glob.TranslateGlob | client/scheduler.h:83-104 | the loop emits the specified text |
| Glob.CompileRule | client/scheduler.h:64-109 | directory mark, anchor, basename test and expression of a rule |
| Glob.PatternParts | client/scheduler.h:70-78 | every pattern is its anchor, its body and its directory mark, in that order |
| Glob.PatternRead | client/scheduler.h:70-78 | a pattern written of optional slash, body and optional slash is read as written |
| Glob.SourceParses | client/scheduler.h:83-108 | the text of every rule is a well-formed ECMAScript expression (section 22.2.1 of ECMA-262) in which every special character stands for itself |
| Glob.NodesMeanGlob | client/scheduler.h:83-104 | the expression of a pattern body matches exactly what the glob means |
| Glob.PrefixThen | client/scheduler.h:106 | the optional prefix means "the path or what follows one of its slashes" |
| Glob.CompiledMeansGlob | client/scheduler.h:64-109 | matching the compiled text is matching the glob, for every pattern and every string |
| Walk.Keep | client/scheduler.h:112-123 | a path is kept as the first rule about it says, and kept when there is none |
| Walk.AnchorHonoured | client/scheduler.h:74-81 | a leading slash holds a pattern to the top of the tree if and only if the rest contains a slash or `**`, or is empty |
| Walk.JoinRead | client/scheduler.h:341-369 | the relative path a rule sees is the names on the way with slashes between them |
| Walk.FilesAreThere | client/scheduler.h:332-374 | the traversal lists exactly the regular files that following the names leads to |
| Walk.PrunedIsChoice | client/scheduler.h:341-374 | not entering excluded directories yields exactly the kept files all of whose directories are kept, in traversal order |
| Walk.Increment | client/scheduler.h:341-369 | one turn of the iterator |
| Walk.Run | client/scheduler.h:332-383 | the walk ends, having enqueued exactly the files that exist, that the rules keep and all of whose directories they keep, in traversal order |
| Split.Enqueue | client/scheduler.h:300-327 | a small file is one unit; of a big one the tasks are those of the loop's passes, and the loop has ended or is still going as its 64-bit offset says |
| Split.TilePartitions | client/scheduler.h:304-316 | every byte of end-to-end chunks is in exactly one of them |
| Split.EveryChunk | client/scheduler.h:304-316 | each task is a chunk of a file of that size, starts at its multiple of the chunk size modulo 2^64, and is a full chunk or the rest of the file |
| Split.SplitCondition | client/scheduler.h:304-316 | the loop ends with chunks that are the file if and only if the file is empty, or the chunk size is positive and the offset after the last chunk is below 2^64 |
| Split.OrdinarySplit | client/scheduler.h:304-316 | for files below 2^63 bytes and positive chunk sizes up to 2^63 it always does |
| Split.LoopEnds | client/scheduler.h:304 | the loop ends if and only if the file is no longer than 2^64 less the largest power of two dividing the chunk size |
| Split.ZeroNeverEnds | client/cli.cxx:28-41 | with a chunk size of 0 the loop never ends on a file that is not empty |
| Split.OverlapExample | client/scheduler.h:304-316 | a size and chunk size for which the loop ends with overlapping chunks |
| Chunks.DiskFile.WriteAll | server/file_sink.cxx:31-48 | any pattern of partial writes amounts to one write of a front part, at the offset or, for a negative one, at the descriptor's position, which then moves; success exactly when every call takes something |
| Chunks.UnitSink.Write | server/connection.cxx:115-128 | a chunk's piece goes to its offset plus what came before, modulo 2^64 and read as signed; a file's piece to the writer's own offset |
| Chunks.LandsWhereAsked | server/file_sink.cxx:66-68 | a piece lands at the unit's offset plus what came before if and only if that sum is below 2^63 |
| Chunks.UnitLands | server/file_sink.cxx:31-68 | all pieces of a chunk land one after the other at its offset if and only if the last of them starts below 2^63 |
| Chunks.HighOffsetExample | server/file_sink.cxx:38 | a chunk at offset 2^63 of a file just opened lands on its first byte |
| Chunks.ChunkOfFileLands | server/file_sink.cxx:66-68 | no chunk of a file the system can hold is affected |
| Chunks.WriteUnit | server/connection.cxx:834 | a unit whose writes all succeed leaves the file its places lead to |
| Chunks.ChunkRegistry.Acquire | server/file_sink.cxx:138-162 | one open file per path, opened without truncation; a file that cannot be opened leaves no trace |
| Chunks.WritesReassemble | server/file_sink.cxx:31-68 | positioned writes of a file's own bytes that miss none, in any order and with repeats, leave the file followed by what an older and longer file had beyond it |
| Chunks.ChunksReassemble | server/file_sink.cxx:66-68 | chunks cut into any pieces and written in any interleaving restore the file, and leave exactly it if and only if no longer file was there |
| Chunks.WholeFileArrives | server/file_sink.cxx:50-56 | a file written piece by piece from an empty start is its pieces in order |
| ReadAhead.StepKeepsInv | client/storageReader.h:118-161 | every step of storage thread and worker keeps ownership, turn taking and buffer contents |
| ReadAhead.Pipeline | client/storageReader.h:103-161 | in every run each buffer has one owner, no ring is ever full, at most one end marker is under way, and each finished unit received exactly what exists of its range |
| ReadAhead.UnitsInOrder | client/storageReader.h:103-161 | in every run the units submitted are, in order, the finished ones and the one under way |
| ReadAhead.NeverStuck | client/worker.h:253-269 | until a unit is finished some step is possible |
| ReadAhead.UnitsFinish | client/worker.h:348-373 | and at most a fixed number of steps |
| ReadAhead.OneProducer | client/storageReader.h:137-140 | as long as no file ends inside a range asked of it, after its first byte, `spare` never has two producers at once |
| ReadAhead.SecondProducer | client/storageReader.h:137-140 | for one request, both threads can be about to push to `spare` if and only if its file ends inside the range, after its first byte |
| Dispatch.UnpackOfPack | client/affinity.h:40-62 | an affinity survives packing into 32 bits |
| Dispatch.DistanceMeans | client/affinity.h:96-114 | a cold worker costs 16, opaque against not 2^20, opaque against opaque nothing, else the three squared differences |
| Dispatch.DistanceBelowWall | client/affinity.h:96-114 | no distance exceeds the wall cost |
| Dispatch.SelectWorker | client/scheduler.h:190-231 | the first nearest live worker with fewer than 32 tasks, else the first least loaded live one below 128, else the sentinel |
| Dispatch.VisitsAll | client/scheduler.h:233-235 | from any 64-bit start every worker is tried if and only if the indices do not run past 2^64 or the number of workers divides it |
| Dispatch.RealStartVisitsOnce | client/scheduler.h:233-235 | from a real index no worker is tried twice |
| Dispatch.SentinelMissesLast | client/scheduler.h:233-235 | from the sentinel the last worker is tried if and only if the number of workers divides 2^64 |
| Dispatch.Scheduler.Dispatch | client/scheduler.h:233-260 | the work goes to the first worker in that order that can take it and to no other, exactly the workers tried are initialized, and from a real index the work is refused only if none can take it |

## Left out

- Weak memory ordering: atomic operations are sequentially consistent steps.
- Ring capacity: capacity plus number of closes stays below 2^32, far above the capacity of 8 and the two closes in use.
- TLS, SOCKS, sockets, HTTP routes, the token store and the session log: drivers around libraries.
- zstd, lz4 and BLAKE3: codecs are any lawful pair of functions, the probe hash any 32 bytes, the archive compressor a consumer of bytes.
- Failing sends and receives inside accept mode: the protocol model covers runs in which the connection stays up; a send failure ends `process` and the connection.
- Collecting and sorting the entries of an archive: the archive is proved for any list of entries.
- Archive.Stream: the compressor's own output, its errors and the buffer boundaries of its result are not modelled.
- Archive.ArchiveStreamer.Round: the offset into the staged bytes is not kept, because a round always consumes all of them.
- Frames over more than 255 bytes of path: the client's path field holds no more and cuts longer paths off before framing.
- Split.Enqueue: observes a given number of passes, since the loop need not end; the lemmas beside it are about any number.
- Writes that fail: a failing disk write ends a unit as a decoding error does; which writes fail is not tied to the model of the frames.
- Chunks path confinement (`resolve_safe_path`) rests on `std::filesystem::path` normalization and is not part of this model.
- ReadAhead.Pipeline: pushes and pops of both rings are single steps. The ring justifies that for one producer, so on `spare` for runs that meet the condition of ReadAhead.OneProducer; the closing of the rings is not modelled.
- AcceptMode.Lockstep, Teardown.SafeTeardown, ReadAhead.Pipeline and the ring are modelled on values, one step at a time; the C++ objects they live in are not.
- Dispatch.SelectWorker: occupancy and warm state are one snapshot per worker.
- Walk.Run: the tree does not change during the walk and holds no links; read errors of the iterator and a failing `enqueue` abort the walk and are not modelled.
- Handshake.Preamble.HandleData: detection of TLS by the first byte is not modelled, nor is the teardown that ends the repetition of a refusal.
- The worker each chunk of a file starts its search from: the dispatch theorems are about any start.
- Sha256.Finish: messages of 2^61 bytes and more, whose bit count wraps.
- XXH32, XXH3, the aligned and vectorized variants, BLAKE3 and the session-id hex string.
