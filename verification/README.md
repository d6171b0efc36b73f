# ethkit in Dafny

A model of the parts of ethkit that carry state or protocol logic, with proofs of what they
promise. The project is checked with `dafny verify dfyconfig.toml`.

**RLP** (`go-ethereum/rlp`; Appendix B of the Ethereum Yellow Paper). `Rlp.dfy` is the
recursive encoding `Enc` of a tree of byte strings and lists; `BigEndian.dfy` and `Integers.dfy`
are minimal integers. `EncBuffer.dfy` and `EncReader.dfy` are the encoder that actually runs: a
flat string buffer and a list of deferred headers, merged at the end by three different
routines. `Stream.dfy` is the stream decoder with its cached header and its stack of list limits
in wrapping 64-bit arithmetic; `Raw.dfy` is the slice decoder and the list iterator.
`RoundTrip.dfy` puts encoder and decoder together. Main results: `EncoderOutput.EncodeToBytes`,
`EncoderOutput.EncReader.Read`, `Decoder.DecodeBytes`, `RoundTrip.EncodeDecode`,
`Raw.IterateList`.

**Chain monitor** (`ethmonitor`). `BlockEvents.dfy` says what a feed of added and removed blocks
means by replaying it. `Chain.dfy` is the bounded chain and its bootstrap, `Queue.dfy` the
publish queue that cancels pairs, `Monitor.dfy` the recursive rebuild and the monitor loop,
over a provider that may fail or switch forks at any call. A mutex makes each of push, pop,
enqueue and dequeue one step; the loop is a transition relation, and the classes are proved to
follow it. `MonitorRuns.dfy` is about whole runs. Main results: `ChainMonitor.RunKeeps`,
`ChainMonitor.SubscriberView`, `ChainMonitor.CaughtUp`, `ChainMonitor.NeverStuck`, `MonitorRuns.NumberedExactly`,
`ChainMonitor.Monitor.BuildCanonicalChain`. `FeedCheck.dfy` is the check that the chain-watch
tool makes of a published feed; main result: `ChainWatch.ValidFeedWalks`.

**Event feed** (`go-ethereum/event`). `Feed.dfy` is the protocol as a state machine over the steps
of subscribers, unsubscribers and one sender; `FeedSend.dfy` is the code, whose methods are proved
to take those steps for every outcome of TrySend and Select, and to hand the value to exactly the
channels the steps say. Main results: `EventFeed.RunKeeps`, `EventFeed.SendDelivers`,
`FeedCode.Feed.Send`.

**ABI signatures** (`ethcoder`). `Text.dfy` has the string functions, `AbiSig.dfy` the parser with
its recursion, regrouping and loops, and `AbiSigText.dfy` argument trees, their text and the round
trips. Main results: `AbiSignature.ParsedLengths`, `SignatureText.ParsePrintedExactly`,
`SignatureText.CanonicalFixedPoint`, `SignatureText.StringIsParsedBack`.

**Merkle proofs** (`ethcoder`). `Merkle.dfy`: layers built by loops, paths, and their verifier.
Main results: `Merkle.ProveAndVerify`, `Merkle.SameRoot`, `Merkle.VerifyAgainst`. The last says what an
accepted proof shows: it is the path of the tree itself, or it exhibits a second preimage of
something the builder hashed, which is the most that can be said of an unspecified hash function.

**Fork schedules** (`go-ethereum/params`). `Params.dfy`: the rewind loop, the order check, and the
rules. Main results: `ForkSchedule.CheckCompatible`, `ForkSchedule.CheckConfigForkOrder`,
`ForkSchedule.AgreedRules`, `ForkSchedule.OrderedRulesNested`.

**Gas gauge** (`ethgas`). `Gas.dfy`: histogram, trimming, percentiles and four coupled averages.
Main result: `GasGauge.RunGauge`.

Where the code does not do what one would expect, the model follows the code and says so:

- A list limit of the decoder can wrap, exactly when a list does not fit what was left before its
  header (`Decoder.Stream.ListStart`, `Decoder.LimitWraps`); acceptance is exact all the same.
- An empty input leaves the stream without a limit (`Decoder.Stream.constructor`).
- A publish without subscribers drops events. If an addition waits in the queue then, the queue
  can refuse a later removal (`MonitorRuns.DropThenStuck`); otherwise it never does (`ChainMonitor.NeverStuck`).
- If a reorg goes below the retained chain and a parent cannot be fetched on the way, the monitor
  goes on with the number it asked for before, and its subscribers never see the blocks in between
  (`MonitorRuns.GapTurns`). Only then do the numbers have a gap (`MonitorRuns.NumberedExactly`).
- The range check at the end of the chain-watch tool refuses a feed that ends in the middle of a
  reorg (`ChainWatch.ReorgInProgress`), and refuses the empty feed.
- `CheckCompatible` can rewind too far, exactly if the stored schedule has Petersburg without
  Constantinople, or before a Constantinople after block one (`ForkSchedule.NeverTooFarExactly`,
  `ForkSchedule.StopsTooLow`). The comment at go-ethereum/params/config.go:596 speaks of the lowest
  conflict; that is what the ordered case gives.
- A moved Petersburg fork is accepted if it moved to Constantinople, although the rules of the blocks in
  between differ (`ForkSchedule.PetersburgMovesUnseen`); in no other rule do schedules
  that agree differ (`ForkSchedule.AgreedRules`).
- The signature parser drops empty tuples, and of a tuple whose inside is lost it keeps only the
  array suffix; without empty tuples nothing is lost (`SignatureText.ParsePrintedExactly`). It
  slices out of range if the last closing parenthesis precedes the first opening one; that crash
  is the error `SliceOutOfRange` of the model (`AbiSignature.CrossedParens`).
- `GetRoot` of a tree without leaves indexes an empty layer and panics; that crash is `None` in the
  model.
- `Verify` does not look at lengths, and a leaf hash is not told from a node. So it also accepts a
  proof that starts at an inner node, one that is carried up to a leaf by its first steps
  (`Merkle.VerifyAgainst`), and what was hashed for a node in place of a leaf hash
  (`Merkle.LengthsMatter`).

## Model

| member | source | states |
|---|---|---|
| `Rlp.EncPrefixFree` | go-ethereum/rlp/encode.go:104-134 | no encoding is a proper prefix of another: equal inputs `Enc(t)+x == Enc(u)+y` force `t == u` and `x == y` |
| `Rlp.EncInjective` | go-ethereum/rlp/decode.go:1038-1096 | every tree has exactly one encoding and every byte string encodes at most one tree |
| `Rlp.HeadUnique` | go-ethereum/rlp/encode.go:117-134 | a header in front of anything determines the announced size and what follows |
| `Integers.SwitchedIsMinimal` | go-ethereum/rlp/encode.go:431-486 | the shift-and-store switch writes the shortest big-endian digits of every uint64 |
| `BigEndian.DigitAt` | go-ethereum/rlp/encode.go:431-486 | the minimal string of a number consists of its base-256 digits, most significant first |
| `Integers.WordAt` | go-ethereum/rlp/encbuffer.go:161-173 | the words of a big integer are its base-2^64 digits, least significant first |
| `Integers.IntSize` | go-ethereum/rlp/encode.go:489-495 | the loop counts the bytes that the shortest form needs, at least one |
| `Integers.HeadSize` | go-ethereum/rlp/encode.go:117-122 | the announced header size is the length of the header actually written, for strings and lists |
| `Integers.ByteLength` | go-ethereum/rlp/encbuffer.go:152-161 | bit length rounded up to bytes is the length of the shortest form, for integers of any size |
| `Encoder.PutInt` | go-ethereum/rlp/encode.go:431-486 | stores exactly the shortest digits at the given place and nothing else |
| `Encoder.PutHead` | go-ethereum/rlp/encode.go:126-134 | stores exactly the list or string header at the given place and nothing else |
| `Encoder.MergeConcat` | go-ethereum/rlp/encbuffer.go:65-79 | writing more extends the merged output at its end and nowhere else |
| `Encoder.ExtendsList` | go-ethereum/rlp/encbuffer.go:194-207 | patching the deferred header turns the payload written since into a complete list encoding, nested headers included |
| `Encoder.EncBuffer.Size` | go-ethereum/rlp/encbuffer.go:54-56 | the announced size is the length of the merged output |
| `Encoder.EncBuffer.EncodeStringHeader` | go-ethereum/rlp/encbuffer.go:218-226 | appends the string header for the size |
| `Encoder.EncBuffer.WriteBool` | go-ethereum/rlp/encbuffer.go:113-119 | appends the encoding of 1 or 0 |
| `Encoder.EncBuffer.WriteUint64` | go-ethereum/rlp/encbuffer.go:121-132 | appends the encoding of the minimal big-endian string of the integer |
| `Encoder.EncBuffer.WriteBytes` | go-ethereum/rlp/encbuffer.go:134-142 | appends the string encoding, a single low byte as itself |
| `Encoder.EncBuffer.WriteBigInt` | go-ethereum/rlp/encbuffer.go:152-173 | the word-wise writer appends the encoding of the minimal string of the value of all words |
| `Encoder.WordBytes` | go-ethereum/rlp/encbuffer.go:161-173 | filling a zeroed buffer from its end, byte by byte out of the words, gives the minimal digits |
| `Encoder.EncBuffer.WriteUint256` | go-ethereum/rlp/encbuffer.go:176-190 | the 256-bit writer appends the encoding of the minimal string of the value |
| `Encoder.EncBuffer.ListStart` | go-ethereum/rlp/encbuffer.go:194-197 | remembers where the header goes and how many header bytes precede it |
| `Encoder.EncBuffer.ListEnd` | go-ethereum/rlp/encbuffer.go:199-207 | fills in the payload size, headers of nested lists included, and accounts for the new header |
| `Encoder.EncBuffer.WriteValue` | go-ethereum/rlp/encode.go:139-232 | writing a value of any kind, nil pointers and raw values included, extends the merged output by `Enc` of its tree, for every nesting |
| `Encoder.WrittenByKind` | go-ethereum/rlp/encode.go:139-232 | what stands for a value that is no list: 01 or 80 for a bool, the minimal digits for an integer of each width, C0 or 80 for nil, the bytes with their header for a string |
| `Encoder.ListWritten` | go-ethereum/rlp/encode.go:302-365 | what stands for a slice or a struct: a header for the rest, and the rest is the encodings of the elements one after another |
| `Encoder.EncBuffer.WriteItems` | go-ethereum/rlp/encode.go:302-340 | a list written as open, items, close extends the merged output by the list encoding |
| `Encoder.EncBuffer.CopyTo` | go-ethereum/rlp/encbuffer.go:65-79 | puts the merged output into the destination, within bounds, and touches nothing else |
| `Encoder.EncBuffer.MakeBytes` | go-ethereum/rlp/encbuffer.go:59-63 | returns the merged output |
| `Encoder.EncBuffer.AppendToBytes` | go-ethereum/rlp/encbuffer.go:371-376 | returns the given bytes followed by the merged output |
| `Encoder.EncBuffer.WriteTo` | go-ethereum/rlp/encbuffer.go:82-104 | sends the merged output piece by piece; if the writer fails, a prefix of it; it fails exactly if the writer reported an error |
| `EncoderOutput.EncodeToBytes` | go-ethereum/rlp/encode.go:77-85 | the flat buffer with deferred headers produces the recursive encoding of every value, which is given kind by kind; for a slice or struct it is a header and then the output of every element, in order |
| `EncoderOutput.EncReader.constructor` | go-ethereum/rlp/encode.go:92-102 | a reader starts with the whole output ahead |
| `EncoderOutput.EncReader.Read` | go-ethereum/rlp/encbuffer.go:237-257 | any sequence of chunk sizes yields the merged output without loss or repetition, each chunk full until the end; end of file exactly when all is out |
| `EncoderOutput.EncReader.Next` | go-ethereum/rlp/encbuffer.go:262-293 | the next piece, string data or a header in the shared scratch space, is the front of what remains |
| `Decoder.StartsUnique` | go-ethereum/rlp/decode.go:1038-1096 | at most one canonical header is at the front of any input |
| `Decoder.GoodHeadStarts` | go-ethereum/rlp/decode.go:1038-1120 | what the byte-by-byte header reader accepts is a header that the encoding writes |
| `Decoder.StartsGoodHead` | go-ethereum/rlp/decode.go:1038-1120 | every header that the encoding writes is accepted, with its kind and size |
| `Decoder.Stream.constructor` | go-ethereum/rlp/decode.go:964-998 | a zero limit, as for empty input, leaves a slice reader without a limit |
| `Decoder.Stream.WillRead` | go-ethereum/rlp/decode.go:1158-1174 | succeeds exactly if the bytes fit the innermost list and the input, and takes them from both; otherwise names the limit that was hit |
| `Decoder.Stream.ReadFull` | go-ethereum/rlp/decode.go:1123-1142 | succeeds exactly if there is room and input, and then returns the front of the input |
| `Decoder.Stream.ReadUint` | go-ethereum/rlp/decode.go:1098-1120 | accepts exactly big-endian numbers without a leading zero and returns their value |
| `Decoder.Stream.ReadKind` | go-ethereum/rlp/decode.go:1038-1096 | accepts exactly canonical headers that fit the innermost list |
| `Decoder.Stream.FreshKind` | go-ethereum/rlp/decode.go:1011-1036 | the announced size is checked against the list limit as it was before the header; exact condition for success |
| `Decoder.Stream.NextKind` | go-ethereum/rlp/decode.go:1011-1036 | reads the header once; end of list exactly when the innermost list is used up |
| `Decoder.Stream.Bytes` | go-ethereum/rlp/decode.go:635-656 | returns a string exactly if its canonical encoding is ahead and fits, and consumes that encoding |
| `Decoder.Stream.Uint` | go-ethereum/rlp/decode.go:742-773 | accepts exactly the encodings of integers within the width, and inverts them |
| `Decoder.Stream.BigInt` | go-ethereum/rlp/decode.go:848-889 | accepts exactly the encodings of integers of any size, and inverts them |
| `Decoder.Stream.Raw` | go-ethereum/rlp/decode.go:690-712 | returns exactly the bytes consumed, because only minimal headers pass and the header is rebuilt |
| `Decoder.Stream.ListStart` | go-ethereum/rlp/decode.go:796-815 | enters a list: the outer limit loses the size at once, and wraps exactly if header and list do not fit what was left before the header |
| `Decoder.Stream.ListEnd` | go-ethereum/rlp/decode.go:819-830 | leaves a list exactly if its limit is zero |
| `Decoder.Unwrapped` | go-ethereum/rlp/decode.go:796-830 | a wrapped limit cannot return to zero on finite input: only the exact size uses a list up |
| `Decoder.LimitWraps` | go-ethereum/rlp/decode.go:806-812 | on C1 C1 C0 the outer limit does wrap to 2^64-1, so limits are not bounded by the remaining input |
| `Decoder.Stream.DecodeInterface` | go-ethereum/rlp/decode.go:517-539 | an accepted value is the tree whose encoding was consumed; a tree that is ahead and fits is accepted |
| `Decoder.Stream.DecodeListSlice` | go-ethereum/rlp/decode.go:297-310 | the same for lists |
| `Decoder.Stream.DecodeSliceElems` | go-ethereum/rlp/decode.go:312-339 | elements are read until the limit is exactly used up, and are the list whose payload was consumed |
| `Decoder.DecodeBytes` | go-ethereum/rlp/decode.go:92-106 | accepts a byte string exactly if it is `Enc(t)` for some tree, returns that tree, and reports trailing bytes and empty input |
| `RoundTrip.EncodeDecode` | go-ethereum/rlp/decode.go:92-106 | encoding any value and decoding the bytes gives the tree the value stands for |
| `RoundTrip.DecodeEncode` | go-ethereum/rlp/encode.go:77-85 | an accepted byte string is reproduced byte for byte by encoding what was decoded |
| `Raw.ReadSize` | go-ethereum/rlp/raw.go:196-225 | accepts exactly sizes of at least 56 without a leading zero, and returns their value |
| `Raw.ShiftedIsValue` | go-ethereum/rlp/raw.go:200-218 | each of the eight shift-and-or cases is the big-endian value of the bytes and stays within 64 bits |
| `Raw.ReadKindHeader` | go-ethereum/rlp/raw.go:155-194 | the slice decoder accepts the headers the stream accepts, when the whole value is there and a single byte is not wrapped |
| `Raw.SplitExact` | go-ethereum/rlp/raw.go:80-86 | a split succeeds exactly on a canonically headed value, and returns its kind, content and rest |
| `Raw.SplitStringExact` | go-ethereum/rlp/raw.go:90-99 | succeeds exactly on a string encoding, with content and rest |
| `Raw.SplitUint64Exact` | go-ethereum/rlp/raw.go:103-127 | accepts exactly the encodings of 64-bit integers, and inverts them |
| `Raw.SplitListExact` | go-ethereum/rlp/raw.go:131-140 | succeeds exactly on a list header with its payload present |
| `Raw.CountValues` | go-ethereum/rlp/raw.go:143-153 | counts the values of every slice that falls into values; n for n concatenated encodings |
| `Raw.ValuesInExact` | go-ethereum/rlp/raw.go:143-153 | a slice falls into values in at most one way, and repeated splitting finds it |
| `Raw.TreesInPayload` | go-ethereum/rlp/raw.go:143-153 | the values found in concatenated encodings are those encodings, one by one |
| `Raw.AppendUint64Encodes` | go-ethereum/rlp/raw.go:228-296 | the append form writes the encoding of the integer |
| `Raw.BytesSize` | go-ethereum/rlp/raw.go:48-61 | announces the length of the string encoding |
| `Raw.ListSize` | go-ethereum/rlp/raw.go:65-67 | announces the length of a list encoding from its payload size; the 64-bit sum wraps exactly from 2^64-9 on |
| `Raw.EncodedIntSize` | go-ethereum/rlp/raw.go:71-76 | announces the length of the integer encoding |
| `Raw.ListIterator.Next` | go-ethereum/rlp/iterator.go:41-50 | yields the next value with its header and moves past it; an error stays where it is |
| `Raw.NewListIterator` | go-ethereum/rlp/iterator.go:26-38 | succeeds exactly on a list and starts at its payload |
| `Raw.IterateList` | go-ethereum/rlp/iterator.go:26-50 | iterating over an encoded list yields the exact bytes of every element, in order |
| `CanonicalChain.Chain.Push` | ethmonitor/chain.go:55-91 | a block is accepted exactly if it follows the head by hash and number; the oldest goes beyond the limit; a rejected block changes nothing |
| `CanonicalChain.PushKeeps` | ethmonitor/chain.go:55-91 | while there is room all blocks are kept and the new one comes on top; then the oldest one goes |
| `CanonicalChain.Chain.Pop` | ethmonitor/chain.go:93-106 | takes off and returns the newest block |
| `CanonicalChain.Chain.LatestFinalBlock` | ethmonitor/ethmonitor.go:1072-1084 | the block returned has number head-k, and there is one exactly if more than k blocks are retained |
| `CanonicalChain.Chain.BootstrapBlocks` | ethmonitor/bootstrap.go:28-64 | the chain is what pushing additions and popping removals gives, linked and within the limit; errors for wrong mode, second call and unlinked blocks |
| `CanonicalChain.BootstrapSuffix` | ethmonitor/bootstrap.go:46-63 | from any point on of any valid feed that never starts over at a root, removals included, bootstrapping succeeds and keeps the newest part of the chain the whole feed stands for |
| `CanonicalChain.BootstrapKeepsRun` | ethmonitor/bootstrap.go:46-63 | a linked run of additions bootstraps to exactly its newest blocks, although only the last events are looked at |
| `BlockEvents.RebuildReplay` | ethmonitor/ethmonitor.go:573-640 | removals down to a cut followed by linked additions are a valid feed and replay to the cut chain with the new blocks on top |
| `PublishQueue.SettleKeepsReplay` | ethmonitor/pubsub.go:70-111 | cancelling pairs never gets stuck on a valid feed, keeps the queue Removed* Added*, and keeps what published-then-queued events replay to |
| `PublishQueue.Queue.Enqueue` | ethmonitor/pubsub.go:70-111 | the queue after enqueuing is the cancelled queue; the mismatch error occurs exactly if cancelling gets stuck, overflow exactly above capacity |
| `PublishQueue.Queue.Dequeue` | ethmonitor/pubsub.go:113-151 | takes the longest publishable prefix if it ends in an addition, otherwise nothing |
| `PublishQueue.PublishableExact` | ethmonitor/pubsub.go:120-140 | counts the entries in front that are removed or ready, and within the limit if there is one, up to the first that is not |
| `PublishQueue.OutgoingExact` | ethmonitor/pubsub.go:115-152 | exactly these go out, if the last of them is an addition; otherwise none does |
| `PublishQueue.WaitingIs` | ethmonitor/pubsub.go:80-96 | the additions that wait are those at the end of the queue, back to the last removal |
| `PublishQueue.SettleExactly` | ethmonitor/pubsub.go:70-111 | the queue copes with every valid continuation exactly if its waiting additions agree from the top down with the chain |
| `PublishQueue.SettleKeepsNumbers` | ethmonitor/pubsub.go:70-111 | cancelling keeps every published and queued addition at the next number |
| `ChainMonitor.NothingReadded` | ethmonitor/ethmonitor.go:573-640 | a finished rebuild removes exactly the blocks above the highest common ancestor: no block is both removed and re-added |
| `ChainMonitor.NumbersLineUp` | ethmonitor/ethmonitor.go:573-640 | a rebuild that goes below the whole retained chain comes back with the number of its oldest block |
| `ChainMonitor.Monitor.BuildCanonicalChain` | ethmonitor/ethmonitor.go:573-640 | terminates; finished, failed or cancelled, chain and events are exactly the cut, the blocks put on top, none of which was taken off, and the events that say so; it fails exactly if a fetch failed, and has taken a block off then |
| `ChainMonitor.Monitor.Publish` | ethmonitor/ethmonitor.go:951-979 | enqueues, and sends exactly what is ready and within the trail; drops everything exactly if there is no subscriber; fails on a mismatch or a full queue |
| `ChainMonitor.Monitor.Rebuild` | ethmonitor/ethmonitor.go:536-545 | carried events are extended across failures; the step is a step of the transition relation |
| `ChainMonitor.Monitor.Step` | ethmonitor/ethmonitor.go:491-570 | one turn of the loop, for every behaviour of provider, context and subscribers, is a step of the transition relation; it does nothing exactly if the monitor has ended, the head is not new or the fetch failed, and what a finished rebuild made is published and cleared |
| `ChainMonitor.RebuildKeeps` | ethmonitor/ethmonitor.go:536-545 | any rebuild keeps: the retained chain is a suffix of the replay of every event so far, pending ones included |
| `ChainMonitor.PublishKeeps` | ethmonitor/ethmonitor.go:951-979 | publishing keeps: published then queued events replay to the same chain as everything handed over |
| `ChainMonitor.RunKeeps` | ethmonitor/ethmonitor.go:478-571 | the invariant holds in every state of every run |
| `ChainMonitor.StuckMeansLost` | ethmonitor/pubsub.go:80-96 | the mismatch error needs a publish that was dropped while an addition waited in the queue |
| `ChainMonitor.NeverStuck` | ethmonitor/pubsub.go:80-96 | in every run without such a drop the mismatch error is unreachable |
| `MonitorRuns.DropThenStuck` | ethmonitor/ethmonitor.go:951-957 | every run that reaches a waiting addition can go on to the mismatch error: the next block is dropped, then replaced; the blocks are new and the provider stays honest |
| `MonitorRuns.MismatchRun` | ethmonitor/pubsub.go:80-96 | a run from the start that reaches the mismatch error |
| `ChainMonitor.SubscriberView` | ethmonitor/ethmonitor.go:951-979 | at every point of every run without dropped publishes the published feed is valid at every prefix and batches end in additions; until cancellation, the retained chain is the newest part of the replay of published, queued and pending events |
| `ChainMonitor.CaughtUp` | ethmonitor/ethmonitor.go:560-568 | after every turn of every run whose rebuild finished nothing is pending; without drops, published and queued events replay to the replay of all events ever made, and the retained chain is the newest part of it |
| `ChainMonitor.RootsAreRestarts` | ethmonitor/ethmonitor.go:573-640 | the feed starts over only at blocks that a turn added first after taking off all that was retained of a longer chain |
| `ChainMonitor.RunMonitor` | ethmonitor/ethmonitor.go:478-571 | running the loop any number of turns is a run of the transition relation and ends in the invariant |
| `MonitorRuns.NumberedExactly` | ethmonitor/ethmonitor.go:497-515 | over any run every addition has the next number exactly if no turn adds blocks on a retained chain that an earlier turn left empty |
| `MonitorRuns.RestartBreaks` | ethmonitor/ethmonitor.go:505-515 | a turn that does so leaves a gap, whatever the provider answers, because it asks for the old number again |
| `MonitorRuns.PublishedNumbers` | ethmonitor/ethmonitor.go:951-979 | otherwise every prefix of the published feed is numbered and its chain counts up |
| `MonitorRuns.GapTurns` | ethmonitor/ethmonitor.go:617-624 | every run that reaches one retained block and an empty queue can go on to such a gap: the block goes, the parent fetch fails, the number after it is published |
| `MonitorRuns.GapRun` | ethmonitor/ethmonitor.go:617-624 | such a run from the start: block 5 is added, removed, and followed by block 6 |
| `ChainWatch.FeedCheck` | cmd/chain-watch/summary.go:217-303 | accepts a feed exactly if its numbers walk up and down one by one from the first and end at the highest they reached |
| `ChainWatch.WalksExactly` | cmd/chain-watch/summary.go:241-288 | a feed whose removals name the newest block passes all event checks exactly if every addition has the next number |
| `ChainWatch.ValidFeedWalks` | cmd/chain-watch/summary.go:241-288 | a valid feed passes all event checks exactly if, whenever its chain has run empty, it goes on with the number it began with |
| `ChainWatch.PublishedFeedWalks` | cmd/chain-watch/summary.go:241-288 | the published feed passes them at every point of every run without dropped publishes and without restarts on an emptied chain |
| `ChainWatch.GapIsNoticed` | cmd/chain-watch/summary.go:266-276 | after such a restart it need not: a run whose published feed is valid and fails the checks |
| `ChainWatch.ReorgInProgress` | cmd/chain-watch/summary.go:290-303 | the final range check rejects valid feeds: every feed that has just grown can go on with half a reorg and is refused |
| `EventFeed.StepKeeps` | go-ethereum/event/feed.go:73-194 | no step of any goroutine breaks the invariant, and find before delete never returns -1 |
| `EventFeed.RunKeeps` | go-ethereum/event/feed.go:73-194 | in every interleaving, inbox plus cases are as a multiset the channels of subscriptions not yet removed |
| `EventFeed.RunCounts` | go-ethereum/event/feed.go:73-194 | in every interleaving a channel is in the inbox and among the cases as often as it was subscribed, less its completed unsubscriptions; those begun and not completed are the waiting ones |
| `EventFeed.StepCounts` | go-ethereum/event/feed.go:73-194 | what each step does to these numbers |
| `EventFeed.EndOfSend` | go-ethereum/event/feed.go:120-180 | a finished send delivered to every case exactly once, except those removed while waiting; the result is the number of deliveries |
| `EventFeed.SendDelivers` | go-ethereum/event/feed.go:120-180 | in every run, what the Deliver steps of one Send served and what was removed from under it are together the channels subscribed when it took the send lock |
| `EventFeed.SendingRecords` | go-ethereum/event/feed.go:120-180 | at every moment of a send its books are exactly the steps made since it began |
| `EventFeed.SelectProgress` | go-ethereum/event/feed.go:145-172 | every outcome of Select makes cases plus waiting cases smaller, so a send terminates |
| `EventFeed.SwapOutMultiset` | go-ethereum/event/feed.go:218-222 | deactivating moves exactly the chosen case out of the waiting prefix |
| `FeedCode.FindCase` | go-ethereum/event/feed.go:203-210 | finds the first case with the channel, or reports that there is none |
| `FeedCode.DeactivateSplit` | go-ethereum/event/feed.go:218-222 | the in-place swap, seen from both sides of the boundary |
| `FeedCode.Feed.Subscribe` | go-ethereum/event/feed.go:73-93 | the code of Subscribe is the Subscribe step; inbox and cases together gain exactly the channel |
| `FeedCode.Feed.StartRemove` | go-ethereum/event/feed.go:95-106 | removing from the inbox, or starting to wait, is the StartRemove step; exactly one occurrence leaves the inbox, or exactly one unsubscriber waits |
| `FeedCode.Feed.RemoveIdle` | go-ethereum/event/feed.go:108-116 | deleting a case with the send lock held is the RemoveIdle step; the search cannot fail, and the cases lose exactly the channel |
| `FeedCode.Feed.Send` | go-ethereum/event/feed.go:120-180 | terminates for all outcomes of TrySend and Select; it is BeginSend, possible inner steps and EndSend of the machine; the channels that took the value and those removed while pending are together the snapshot, and the result counts the first |
| `FeedCode.DuringIsRun` | go-ethereum/event/feed.go:120-180 | the steps of the code of Send are a part of a run of the machine, and the channels that took the value are those of its Deliver steps |
| `FeedCode.CanLeave` | go-ethereum/event/feed.go:95-106 | a channel can be unsubscribed exactly as long as it is subscribed more often than it is being removed |
| `FeedCode.Feed.FastPath` | go-ethereum/event/feed.go:144-155 | the non-blocking pass is a sequence of steps of the send |
| `FeedCode.Feed.Select` | go-ethereum/event/feed.go:159-172 | a blocking choice is one removal or delivery and makes the remaining work smaller |
| `AbiSignature.FindParensCloseIndex` | ethcoder/abi_sig_parser.go:305-318 | the loop finds where the depth first returns to zero |
| `AbiSignature.ParsePieces` | ethcoder/abi_sig_parser.go:166-208 | the loop that builds one string of types builds the joined types, with their flags and names |
| `AbiSignature.PiecesPaired` | ethcoder/abi_sig_parser.go:166-208 | every comma-separated piece adds a type, a flag and a name together, or nothing |
| `AbiSignature.ParseABISignatureArgs` | ethcoder/abi_sig_parser.go:87-232 | the recursive parser with its loops computes the tree; it terminates on every input |
| `AbiSignature.GroupedLengths` | ethcoder/abi_sig_parser.go:234-303 | regrouping keeps one type, one flag and one name together |
| `AbiSignature.ParsedLengths` | ethcoder/abi_sig_parser.go:8-72 | every accepted signature has equally many types, flags and names, and no empty type |
| `AbiSignature.ParseABISignature` | ethcoder/abi_sig_parser.go:8-72 | the whole parser with its loops; lists of equal length, no empty name, and numIndexed is the number of arguments marked indexed |
| `AbiSignature.CountsPlaces` | ethcoder/abi_sig_parser.go:61-67 | the counting loop counts the places where the flag is set |
| `Text.DecimalDigit` | ethcoder/abi_sig_parser.go:52-58 | the number in a positional name is written in its decimal digits |
| `AbiSignature.StringOf` | ethcoder/abi_sig.go:19-37 | the loop prints the arguments with flags and names separated by commas, or reports unequal lists |
| `SignatureText.ClosesAt` | ethcoder/abi_sig_parser.go:305-318 | the parenthesis that opens a printed tuple is closed by the one after its arguments, however deep they nest |
| `SignatureText.CutIs` | ethcoder/abi_sig_parser.go:98-164 | around a printed tuple the text is cut into what precedes it, its inside, array suffix, flag, name, and what follows |
| `SignatureText.GroupBuilt` | ethcoder/abi_sig_parser.go:234-303 | the tree of elementary arguments, a tuple or none, and a rest groups to the canonical text and lists of all of them |
| `SignatureText.PrintedIsParsed` | ethcoder/abi_sig_parser.go:87-303 | every printed list of well-formed arguments, empty tuples included, is parsed into a tree that groups to the canonical form of what pruning leaves |
| `SignatureText.ParsePrinted` | ethcoder/abi_sig_parser.go:8-72 | for every well-formed argument tree, with any space after commas, parsing yields canonical signature and types, flags, and names or positional names, of the tree without its empty tuples |
| `SignatureText.MeaningAt` | ethcoder/abi_sig_parser.go:48-67 | what must be returned, argument by argument: canonical type, flag, and name or position counted from one; and the number of indexed arguments |
| `SignatureText.ParsePrintedExactly` | ethcoder/abi_sig_parser.go:210-232 | a well-formed signature is parsed into what it says exactly if no tuple in it, at any depth, is empty |
| `SignatureText.CanonicalFixedPoint` | ethcoder/abi_sig_parser.go:8-72 | whatever a well-formed text is parsed into, its canonical signature is parsed into itself, with the same types |
| `SignatureText.StringIsParsedBack` | ethcoder/abi_sig.go:19-37 | whatever a well-formed text is parsed into, what String prints for it is parsed into the same signature |
| `SignatureText.ParsePrintParse` | ethcoder/abi_sig.go:19-37 | parse, print and parse again with the methods gives the same signature twice; it is the one written exactly without empty tuples |
| `AbiSignature.CrossedParens` | ethcoder/abi_sig_parser.go:29-33 | on the text `)(` the slice between the parentheses has its ends crossed |
| `Merkle.MerkleTree.constructor` | ethcoder/merkle_proof.go:55-76 | leaves are kept as given, or arranged by hash; all layers are built unless some leaf does not hash |
| `Merkle.MerkleTree.CreateHashes` | ethcoder/merkle_proof.go:78-99 | the nested loops build the layers of the recursive definition |
| `Merkle.MerkleTree.GetRoot` | ethcoder/merkle_proof.go:101-106 | returns the single node of the top layer, nothing if a leaf did not hash, and fails exactly on a tree without leaves |
| `Merkle.MerkleTree.GetProof` | ethcoder/merkle_proof.go:108-141 | fails exactly if the leaf does not hash or its hash is not in the tree; else the path of a leaf with that hash |
| `Merkle.MerkleTree.Verify` | ethcoder/merkle_proof.go:152-191 | accepts exactly if climbing from the leaf hash along the proof ends at the root; errors for missing proof, leaf or root |
| `Merkle.PairUpAt` | ethcoder/merkle_proof.go:78-99 | the parent of node i is the hash of it and its sibling in their order, or the node itself |
| `Merkle.PairHash` | ethcoder/merkle_proof.go:78-99 | a node with two below it is the hash of the left one followed by the right one, or with sorted pairs of the smaller one followed by the greater |
| `Merkle.CompareLexicographic` | ethcoder/merkle_proof.go:172-178 | the order is lexicographic by bytes, a proper prefix first |
| `Merkle.ClimbIsCombine` | ethcoder/merkle_proof.go:162-188 | the step of the verifier is the step of the builder, with sorted pairs and without |
| `Merkle.ProofReachesRoot` | ethcoder/merkle_proof.go:108-191 | from every leaf the proof climbs to the root |
| `Merkle.LayerCount` | ethcoder/merkle_proof.go:78-99 | there are ceil(log2 n)+1 layers |
| `Merkle.CeilLog2Exact` | ethcoder/merkle_proof.go:108-141 | the bound on proof length is the least k with n <= 2^k |
| `Merkle.RootNonEmpty` | ethcoder/merkle_proof.go:152-160 | the root is not empty, so that Verify does not refuse it |
| `Merkle.RootIgnoresOrder` | ethcoder/merkle_proof.go:55-76 | with sorted leaf hashes the root depends only on which leaves there are |
| `Merkle.ProveAndVerify` | ethcoder/merkle_proof.go:108-191 | in all four sort modes the proof of every leaf verifies against the root and has at most ceil(log2 n) entries |
| `Merkle.SameRoot` | ethcoder/merkle_proof.go:55-106 | with sorted leaves, two trees over the same leaves in any order have the same root, or both none |
| `Merkle.AcceptedIsInTree` | ethcoder/merkle_proof.go:152-191 | a proof of 32-byte entries that climbs to the root is from some point on the path of the tree itself, starting at a node of any layer or carried up to a leaf by the steps before, or one of its steps hashes something else than the builder did, to the same hash |
| `Merkle.FollowingIsAccepted` | ethcoder/merkle_proof.go:152-191 | every proof that joins the path of the tree climbs to the root |
| `Merkle.LayerReachesRoot` | ethcoder/merkle_proof.go:152-191 | from every node of every layer, its path climbs to the root |
| `Merkle.VerifyAgainst` | ethcoder/merkle_proof.go:101-191 | Verify against GetRoot accepts every proof that joins the path of the tree, and no other of 32-byte entries unless it clashes with something hashed for the tree |
| `Merkle.LengthsMatter` | ethcoder/merkle_proof.go:162-188 | without the lengths this fails: the 64 bytes hashed for two leaves, with an empty sibling, are accepted outside the tree and without a clash |
| `ForkSchedule.FirstConflictMeans` | go-ethereum/params/config.go:682-751 | no conflict exactly where the configurations agree; otherwise a rewind in one coordinate, strictly back or to zero, and tight if Petersburg is in place |
| `ForkSchedule.AgreeEarlier` | go-ethereum/params/config.go:850-892 | conflicts are upward closed: configurations that agree at a head agree at every earlier one |
| `ForkSchedule.CheckCompatible` | go-ethereum/params/config.go:591-612 | terminates; no error exactly if the same forks are active in both schedules at every block and time up to the head, the settings of active forks are equal, and Petersburg has not moved except to Constantinople; otherwise stops at the greatest agreeing point below it, or rewinds to genesis |
| `ForkSchedule.AgreeMeans` | go-ethereum/params/config.go:682-751 | agreement of the tests is that of the schedules, fork by fork |
| `ForkSchedule.AgreedRules` | go-ethereum/params/config.go:925-953 | schedules that agree at a head had the same rules at every block and time up to it, exactly if the Petersburg rules start in both at the same block or above the head |
| `ForkSchedule.PetersburgMovesUnseen` | go-ethereum/params/config.go:710-716 | if Petersburg is stored after Constantinople, moving it to Constantinople is accepted at every head although the rules in between were others |
| `ForkSchedule.NeverTooFarExactly` | go-ethereum/params/config.go:710-716 | no comparison with a stored schedule ever rewinds further than needed, exactly if its Petersburg is in place |
| `ForkSchedule.RewindTooFar` | go-ethereum/params/config.go:710-716 | for every stored schedule with Petersburg out of place there is a new one and a head where the first rewind goes too far |
| `ForkSchedule.StopsTooLow` | go-ethereum/params/config.go:591-612 | there the loop of `CheckCompatible` stops below a block at which the configurations agree |
| `ForkSchedule.OrderedPetersburgInPlace` | go-ethereum/params/config.go:616-680 | a stored schedule in order satisfies the condition for tight rewinds |
| `ForkSchedule.OneComparisonSuffices` | go-ethereum/params/config.go:644-677 | comparing with the last kept fork compares with every earlier one |
| `ForkSchedule.CheckConfigForkOrder` | go-ethereum/params/config.go:616-680 | succeeds exactly if every two forks are in order, optional ones that are not enabled apart; and that is, fork by fork, the order of the official networks |
| `ForkSchedule.OrderMeans` | go-ethereum/params/config.go:616-680 | all pairs of the list are in order exactly if the schedule has the official order |
| `ForkSchedule.OrderedRulesNested` | go-ethereum/params/config.go:925-953 | in an ordered schedule each active rule implies every earlier mandatory one, at every block and time |
| `GasGauge.Tally` | ethgas/ethgas.go:319-346 | every price is counted once, in its bucket |
| `GasGauge.GasPriceHistogram` | ethgas/ethgas.go:291-358 | before trimming the buckets hold exactly the rounded prices, in order; the result is the trimmed prefix |
| `GasGauge.TrimOutliers` | ethgas/ethgas.go:394-423 | keeps a non-empty prefix in order of value, cut before the first doubling in the last quarter |
| `GasGauge.PercentileValue` | ethgas/ethgas.go:425-457 | returns the sample of that rank among all samples in order, or the greatest |
| `GasGauge.SamplesInOrder` | ethgas/ethgas.go:425-457 | percentiles are monotone in the rank |
| `GasGauge.SampleWithin` | ethgas/ethgas.go:291-358 | samples of the trimmed histogram lie between the least and the greatest price |
| `GasGauge.SamplePrices` | ethgas/ethgas.go:460-472 | the samples at 70, 60 and 50 percent; zeros if there is no bucket |
| `GasGauge.Ema.Tick` | ethgas/ema.go:23-34 | the new value is the weighted mean of price and value, rounded down; for decay one half the mean; the first price is taken as it is |
| `GasGauge.BlendHalf` | ethgas/ema.go:23-34 | the weighted mean in reals, truncated, is for decay one half the integer mean rounded down |
| `GasGauge.TickKeepsOrder` | ethgas/ema.go:23-34 | for any decay between zero and one, one tick of all four averages keeps their order and their bounds |
| `GasGauge.Emas.Update` | ethgas/ethgas.go:245-289 | each average takes in its own sample; nothing changes without prices or with a zero sample |
| `GasGauge.QuoteWithin` | ethgas/ethgas.go:251-269 | a block whose prices are at least the minimum contributes ordered prices between the minimum and its greatest price |
| `GasGauge.QuoteExact` | ethgas/ethgas.go:251-269 | the four prices are the three samples and 85 percent of the last rounded down, each raised to the minimum |
| `GasGauge.TickedHalf` | ethgas/ema.go:23-34 | each average becomes the mean of itself and its own price |
| `GasGauge.PaidExact` | ethgas/ethgas.go:180-228 | every price that is not below the minimum is counted as often as it was paid, and no other |
| `GasGauge.WithMinSensible` | ethgas/ethgas.go:56-80 | raising to the minimum keeps the order in wei and in gwei |
| `GasGauge.Gauge.NewBlock` | ethgas/ethgas.go:180-228 | the averages take in the quote of the histogram of the paid prices and give the suggestion, or nothing changes without paid prices; they stay ordered and between the minimum and the greatest price of all blocks so far |
| `GasGauge.Gauge.SuggestedGasPrice` | ethgas/ethgas.go:145-155 | what is handed out are the averages unchanged in wei and rounded in gwei, or the minimum before the first block; ordered, at least the minimum and at most the greatest price, in both units |
| `GasGauge.RunGauge` | ethgas/ethgas.go:161-230 | over any sequence of blocks every suggestion handed out satisfies this |

## Left out

- Reflection and the type cache of RLP (`makeWriter`, `makeDecoder`, struct tags with optional and tail fields, `typecache.go`): values are a datatype instead, and decoding is into an empty interface.
- `Stream.ReadUint256`, `ReadBytes`, `Bool`, `Decode` into typed values: the same code as the modelled reads with other bounds.
- Decoder.Stream.constructor: the reader is a slice reader whose length is the input limit, as in `DecodeBytes`; the limits that the code finds for other readers, and readers that fail halfway, are not modelled. Inputs are shorter than 2^63 bytes, as every Go slice is.
- Encoder.EncBuffer.WriteValue: a raw value is the encoding of some tree; the code would copy any bytes. Negative big integers, which the code refuses, are not values of the model.
- EncoderOutput.EncReader.Read: the caller's slice is given by its length and the bytes stored into it are returned; returning the buffer to the pool is a flag.
- Networking, caching, retries of single fetches, logs and JSON in `ethmonitor`: each fetch is one call to a provider that answers or fails. Whether the logs of a block have arrived is chosen freely at every dequeue.
- ChainMonitor.Monitor.BuildCanonicalChain: the provider is assumed to be well formed: a block fetched by hash has that hash, one fetched by number has that number, and a block's number is its parent's plus one. The base case of the code appends its event before push can reject the block, so without this the events could be wrong.
- ChainMonitor.Monitor.Publish: the trail-behind limit is modelled with wrapping subtraction, but nothing is stated about which blocks it lets through while the head is at or below the trail.
- ChainMonitor.SubscriberView: stated for runs in which no publish found the subscriber list empty, because the code drops events then; and about the retained chain only until cancellation, because the code forgets pending events then.
- ChainWatch.PublishedFeedWalks: stated for a monitor that starts without a chain; after a bootstrap the tool does not know the blocks from before the feed.
- `averageBlockTime` of the chain, the pauses and timers of the monitor loop, and the searches `GetBlock` and `GetTransaction`.
- Slot 0 of the case list (`removeSub`) of the feed, the type checks of `Subscribe` and `Send`, and `FeedOf`, which is the same algorithm; a case is its channel.
- EventFeed.StepKeeps: the send lock and the mutex are the `Enabled` conditions of steps; fairness, that is that a blocked sender is ever woken, is not modelled.
- The signature hash, `ToABI`, and texts that no argument tree prints in the round trips; termination and equal lengths are for all texts. Strings are sequences of characters, not of bytes.
- SignatureText.ParsePrinted: one gap of white space is used after all commas; space elsewhere, as after an opening parenthesis, is not covered by the round trip.
- The Keccak hash of the Merkle tree is any function with 32-byte results; `sort.Slice` is an insertion sort with the same contract; node slices are values, so the aliasing that `append(left, right...)` may cause is not modelled. `GetHexProof` is left out.
- ForkSchedule.CheckCompatible: block numbers and times are unbounded naturals; every rewind lies below the head, so the cast to 64 bits loses nothing. The texts of the errors are left out.
- `LatestFork`, `Description` and the network presets of `params`.
- GasGauge.Ema.Tick: computed in reals; the big floats of the code give the same for decay one half, which is what the gauge uses, and prices below 2^63.
- GasGauge.PercentileValue: the floating-point product that gives the rank is any function that is monotone in the percentile; results hold for all of them.
- The gauge follows one price reader; the code runs the same steps twice, for bids and for paid prices. Sorting the price list before the histogram is left out, as the histogram does not depend on the order.
- `ethreceipts`, EIP-712 typed data, transaction and wallet code, `ethrpc`, `ethclient`, the command line tools other than the feed check, and generated bindings.
