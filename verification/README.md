# A verified model of dial9

This project models the parts of dial9 whose correctness spans many calls, and proves what they
promise: the self-describing trace format (an encoder and three decoders), the recording pipeline
with its rotating writer, and the smaller algorithms beside them (the perf ring buffer reader, two
analyses, the tracker wheel, the tracepoint mapping and the offline symbolizer).
`dafny verify dfyconfig.toml` checks all of it.

## How it is organised

- **Trace format.** `Wire`, `Leb128`, `Utf8`, `Types`, `ZeroCopy`, `Schema`, `Codec` describe bytes:
  each form has a writing function and a parsing function from bytes to a value and the bytes left.
  The central fact is that every parser is self-delimiting, although frames carry no length.
  `Decoding` and `Visitor` are the decoders as transition systems over a byte string, `Encoding` the
  encoder as a transition system that appends bytes and logs the frames they stand for.
  `RoundTrip` puts the two side by side: after every call a decoder that has read exactly the bytes
  written so far is in the encoder's state. `Meaning` says, apart from any parser, what bytes stand
  for, and `Answers` what each call of the encoder answers. `FrameIo`, `TraceEncoder` and
  `TraceDecoder` are the loops and the objects, proved against those functions.
- **Recording.** `Telemetry` holds the runtime events and their schemas, `Segments` what one segment
  file contains, `SegmentReading` what readers find in it. `Rotation` is the writer as a transition
  system over all segments ever opened, `RotatingWriter` the object with its deque, its encoder and
  its directory. `Collector` has the per-thread buffer and the bounded queue, `Flushing` one flush
  cycle. `Pipeline` interleaves threads step by step, each step one access to shared state;
  `PipelineOrder` and `Shutdown` are what holds in every reachable state and at the end.
- **Beside them.** `RingBuffer`, `Sorting`, `WakeDelays`, `SampledPolls`, `TaskDump`, `Tracepoint`,
  `Symbolize` (what is looked up and written) and `SymbolizedTrace` (from the input to a reader of
  the longer trace).

Clock readings, thread ids, what a producer adds to the ring buffer, what a symbol lookup answers
and what a sentinel holds when it is looked at are parameters. File operations succeed.

## What callers must see to

These are the demands the code makes without checking them; they appear as preconditions.

- Names and counts of a schema fit 16 bits; strings, byte arrays, stack frames and maps fit 32 bits.
- Ids are not exhausted: fewer than 65,535 schemas and fewer than 4,294,967,295 strings in a stream.
  For segments the first is proved, not assumed.
- A typed event's values have the kinds of its schema. `write_event` checks only how many there are;
  which values survive that is stated exactly by `Types.UntypedRoundTrip`.
- Schemas come from `Schema::new`, which always asks for timestamps.
- A decoder that is turned into an encoder has not seen schema id 65,535 or string id 4,294,967,295.
- A trace that is symbolized has no other schema by the name of the symbol entries, and ids left for
  them and their strings (`SymbolizedTrace.RoomFor`).
- Records in the ring buffer state their own size, which is at least eight bytes.

## Where the code and its comments differ

The model follows the code.

- `bytes_written` says it includes the file header (dial9-trace-format/src/encoder.rs:207); the count
  starts behind it. Tracked sizes are five bytes per file below the real ones (`Rotation.RealSize`).
- `reset_registry_and_pools` says it resets the timestamp base (dial9-trace-format/src/encoder.rs:382);
  it does not. `reset_to` does.
- The zero-copy decoder slices a string map's last value without a bounds check
  (dial9-trace-format/src/types.rs:359-364), where the owned decoder answers with nothing. The input on
  which that happens is characterised exactly (`ZeroCopy.ZeroCopyAgrees`), for whole events and whole runs too
  (`Codec.ValuesAgree`, `Decoding.RunsAgree`).
- The visitor adds the timestamp delta unchecked (dial9-trace-format/src/decoder.rs:423), the frame
  decoder with a check (dial9-trace-format/src/codec.rs:313). The sum wraps in the model; the two
  readers differ exactly on such a frame. What `symbolize_trace_with_maps` appends behind one is lost
  to frame decoders.
- On a schema conflict the decoder's cache is overwritten before the registry refuses
  (dial9-trace-format/src/decoder.rs:215-220). Behind the first conflict the two still agree if the
  schemas differ in the names of their fields only, and otherwise not (`Decoding.RunKeepsCache`).
- `stop_flush_thread` is described as draining the caller's buffer last
  (dial9-tokio-telemetry/src/telemetry/recorder/mod.rs:249-251); it drains it first, and that is what
  makes the promise hold.
- An empty batch can seal an empty segment when header and metadata alone exceed the file limit
  (dial9-tokio-telemetry/src/telemetry/writer.rs:438-444). `Rotation.SealsEmptyExactly` says when.
- Queue depths are cast to one byte (dial9-tokio-telemetry/src/telemetry/writer.rs:327, 347, 359, 368),
  so they come back modulo 256.
- Wake delays are described as exceeding the threshold
  (dial9-tokio-telemetry/src/telemetry/analysis.rs:614); a delay equal to it is reported as well.
- Tracepoint fields of size 3, 5, 6 or 7 are numbers in the schema and bytes as values
  (perf-self-profile/src/tracepoint.rs:412-415 against 365-374).

## Model

| member | source | states |
|---|---|---|
| Leb128.RoundTrip | dial9-trace-format/src/leb128.rs:6-36 | A u64 written as LEB128 reads back exactly, with anything after it, in 1 to 10 bytes |
| Leb128.Shortest | dial9-trace-format/src/leb128.rs:6-36 | No accepted byte string for a value is shorter than the one the encoder writes |
| Leb128.Encode | dial9-trace-format/src/leb128.rs:6-16 | The buffer loop writes the digits of the value, least significant first |
| Leb128.Decode | dial9-trace-format/src/leb128.rs:20-36 | The shift loop reads what the recursive definition reads: it stops after ten bytes and drops what does not fit a u64 |
| Leb128.ReadsNumber | dial9-trace-format/src/leb128.rs:20-36 | A number is read if and only if at most ten bytes in front, seven bits each with the top bit on all but the last, make it up; what does not fit 64 bits is dropped |
| Leb128.WritesNumber | dial9-trace-format/src/leb128.rs:6-16 | What is written for a number is such bytes, the low bits first |
| Utf8.LossyOfValid | dial9-trace-format/src/types.rs:153-163 | The lossy conversion leaves a well-formed string alone, so trying UTF-8 first changes nothing |
| Utf8.ValidExactly | dial9-trace-format/src/types.rs:153-163 | A string is well-formed if and only if it is made of the encodings of Unicode scalar values |
| Utf8.LossyReplaces | dial9-trace-format/src/types.rs:153-163 | Text in front of a broken part stays; the longest start of a character there, or one byte, becomes U+FFFD |
| Types.TagRoundTrip | dial9-trace-format/src/types.rs:84-101 | A tag byte names a field type exactly when it is that type's tag |
| Types.FieldRoundTrip | dial9-trace-format/src/types.rs:544-640 | A typed field reads back as written under its type, whatever bytes follow |
| Types.UntypedRoundTrip | dial9-trace-format/src/types.rs:104-219 | A value written by its own form reads back under a schema type if and only if the type is the value's own, or it is a number below 128 in a U8 field |
| Types.DecodeValueExtends | dial9-trace-format/src/types.rs:143-219 | A value is self-delimiting: bytes after it change neither the value nor the length, and a value that ends before them decodes without them |
| Types.Decode | dial9-trace-format/src/types.rs:143-219 | The byte-offset decoder with its loops over frames and pairs computes the specification |
| Meaning.ReadsExactly | dial9-trace-format/src/types.rs:143-219 | The owned decoder reads a value of a type if and only if the bytes in front stand for it: any nonzero byte is true, broken text stands for its patched form, and nothing else is accepted |
| Types.DecodeStackFrames | dial9-trace-format/src/types.rs:184-195 | The frame loop reads `count` addresses or fails when the input ends |
| Types.DecodeStringMap | dial9-trace-format/src/types.rs:196-216 | The pair loop reads `count` key-value pairs or fails when the input ends |
| ZeroCopy.ZeroCopyAgrees | dial9-trace-format/src/types.rs:296-371 | Owned and borrowed decoding of a value agree for every byte string: both fail, or both consume the same bytes and hold the same data; the borrowed decoder refuses a string that is not UTF-8, and slices out of bounds exactly when the last string-map value overruns |
| ZeroCopy.OverrunPanics | dial9-trace-format/src/types.rs:343-366 | A map of one pair whose value claims a byte that is not there: the owned decoder fails, the zero-copy decoder panics |
| ZeroCopy.SkipAgrees | dial9-trace-format/src/types.rs:343-366 | The scan over a string map ends where the owned pairs end, and overruns exactly on the last value |
| ZeroCopy.Borrow | dial9-trace-format/src/types.rs:299-371 | The borrowed decoder, map scan included, computes the specification |
| ZeroCopy.StackFrameIter.Next | dial9-trace-format/src/types.rs:391-400 | Each call yields the next address and keeps the rest |
| ZeroCopy.StringMapIter.Next | dial9-trace-format/src/types.rs:426-443 | Each call yields the next pair; the iterator ends at the first pair that is not UTF-8 |
| Schema.SchemaRegistry.Register | dial9-trace-format/src/schema.rs:41-53 | Inserts a schema, accepts the same one again, refuses a different one and leaves the registry alone |
| Schema.SchemaRegistry.NextTypeId | dial9-trace-format/src/schema.rs:64-68 | Hands out the next id and moves on by one |
| Schema.SchemaRegistry.SyncNextId | dial9-trace-format/src/schema.rs:74-80 | The next id becomes one past the largest registered id, in whatever order the map is walked |
| Schema.SchemaRegistry.Clear | dial9-trace-format/src/schema.rs:35-38 | Nothing is registered and ids start again at zero |
| Codec.SchemaRoundTrip | dial9-trace-format/src/codec.rs:100-119 | A schema frame reads back as its id and entry, with any bytes after it |
| Codec.PoolRoundTrip | dial9-trace-format/src/codec.rs:140-149 | A string-pool frame reads back as its entries, with any bytes after it |
| Codec.ResetRoundTrip | dial9-trace-format/src/codec.rs:162-178 | A timestamp reset reads back as its timestamp, with any bytes after it |
| Codec.EventRoundTrip | dial9-trace-format/src/codec.rs:123-138 | An event frame reads back with its timestamp rebuilt from base and delta, given values that read back under the schema |
| Codec.DecodeFrameExtends | dial9-trace-format/src/codec.rs:162-269 | Frames have no length prefix and are still self-delimiting: a decoded frame and its length do not depend on what follows |
| Meaning.FramesReadExactly | dial9-trace-format/src/codec.rs:162-269 | The owned decoder reads a frame if and only if the bytes in front stand for it, tag by tag, values by the known schemas and the time from the base: nothing else is accepted |
| Meaning.HeaderReadExactly | dial9-trace-format/src/codec.rs:153-159 | A header is the four magic bytes and a version |
| Codec.ValuesAgree | dial9-trace-format/src/codec.rs:218-352 | The two value loops agree if and only if, when all values are there, no string among them is broken and no map overruns, and when they are not, no map overruns before a value both refuse; the zero-copy one panics exactly at an overrun |
| Codec.BrokenTextDiffers | dial9-trace-format/src/types.rs:311-316 | One byte that is not UTF-8: the owned decoder reads the string, the zero-copy decoder refuses it |
| Codec.FramesAgree | dial9-trace-format/src/codec.rs:274-352 | For every byte string the two frame decoders agree if and only if it is no event frame or its values are alike to both; where they differ the zero-copy one gives no frame |
| FrameIo.WriteSchema | dial9-trace-format/src/codec.rs:100-119 | The writing loop emits the specified schema frame |
| FrameIo.WriteStringPool | dial9-trace-format/src/codec.rs:140-149 | The writing loop emits the specified pool frame |
| FrameIo.WriteValues | dial9-trace-format/src/codec.rs:134-136 | Value after value, each in its own form |
| FrameIo.ReadSchema | dial9-trace-format/src/codec.rs:180-216 | The offset arithmetic of the schema decoder reads what the specification reads, and reports the bytes used |
| FrameIo.ReadStringPool | dial9-trace-format/src/codec.rs:254-269 | The pool loop likewise |
| FrameIo.ReadEvent | dial9-trace-format/src/codec.rs:218-252 | Type id, u24 delta, checked sum, then the values of the schema's fields |
| FrameIo.ReadFrame | dial9-trace-format/src/codec.rs:162-178 | Tag dispatch over the four frame kinds |
| Decoding.StepExtends | dial9-trace-format/src/decoder.rs:226-287 | A step of the decoder that does not end the stream is the same step when more bytes follow |
| Decoding.RunByNext | dial9-trace-format/src/decoder.rs:226-289 | Collecting frames with the single-frame call gives the whole decoding run |
| Decoding.PoolAfterFrame | dial9-trace-format/src/decoder.rs:226-278 | An entry of a pool frame changes what its id stands for and nothing else; later entries win |
| Decoding.RunAppend | dial9-trace-format/src/decoder.rs:226-287 | A run that uses all its input can be continued from its final state: decoding is compositional |
| Decoding.TruncationGivesPrefix | dial9-trace-format/src/decoder.rs:226-289 | Cut anywhere behind the header, a stream decodes to a prefix of its frames, and to exactly those whose bytes fit |
| Decoding.BatchesConcatenate | dial9-trace-format/src/decoder.rs:164-183 | Streams written one after the other decode to their frames one after the other, and the final schemas, pool and base are the last one's |
| Decoding.RunsAgree | dial9-trace-format/src/decoder.rs:291-361 | For every byte string and every state, the owned run and the borrowed run show the same frames, end alike and leave the same state if and only if every frame they reach is alike to both |
| Decoding.ConflictKeepsCache | dial9-trace-format/src/decoder.rs:210-222 | A conflicting schema leaves cache and registry in disagreement if and only if it differs in name, in its list of field types or in having a timestamp |
| Decoding.RunKeepsCache | dial9-trace-format/src/decoder.rs:210-222 | After any run the cache and the registry agree if and only if the run did not stop at such a conflict |
| Decoding.CacheDiverges | dial9-trace-format/src/decoder.rs:210-222 | Two schema frames behind which they disagree, and two that conflict in the name of a field only, behind which they agree |
| Decoding.RegistryGrows | dial9-trace-format/src/decoder.rs:210-222 | Within one stream a schema keeps its id |
| TraceDecoder.Decoder.constructor | dial9-trace-format/src/decoder.rs:136-147 | A decoder starts behind the header with nothing known |
| TraceDecoder.Decoder.TryConsumeResetHeader | dial9-trace-format/src/decoder.rs:173-183 | A header in mid-stream resets schemas, cache, pool and base, and nothing else does |
| TraceDecoder.Decoder.RegisterSchema | dial9-trace-format/src/decoder.rs:210-222 | The cache takes the schema first; the registry refuses a conflicting one |
| TraceDecoder.Decoder.NextFrame | dial9-trace-format/src/decoder.rs:226-278 | The loop over headers and resets delivers the next frame, moves the position past it and updates the state as specified |
| TraceDecoder.Decoder.DecodeAll | dial9-trace-format/src/decoder.rs:281-289 | All frames up to the first that does not decode, and the state there |
| TraceDecoder.Decoder.NextFrameRef | dial9-trace-format/src/decoder.rs:291-344 | The same for borrowed frames, including where the slice is out of bounds |
| TraceDecoder.Decoder.TryForEachEvent | dial9-trace-format/src/decoder.rs:379-496 | The inlined loop with its reused value buffer delivers the events of the visitor specification and ends as it does |
| TraceDecoder.Decoder.VisitEvent | dial9-trace-format/src/decoder.rs:396-470 | The inlined event path reads one event or reports how it fails |
| TraceDecoder.Decoder.IntoEncoder | dial9-trace-format/src/decoder.rs:191-198 | Registry, pool and base go over to an encoder that appends |
| Visitor.VisitRefinesIterate | dial9-trace-format/src/decoder.rs:379-496 | The visitor does exactly what iterating frames and keeping events does, state and failure included, if and only if that iteration does not end in a failed frame whose timestamp sum overflows |
| Visitor.OverflowDiffers | dial9-trace-format/src/decoder.rs:419-431 | An event one past the largest timestamp: the visitor delivers it at time 0, the frame iteration fails |
| Visitor.OkMeansConsumed | dial9-trace-format/src/decoder.rs:379-496 | The visitor succeeds only with all input used |
| Visitor.VisitPlain | dial9-trace-format/src/decoder.rs:363-496 | On a stream that decodes to its end it delivers exactly the events, each with its schema's name |
| Visitor.VisitPools | dial9-trace-format/src/decoder.rs:396-470 | Each event is shown with the strings defined in front of it |
| Visitor.CallbackStops | dial9-trace-format/src/decoder.rs:379-496 | A callback that refuses is called on the events any visit delivers, up to the first it refuses, and then the visit ends |
| Visitor.VisitedIsDecoded | dial9-trace-format/src/decoder.rs:379-496 | Whatever the input, headers in the middle included: a visit that uses all of it saw the events of an owned run that uses all of it, and left its state, if and only if it passed over no overflowing event |
| Encoding.OpInStep | dial9-trace-format/src/encoder.rs:214-365 | Lock-step: whatever the call, successful or refused, a decoder that has read everything so far reads the new bytes as exactly the logged frames and is again in the encoder's state |
| Encoding.OpExact | dial9-trace-format/src/encoder.rs:227-365 | Every schema stays findable by name, every string by text, and no id is skipped |
| Answers.RegisterAnswers | dial9-trace-format/src/encoder.rs:227-281 | A schema whose name is free gets the next id and one schema frame, a known one its id and no bytes, and one whose name stands for another is refused with nothing written |
| Answers.AcceptsExactly | dial9-trace-format/src/encoder.rs:227-262 | In an encoder used from the start, a schema is accepted if and only if no other one of its name is registered |
| Answers.WriteEventAnswers | dial9-trace-format/src/encoder.rs:283-326 | The event is written if and only if no other schema has the name, the first value is a number and the values after it are as many as the fields; otherwise the refusal says which failed, and no event is logged |
| Answers.WriteTypedAnswers | dial9-trace-format/src/encoder.rs:329-347 | A typed event is written unless, the first time, another schema has its name |
| Answers.InternAnswers | dial9-trace-format/src/encoder.rs:350-365 | A known string keeps its id and costs nothing; a new one gets the next id and one pool frame |
| Answers.EventLength | dial9-trace-format/src/types.rs:526-538 | A timestamp reset is written if and only if the time lies before the last one or more than a u24 behind it |
| Encoding.ReadsEvent | dial9-trace-format/src/types.rs:526-538 | Any gap or order of timestamps is recovered exactly, by delta or by reset |
| TraceEncoder.Encoder.constructor | dial9-trace-format/src/encoder.rs:151-160 | A new stream is the header, and the byte count starts behind it |
| TraceEncoder.Encoder.FromDecoder | dial9-trace-format/src/encoder.rs:164-195 | The resumed encoder is seeded from the decoder in whatever order the maps are walked |
| TraceEncoder.Encoder.EnsureRegistered | dial9-trace-format/src/encoder.rs:227-262 | A known name must carry the same schema; a new one gets the next id and a schema frame |
| TraceEncoder.Encoder.RegisterSchema | dial9-trace-format/src/encoder.rs:265-281 | State, bytes and answer of registering a schema |
| TraceEncoder.Encoder.EncodeTimestampDelta | dial9-trace-format/src/types.rs:526-538 | A reset frame exactly when the delta is negative or exceeds 24 bits; the base moves to the timestamp |
| TraceEncoder.Encoder.WriteEvent | dial9-trace-format/src/encoder.rs:283-326 | The schema frame comes before the values are checked; the event is written if and only if the name is free or the schema's, the first value is a number, and the count is right |
| TraceEncoder.Encoder.Write | dial9-trace-format/src/encoder.rs:329-347 | State, bytes and answer of a typed event |
| TraceEncoder.Encoder.TypeIdFor | dial9-trace-format/src/encoder.rs:329-340 | An event type is looked up by type, by name only the first time |
| TraceEncoder.Encoder.InternString | dial9-trace-format/src/encoder.rs:350-365 | A string gets one id and one pool frame, the first time |
| TraceEncoder.Encoder.ResetTo | dial9-trace-format/src/encoder.rs:214-225 | A new writer gets a header and a fresh encoder state, base included |
| TraceEncoder.Encoder.ResetRegistryAndPools | dial9-trace-format/src/encoder.rs:382-390 | Schemas and strings are forgotten, the timestamp base is not |
| TraceEncoder.InvertPool | dial9-trace-format/src/encoder.rs:170-177 | Walking the pool in any order gives an inverse and the id after the last |
| TraceEncoder.IndexNames | dial9-trace-format/src/encoder.rs:179-182 | Walking the schemas in any order gives an index by name |
| RoundTrip.WholeRunRoundTrip | dial9-trace-format/src/encoder.rs:214-365 | For every sequence of calls, refused ones and stream resets included, each stream decodes to exactly the frames logged, all bytes used, and every id handed out resolves to its string |
| RoundTrip.AllKept | dial9-trace-format/src/encoder.rs:214-225 | Every call is answered, and there is one stream for each reset and the one under way |
| RoundTrip.WholeRunBorrowed | dial9-trace-format/src/decoder.rs:347-496 | The two zero-copy readers show the same frames and the same events of those streams |
| RoundTrip.ResumeInvisible | dial9-trace-format/src/decoder.rs:191-198 | Decode any encoder's stream, turn the decoder into an encoder, go on with any calls: every answer, byte and later stream is what the first encoder would have given |
| RoundTrip.ResumeAppends | dial9-trace-format/src/encoder.rs:164-195 | A trace of any origin that decodes to its end, with a resumed encoder's output behind it, decodes to the old frames and then the new ones |
| Telemetry.EventRoundTrip | dial9-tokio-telemetry/src/telemetry/format.rs:248-285 | Each kind of runtime event decodes to what was recorded, depths modulo 256, its string by id |
| Telemetry.UnderstoodWhen | dial9-tokio-telemetry/src/telemetry/format.rs:248-285 | An event is understood if and only if it has one of the ten names, a timestamp, and in front values of the right kinds |
| Telemetry.ValuesFit | dial9-tokio-telemetry/src/telemetry/writer.rs:309-420 | The fields written for each event have the kinds its schema declares |
| Segments.SegmentHolds | dial9-tokio-telemetry/src/telemetry/writer.rs:201-215 | Every segment the writer can produce has a log of the metadata event and then its runtime events, under schemas it registered itself |
| Segments.RegisterKnown | dial9-tokio-telemetry/src/telemetry/writer.rs:309-420 | Registering one of the ten event types in a segment is never refused and never runs out of ids |
| SegmentReading.SegmentDecodesAlone | dial9-tokio-telemetry/src/telemetry/writer.rs:288-420 | Every segment decodes on its own from its first byte: metadata first, then its events in order, field by field; each poll and spawn finds its location, and each sample its thread name or "<no thread name>", in the segment's own pool |
| SegmentReading.SegmentTimestampFound | dial9-tokio-telemetry/src/background_task/sealed.rs:44-78 | The segment timestamp that is parsed is the one its metadata event was written with |
| SegmentReading.ParseExactly | dial9-tokio-telemetry/src/background_task/sealed.rs:44-78 | On any plain stream: the timestamp of the first metadata event among the first ten events, or that there is none among ten, or that the stream ended after fewer |
| SegmentReading.DecodeEventsRef | dial9-tokio-telemetry/src/telemetry/format.rs:195-211 | The collecting callback gives the understood events, or nothing if the trace does not decode to its end |
| SegmentReading.UnderstoodLast | dial9-tokio-telemetry/src/telemetry/format.rs:195-211 | Each event adds what it decodes to or nothing, whatever the others are |
| SegmentReading.ParseTimestamp | dial9-tokio-telemetry/src/background_task/sealed.rs:44-78 | The counting loop over frames computes the specification, errors included |
| Rotation.RotationConserves | dial9-tokio-telemetry/src/telemetry/writer.rs:309-488 | Over every sequence of calls the segments hold the offered events in order up to where the writer stopped, and dropped_events counts exactly the rest |
| Rotation.AcceptedInOrder | dial9-tokio-telemetry/src/telemetry/writer.rs:230-284 | Accepted events are the evicted segments', then those of the sealed ones that are left, then the last segment's |
| Rotation.BatchInOneSegment | dial9-tokio-telemetry/src/telemetry/writer.rs:438-444 | A batch goes whole into the segment that was open or is dropped whole; at most one new empty segment follows |
| Rotation.SealsEmptyExactly | dial9-tokio-telemetry/src/telemetry/writer.rs:423-444 | A sealed segment without a real event arises exactly from an empty batch on a segment that its metadata alone makes too big |
| Rotation.EmptySegmentSealed | dial9-tokio-telemetry/src/telemetry/writer.rs:423-444 | A writer with file size zero seals a segment of metadata alone at an empty batch |
| Rotation.SealedNonEmptyExactly | dial9-tokio-telemetry/src/telemetry/writer.rs:423-444 | Over every call sequence: each sealed segment holds a real event if and only if no call sealed an empty one |
| Rotation.SegmentsHoldEvents | dial9-tokio-telemetry/src/telemetry/writer.rs:423-444 | Without empty batches every sealed segment holds a real event |
| Rotation.BatchRotates | dial9-tokio-telemetry/src/telemetry/writer.rs:423-431 | A write call rotates exactly when the segment came out larger than max_file_size |
| Rotation.EvictsAsNeeded | dial9-tokio-telemetry/src/telemetry/writer.rs:269-284 | Eviction goes oldest first and never further than the budget needs |
| Rotation.RotateBudget | dial9-tokio-telemetry/src/telemetry/writer.rs:230-284 | After a rotation the tracked total is within max_total_size, and the writer stops exactly when a fresh segment alone exceeds it |
| Rotation.WriteBudget | dial9-tokio-telemetry/src/telemetry/writer.rs:434-444 | After a write call the tracked total is at most max_total_size + max_file_size |
| Rotation.DiskBudget | dial9-tokio-telemetry/src/telemetry/writer.rs:260-284 | The same over every sequence of calls |
| Rotation.RealSize | dial9-trace-format/src/encoder.rs:151-159 | Files on disk take the tracked bytes plus five for each file; a stopped writer no longer counts its last file |
| Rotation.SurvivorsDecode | dial9-tokio-telemetry/src/telemetry/writer.rs:217-284 | Every trace file on disk decodes to one segment's events and announces that segment's timestamp |
| Rotation.RunSurvivorsDecode | dial9-tokio-telemetry/src/telemetry/writer.rs:217-284 | The same at the end of every sequence of calls |
| Rotation.FinalizedForGood | dial9-tokio-telemetry/src/telemetry/writer.rs:457-488 | Once finalized, no call changes any file |
| RotatingWriter.RotatingWriter.constructor | dial9-tokio-telemetry/src/telemetry/writer.rs:131-163 | The first segment is open with its metadata written |
| RotatingWriter.RotatingWriter.WriteSegmentMetadata | dial9-tokio-telemetry/src/telemetry/writer.rs:201-215 | The open file is exactly a segment with no events yet |
| RotatingWriter.RotatingWriter.Rotate | dial9-tokio-telemetry/src/telemetry/writer.rs:230-257 | Sealing, renaming, opening and evicting take fields and directory to the specified state, and a rotation is noted |
| RotatingWriter.RotatingWriter.EvictOldest | dial9-tokio-telemetry/src/telemetry/writer.rs:269-284 | The loop over the deque of sealed files removes what the specification evicts, and stops the writer when that is not enough |
| RotatingWriter.RotatingWriter.InternLocation | dial9-tokio-telemetry/src/telemetry/writer.rs:288-299 | The cached text of a location is the text it is interned under |
| RotatingWriter.RotatingWriter.EncodeResolved | dial9-tokio-telemetry/src/telemetry/writer.rs:314-418 | The location of a poll or spawn, or the thread name of a sample, is in the pool before the event is written with its id |
| RotatingWriter.RotatingWriter.WriteResolvedNoRotate | dial9-tokio-telemetry/src/telemetry/writer.rs:309-421 | The event is appended to the open segment, byte for byte, or dropped and counted |
| RotatingWriter.RotatingWriter.MaybeRotate | dial9-tokio-telemetry/src/telemetry/writer.rs:423-431 | Rotates when the tracked size exceeds the limit; a rotation is noted exactly when a segment was opened |
| RotatingWriter.RotatingWriter.WriteEvent | dial9-tokio-telemetry/src/telemetry/writer.rs:434-436 | One event, then perhaps a rotation |
| RotatingWriter.RotatingWriter.WriteEventBatch | dial9-tokio-telemetry/src/telemetry/writer.rs:438-444 | The loop writes every event before any rotation |
| RotatingWriter.RotatingWriter.TakeRotated | dial9-tokio-telemetry/src/telemetry/writer.rs:453-455 | Tells once whether a rotation happened |
| RotatingWriter.RotatingWriter.Finalize | dial9-tokio-telemetry/src/telemetry/writer.rs:457-488 | The last file is renamed if it holds a real event and removed if not; nothing stays open |
| RotatingWriter.RawOnSegment | dial9-tokio-telemetry/src/telemetry/writer.rs:309-421 | On an open segment an event whose lengths fit is never refused, and brings the file to the longer segment |
| Collector.ForcePush | dial9-tokio-telemetry/src/telemetry/collector.rs:33-37 | What is pushed out and what is queued are together the queue and the new batch, in order; something is pushed out exactly when the queue is full |
| Collector.RecordInto | dial9-tokio-telemetry/src/telemetry/buffer.rs:75-84 | The batch sent on and what stays are the buffer and the new event; nothing is sent if and only if fewer than 1024 are there |
| Collector.CentralCollector.AcceptFlush | dial9-tokio-telemetry/src/telemetry/collector.rs:33-37 | The oldest batch makes room and is counted |
| Collector.CentralCollector.Next | dial9-tokio-telemetry/src/telemetry/collector.rs:39-41 | The oldest queued batch, or none |
| Collector.CentralCollector.TakeDroppedBatches | dial9-tokio-telemetry/src/telemetry/collector.rs:44-46 | The count since the last call |
| Collector.ThreadLocalBuffer.RecordEvent | dial9-tokio-telemetry/src/telemetry/buffer.rs:75-84 | The event is kept, or goes with the 1023 before it to the collector at hand; the first collector is remembered |
| Collector.ThreadLocalBuffer.DrainToCollector | dial9-tokio-telemetry/src/telemetry/buffer.rs:88-96 | The buffer is emptied into one batch, or nothing is sent |
| Collector.ThreadLocalBuffer.Drop | dial9-tokio-telemetry/src/telemetry/buffer.rs:52-66 | At thread exit a buffer with events always has a collector to go to |
| Flushing.FlushOnce | dial9-tokio-telemetry/src/telemetry/recorder/mod.rs:40-83 | One cycle undisturbed: the own buffer is drained, the drop count taken, and every queued event written in order until the queue is empty |
| Flushing.DrainQueue | dial9-tokio-telemetry/src/telemetry/recorder/mod.rs:59-72 | The nested loop over batches and events |
| Flushing.WritesEach | dial9-tokio-telemetry/src/telemetry/recorder/mod.rs:59-72 | Every event is written once, in order |
| PipelineOrder.TakePushed | dial9-tokio-telemetry/src/telemetry/collector.rs:33-41 | Batches enter the queue at one end and leave at the other, whichever thread steps |
| PipelineOrder.TakeOrdered | dial9-tokio-telemetry/src/telemetry/buffer.rs:75-96 | Every step of every thread keeps each thread's events in order |
| PipelineOrder.TakeRecords | dial9-tokio-telemetry/src/telemetry/buffer.rs:75-84 | Every event offered while recording is on is recorded, and nothing else is |
| PipelineOrder.BatchesFull | dial9-tokio-telemetry/src/telemetry/buffer.rs:39-96 | A batch made by recording holds exactly 1024 events and is made exactly when the buffer is full; shorter ones come only from an exit, a stop or the flush thread draining its own buffer |
| PipelineOrder.TakeCounted | dial9-tokio-telemetry/src/telemetry/collector.rs:33-46 | Every step keeps the drop count equal to the batches pushed out, up to those still being counted |
| PipelineOrder.TakeWritten | dial9-tokio-telemetry/src/telemetry/recorder/mod.rs:59-72 | Every step keeps the popped events equal to the events offered and the rest of the batch in hand |
| PipelineOrder.TakeDriven | dial9-tokio-telemetry/src/telemetry/recorder/event_writer.rs:40-53 | The writer is called with exactly the offered events |
| Shutdown.TakeRoles | dial9-tokio-telemetry/src/telemetry/recorder/mod.rs:592-640 | Every step keeps one stopping thread at most, which waits while the flush thread is on its way out |
| Shutdown.TakeOwn | dial9-tokio-telemetry/src/telemetry/recorder/mod.rs:52-55 | Every step keeps: the flush thread drains its own buffer before it empties the queue, so when it is done popping its own events have left as well |
| Shutdown.InvRun | dial9-tokio-telemetry/src/telemetry/recorder/mod.rs:592-640 | All of this holds after any sequence of steps |
| Shutdown.EventsInOrder | dial9-tokio-telemetry/src/telemetry/buffer.rs:39-96 | Over every interleaving each thread's events are, in order, in batches popped or pushed out, batches queued, the batch being sent, and the buffer; batches hold 1 to 1024 events, the queue stays bounded and drops are counted |
| Shutdown.WriterFollows | dial9-tokio-telemetry/src/telemetry/recorder/mod.rs:40-83 | Over every interleaving the writer gets the popped batches in queue order, event after event, and otherwise only profiler samples |
| Shutdown.StopIsSafe | dial9-tokio-telemetry/src/telemetry/recorder/mod.rs:252-270 | At the acknowledgement a thread waits for it, everything queued when it began to stop and everything it or the flush thread recorded has left the queue, what was popped is written, and the writer is finalized |
| Shutdown.NothingLeftBehind | dial9-tokio-telemetry/src/telemetry/recorder/mod.rs:252-270 | From the moment a thread begins to stop, whatever the others do: at the acknowledgement every batch queued then and every event of its own has been pushed out or written |
| Shutdown.TraceComplete | dial9-tokio-telemetry/src/telemetry/recorder/mod.rs:592-640 | With the rotating writer behind it: the segments hold the offered events in order, cut only where the writer stopped, and the rest is counted |
| Shutdown.WriterSettled | dial9-tokio-telemetry/src/telemetry/recorder/mod.rs:628-639 | After the acknowledgement the writer is never called again |
| Shutdown.FilesSettled | dial9-tokio-telemetry/src/telemetry/recorder/mod.rs:628-639 | So no trace file changes, and none is left unsealed |
| Shutdown.NeverStuck | dial9-tokio-telemetry/src/telemetry/recorder/mod.rs:252-270 | While a thread is stopping, it or the flush thread can always take a step that takes the stop further, whatever the others do |
| RingBuffer.PieceOfStream | perf-self-profile/src/ring_buffer.rs:65-96 | A stretch of the stream lies in the circle in one piece, or in two that join to it |
| RingBuffer.RecordWhole | perf-self-profile/src/ring_buffer.rs:65-96 | Header and body as found in the buffer, split or not, are the record's bytes |
| RingBuffer.RingBuffer.Produce | perf-self-profile/src/ring_buffer.rs:1-4 | The producer appends a record that fits and loses one that does not; the buffer keeps holding the unread stream |
| RingBuffer.RingBuffer.HasData | perf-self-profile/src/ring_buffer.rs:44-47 | There is data exactly when a record is unread |
| RingBuffer.RingBuffer.ReadHeader | perf-self-profile/src/ring_buffer.rs:65-74 | The header in one read, or byte by byte around the end |
| RingBuffer.SizeFieldIs | perf-self-profile/src/ring_buffer.rs:76-77 | The size is the header's bytes 6 and 7, low byte first |
| RingBuffer.RingBuffer.ReadRecord | perf-self-profile/src/ring_buffer.rs:61-99 | One pass of the loop delivers the next record whole and frees its bytes |
| RingBuffer.RingBuffer.ProduceAll | perf-self-profile/src/ring_buffer.rs:1-4 | Of the records offered in a row exactly those that still find room are appended |
| RingBuffer.RingBuffer.ForEachRecord | perf-self-profile/src/ring_buffer.rs:51-101 | With a producer adding records before each look at the head, exactly the unread records and then those of the schedule that find room are delivered, in order and whole; the loop ends, the position is the head, and nothing is unread |
| RingBuffer.AllAdded | perf-self-profile/src/ring_buffer.rs:51-101 | What is added is the whole schedule if and only if every record due finds room and the reader does not run dry while records are still to come |
| Sorting.PartitionPoint | dial9-tokio-telemetry/src/telemetry/analysis.rs:335-336 | Bisection finds where a predicate turns false |
| WakeDelays.LatestIs | dial9-tokio-telemetry/src/telemetry/analysis.rs:300-347 | The linear scan finds the latest time not after the poll, if there is one |
| WakeDelays.IndexWakes | dial9-tokio-telemetry/src/telemetry/analysis.rs:308-320 | The map holds every woken task's wake times |
| WakeDelays.LastWake | dial9-tokio-telemetry/src/telemetry/analysis.rs:335-337 | In the sorted times, the one before the partition point is the latest not after the poll |
| WakeDelays.DetectWakeDelays | dial9-tokio-telemetry/src/telemetry/analysis.rs:619-666 | The detector reports, in event order, each poll's delay since the latest wake of its task found by linear scan, if it is at least the threshold and below a second |
| WakeDelays.DelaysExactly | dial9-tokio-telemetry/src/telemetry/analysis.rs:619-666 | Reported are exactly the polls whose delay since the latest wake of their task, among all wakes, is at least the threshold and below a second, one each and in order, with worker, wake, poll, delay and task |
| WakeDelays.ComputeWakeToPollDelays | dial9-tokio-telemetry/src/telemetry/analysis.rs:306-347 | The sorted delays of the detector with threshold 1, each between 1 and 999,999,999 |
| SampledPolls.BuildPolls | dial9-tokio-telemetry/src/telemetry/analysis.rs:694-734 | The first pass pairs starts with ends per worker |
| SampledPolls.PollsExactly | dial9-tokio-telemetry/src/telemetry/analysis.rs:694-734 | A trace has one poll for each start and the end that follows it on the same worker with nothing of that worker's in between, in the order of the ends, and no others |
| SampledPolls.FindOwner | dial9-tokio-telemetry/src/telemetry/analysis.rs:746-752 | The two-level bisection finds the last poll the worker had started, if the sample is not after its end |
| SampledPolls.OwnerIs | dial9-tokio-telemetry/src/telemetry/analysis.rs:743-757 | Whatever the polls: a sample is counted for the last poll its worker had started by then, if it lies in it |
| SampledPolls.DetectSampledPolls | dial9-tokio-telemetry/src/telemetry/analysis.rs:683-769 | For disjoint polls: one report for each poll with a sample of either kind inside it and for no other, by worker and start, with how many there are of each |
| SampledPolls.SamplesInCounts | dial9-tokio-telemetry/src/telemetry/analysis.rs:743-757 | The naive scan counts the samples of a kind inside a poll |
| SampledPolls.OwnersExactly | dial9-tokio-telemetry/src/telemetry/analysis.rs:743-757 | A sample is counted for exactly the polls it lies in if and only if each poll ends before the worker's next one starts |
| SampledPolls.TouchingPolls | dial9-tokio-telemetry/src/telemetry/analysis.rs:743-757 | Two polls that touch: a sample at that moment lies in both and is counted for the second only |
| SampledPolls.CountedIsInside | dial9-tokio-telemetry/src/telemetry/analysis.rs:743-757 | Then each poll's counts are the samples of each kind inside it |
| SampledPolls.NoDoubleCount | dial9-tokio-telemetry/src/telemetry/analysis.rs:743-757 | All counts together are the samples that were counted, each once, whatever the polls |
| SampledPolls.SamplesAttributed | dial9-tokio-telemetry/src/telemetry/analysis.rs:683-769 | For every trace whose polls are disjoint closed intervals on each worker, the counts are those of the naive scan and add up to the samples lying in some poll |
| SampledPolls.TimelyTrace | dial9-tokio-telemetry/src/telemetry/analysis.rs:694-734 | Poll events in order on each worker, and none at the moment a poll has ended, give disjoint polls |
| TaskDump.ExamineOne | dial9-tokio-telemetry/src/task_dump.rs:115-144 | What looking at a bucket does to one sentinel depends on that sentinel only |
| TaskDump.WheelWatches | dial9-tokio-telemetry/src/task_dump.rs:98-148 | The wheel watches each sentinel as if it were alone: it is in one bucket exactly while it is watched, and its reports are those of the looks that are due |
| TaskDump.DueFromChannel | dial9-tokio-telemetry/src/task_dump.rs:100-112 | A sentinel taken from the channel at tick n is looked at at ticks n+5+60k and at no others |
| TaskDump.DueAdded | dial9-tokio-telemetry/src/task_dump.rs:92-94 | One added directly is looked at by every sixtieth tick |
| TaskDump.ReportsNumbered | dial9-tokio-telemetry/src/task_dump.rs:117-139 | Its reports are numbered 0, 1, 2 and so on and all show it pending |
| TaskDump.ReportsAre | dial9-tokio-telemetry/src/task_dump.rs:117-139 | There is one report for each due look, while the sentinel is watched, that finds its first trace six seconds old or older, in the order of the looks, with what it held then |
| TaskDump.AliveIs | dial9-tokio-telemetry/src/task_dump.rs:117-144 | It is watched as long as every due look found it pending with a trace |
| TaskDump.NoMoreReports | dial9-tokio-telemetry/src/task_dump.rs:140-144 | Once it is seen completed or cancelled there are no more |
| TaskDump.LongPollTracker.AddSentinel | dial9-tokio-telemetry/src/task_dump.rs:92-94 | The sentinel goes to bucket zero |
| TaskDump.LongPollTracker.Tick | dial9-tokio-telemetry/src/task_dump.rs:98-148 | The drain loop and the bucket loop take the tracker to the specified state; a closed channel stops it without moving the hand |
| Tracepoint.ExtractFields | perf-self-profile/src/tracepoint.rs:143-188 | The loop extracts every field or stops at the first that does not fit, as specified |
| Tracepoint.ExtractsExactly | perf-self-profile/src/tracepoint.rs:143-188 | Each static field is told by the bytes at its own offset and size, each dynamic one by the text its offset and length point at; otherwise the first field that does not lie in the record decides, and the error says why |
| Tracepoint.ExtractedRepresents | perf-self-profile/src/tracepoint.rs:357-375 | A field's bytes can be rebuilt from its value: sign and width are kept |
| Tracepoint.FieldFitsExactly | perf-self-profile/src/tracepoint.rs:393-432 | An extracted value reads back under its schema type exactly for fields that are dynamic, character arrays, or not of size 3, 5, 6 or 7 |
| Tracepoint.OddSizeMisread | perf-self-profile/src/tracepoint.rs:405-432 | For the other sizes the trace does not give the value back |
| Tracepoint.EncodeRawRoundTrip | perf-self-profile/src/tracepoint.rs:230-243 | End to end: unless another schema has the tracepoint's name the event is written, and a decoder in step reads it last, under the tracepoint's schema, with the extracted values in their signs and widths |
| Tracepoint.EncodeRaw | perf-self-profile/src/tracepoint.rs:230-243 | A record that does not extract writes nothing; one that does is written if and only if the tracepoint's name is free or its own |
| Symbolize.CollectStackFrameAddresses | perf-self-profile/src/offline_symbolize.rs:69-79 | The addresses of all frame fields, zero excepted |
| Symbolize.PlanEntries | perf-self-profile/src/offline_symbolize.rs:81-178 | Every address gets exactly its answer's entries: the outer function at depth 0 and each inlined one below it, names, files and lines from the answer; a placeholder if its batch failed; none if unmapped |
| Symbolize.EntriesAnswer | perf-self-profile/src/offline_symbolize.rs:181-215 | The entries of an address, from the lookup's answer alone |
| Symbolize.WriteSymbols | perf-self-profile/src/offline_symbolize.rs:181-215 | Name, file and entry for each, through the encoder |
| Symbolize.EntriesLogged | perf-self-profile/src/offline_symbolize.rs:181-215 | The log gains one event for each entry, in order, whose ids are its strings' |
| Symbolize.SymbolsReadBack | perf-self-profile/src/offline_symbolize.rs:46-87 | The trace with the output behind it decodes to its end: the events that were there, then the entries, their strings resolving |
| SymbolizedTrace.RoomSuffices | perf-self-profile/src/offline_symbolize.rs:181-215 | Two string ids for each entry are enough to write them all |
| SymbolizedTrace.OverflowStops | perf-self-profile/src/offline_symbolize.rs:46-67 | Nothing appended behind an event whose timestamp overflows is ever found by a frame decoder |
| SymbolizedTrace.SymbolizeTraceWithMaps | perf-self-profile/src/offline_symbolize.rs:46-87 | End to end, visitor, addresses, lookups, resumed encoder: it fails exactly when the visitor does; otherwise the input with the output behind it decodes to the old events and then, for each address in their stack frames, the entries of its lookup, strings resolved, unless the visitor passed over an overflowing event |

## Left out

- `f64` fields are kept as their 64 bits: not-a-number payloads and floating-point equality are not modelled, nor are `avg_global_queue` and `scheduling_ratio`.
- Error texts are not modelled, and of error positions only what the decoder's state shows.
- I/O errors in writing, renaming, removing and flushing; buffering by `BufWriter`, which the model treats as transparent.
- `EncodeState` and `CountingWriter` are three fields of the encoder object, not objects of their own.
- `write_raw` and `write_string_pool`, which bypass the encoder's state; `flush` and `single_file` of the writer, which change nothing modelled here.
- Wrap-around of 64-bit counters and positions (file sizes, ring buffer positions, offsets added in the symbolizer): natural numbers in the model.
- Memory ordering of atomics and the inside of the lock-free queue: pushing, popping and counting are single steps of the interleaving.
- The flush thread's exit when every handle has been dropped: the guard holds a handle until it has stopped the thread.
- A write that fails and switches recording off; a background worker that removes segments while they are counted.
- Thread-local lookup of worker ids, the hooks that make events, and the profilers: events arrive as inputs.
- The owned event leaves out a CPU sample's thread name; the model's event keeps its id, as the borrowed event does.
- `parse_format` and the splitting of a format line: a tracepoint definition is given.
- How a location, a kernel placeholder or a failed symbol is formatted as text: the texts are inputs.
- Per-location statistics, active periods, long polls, scheduling delays and the queue-depth timeline of the analyses: folds over events without a second algorithm to compare with.
- The worker pipeline, upload, compression, metrics, the JavaScript reader and the derive macro; a typed event is its schema with matching values.
- The tracing future that feeds the tracker wheel: what a sentinel holds is an input of each tick.
- Reuse of a sentinel's address while an old count is kept: each sentinel comes once.
- SampledPolls.DetectSampledPolls: the order of polls of one worker with equal starts is not fixed, because an unstable sort does not fix it.
- RotatingWriter.RotatingWriter.WriteEvent: requires that lengths fit and ids are left, because the encoder's casts do not check.
- Flushing.FlushOnce: states one cycle with no other thread pushing and no profiler samples, because the interleaved cycle with both is what `Pipeline` describes.
- TaskDump.ReportsNumbered: does not repeat the age of six seconds, because `TaskDump.Reports` reports only such looks.
