/** What the decoder makes of a byte string: one frame at a time, as a transition system over
    the decoder's state, for the owned decoder, the zero-copy decoder and the visitor
    (dial9-trace-format/src/decoder.rs). */
module Decoding {
  import opened Wire
  import opened Wrappers
  import opened Utf8
  import opened Types
  import opened ZeroCopy
  import opened Schema
  import opened Codec

  datatype DecState = DecState(registry: map<u16, SchemaEntry>, cache: Lookup, pool: map<u32, Text>, base: u64)

  const Fresh := DecState(map[], map[], map[], 0)

  datatype Decoded<+V> =
    | SchemaSeen(entry: SchemaEntry)
    | EventSeen(typeId: u16, timestamp: Option<u64>, values: seq<V>)
    | PoolSeen(entries: seq<PoolEntry>)

  /** One frame's worth of decoding. `End` is "no more frames": nothing left, or nothing that
      decodes. */
  datatype Step<+V> =
    | End
    | Panic
    | Silent(state: DecState, rest: Bytes)
    | Emit(frame: Decoded<V>, state: DecState, rest: Bytes)
    | Conflict(state: DecState, rest: Bytes)
  {
    ghost predicate Advances(d: Bytes) {
      match this
      case End => true
      case Panic => true
      case Silent(_, rest) => |rest| < |d|
      case Emit(_, _, rest) => |rest| < |d|
      case Conflict(_, rest) => |rest| < |d|
    }

    /** The same step when `t` follows the input. */
    ghost function Longer(t: Bytes): Step<V> {
      match this
      case End => End
      case Panic => Panic
      case Silent(st, rest) => Silent(st, rest + t)
      case Emit(f, st, rest) => Emit(f, st, rest + t)
      case Conflict(st, rest) => Conflict(st, rest + t)
    }
  }

  /** Later entries win; data that is not UTF-8 is left out. */
  function AddEntries(pool: map<u32, Text>, entries: seq<PoolEntry>): map<u32, Text>
    decreases |entries|
  {
    if entries == [] then pool
    else if ValidUtf8(entries[0].data) then AddEntries(pool[entries[0].poolId := entries[0].data], entries[1..])
    else AddEntries(pool, entries[1..])
  }

  /** An entry changes what its id stands for and nothing else, and later entries win. */
  lemma {:induction false} PoolAfterFrame(pool: map<u32, Text>, entries: seq<PoolEntry>, e: PoolEntry)
    ensures AddEntries(pool, []) == pool
    ensures AddEntries(pool, entries + [e])
            == if ValidUtf8(e.data) then AddEntries(pool, entries)[e.poolId := e.data] else AddEntries(pool, entries)
    decreases |entries|
  {
    hide ValidUtf8;
    if entries == [] {
      assert (entries + [e])[1..] == [];
    } else {
      assert (entries + [e])[1..] == entries[1..] + [e];
      PoolAfterFrame(if ValidUtf8(entries[0].data) then pool[entries[0].poolId := entries[0].data] else pool,
                     entries[1..], e);
    }
  }

  /** The cache is overwritten before the registry refuses a conflicting schema. */
  function Absorb<V>(st: DecState, f: Frame<V>, rest: Bytes): Step<V> {
    match f
    case SchemaFrame(typeId, entry) =>
      var cached := st.(cache := st.cache[typeId := InfoOf(entry)]);
      if typeId in st.registry && st.registry[typeId] != entry then Conflict(cached, rest)
      else Emit(SchemaSeen(entry), cached.(registry := st.registry[typeId := entry]), rest)
    case EventFrame(typeId, ts, values) =>
      Emit(EventSeen(typeId, ts, values), if ts.Some? then st.(base := ts.value) else st, rest)
    case PoolFrame(entries) =>
      Emit(PoolSeen(entries), st.(pool := AddEntries(st.pool, entries)), rest)
    case ResetFrame(ts) =>
      Silent(st.(base := ts), rest)
  }

  function OwnedStep(st: DecState, d: Bytes): (s: Step<FieldValue>)
    ensures s.Advances(d)
  {
    if d == [] then End
    else if DecodeHeader(d).Some? then Silent(Fresh, d[HEADER_SIZE..])
    else
      match DecodeFrame(d, st.cache, st.base)
      case NoParse => End
      case Parsed(f, rest) => Absorb(st, f, rest)
  }

  lemma RefAdvances(d: Bytes, schemas: Lookup, base: u64)
    ensures DecodeFrameRef(d, schemas, base).Borrowed? ==> |DecodeFrameRef(d, schemas, base).rest| < |d|
  {
    hide DecodeFrame, DecodeFrameRef, BorrowableFrame;
    FramesAgree(d, schemas, base);
  }

  function RefStep(st: DecState, d: Bytes): (s: Step<FieldValueRef>)
    ensures s.Advances(d)
  {
    if d == [] then End
    else if DecodeHeader(d).Some? then Silent(Fresh, d[HEADER_SIZE..])
    else
      RefAdvances(d, st.cache, st.base);
      match DecodeFrameRef(d, st.cache, st.base)
      case Missing => End
      case Panicked => Panic
      case Borrowed(f, rest) => Absorb(st, f, rest)
  }

  datatype Ending = Stopped | Conflicted | Crashed

  datatype Trace<+V> = Trace(frames: seq<Decoded<V>>, state: DecState, rest: Bytes, ending: Ending) {
    /** Everything was decoded. */
    predicate Clean() { ending == Stopped && rest == [] }
  }

  /** `decode_all`: frames until the input ends, stops decoding or contradicts itself. */
  function Run(st: DecState, d: Bytes): Trace<FieldValue>
    decreases |d|
  {
    match OwnedStep(st, d)
    case End => Trace([], st, d, Stopped)
    case Panic => Trace([], st, d, Crashed)
    case Silent(st1, rest) => Run(st1, rest)
    case Emit(f, st1, rest) => var r := Run(st1, rest); r.(frames := [f] + r.frames)
    case Conflict(st1, rest) => Trace([], st1, rest, Conflicted)
  }

  /** `decode_all_ref`. */
  function RunRef(st: DecState, d: Bytes): Trace<FieldValueRef>
    decreases |d|
  {
    match RefStep(st, d)
    case End => Trace([], st, d, Stopped)
    case Panic => Trace([], st, d, Crashed)
    case Silent(st1, rest) => RunRef(st1, rest)
    case Emit(f, st1, rest) => var r := RunRef(st1, rest); r.(frames := [f] + r.frames)
    case Conflict(st1, rest) => Trace([], st1, rest, Conflicted)
  }

  /** One call of `next_frame`: silent frames are passed over. */
  datatype Next<+V> =
    | NoMore(state: DecState, rest: Bytes)
    | Found(frame: Decoded<V>, state: DecState, rest: Bytes)
    | Broken(state: DecState, rest: Bytes)
    | Crash(state: DecState, rest: Bytes)

  function NextOwned(st: DecState, d: Bytes): (n: Next<FieldValue>)
    ensures n.Found? ==> |n.rest| < |d|
    decreases |d|
  {
    match OwnedStep(st, d)
    case End => NoMore(st, d)
    case Panic => Crash(st, d)
    case Silent(st1, rest) => NextOwned(st1, rest)
    case Emit(f, st1, rest) => Found(f, st1, rest)
    case Conflict(st1, rest) => Broken(st1, rest)
  }

  function NextRef(st: DecState, d: Bytes): (n: Next<FieldValueRef>)
    ensures n.Found? ==> |n.rest| < |d|
    decreases |d|
  {
    match RefStep(st, d)
    case End => NoMore(st, d)
    case Panic => Crash(st, d)
    case Silent(st1, rest) => NextRef(st1, rest)
    case Emit(f, st1, rest) => Found(f, st1, rest)
    case Conflict(st1, rest) => Broken(st1, rest)
  }

  /** Calling `next_frame` until it gives no frame is the whole run. */
  lemma {:induction false} RunByNext(st: DecState, d: Bytes)
    ensures Run(st, d)
            == match NextOwned(st, d)
               case NoMore(st1, rest) => Trace([], st1, rest, Stopped)
               case Crash(st1, rest) => Trace([], st1, rest, Crashed)
               case Broken(st1, rest) => Trace([], st1, rest, Conflicted)
               case Found(f, st1, rest) => var r := Run(st1, rest); r.(frames := [f] + r.frames)
    decreases |d|
  {
    hide OwnedStep;
    if OwnedStep(st, d).Silent? {
      RunByNext(OwnedStep(st, d).state, OwnedStep(st, d).rest);
    }
  }

  /** `Decoder::new` followed by `decode_all`. */
  function DecodeAll(data: Bytes): Option<Trace<FieldValue>> {
    if DecodeHeader(data).None? then None else Some(Run(Fresh, data[HEADER_SIZE..]))
  }

  // ----- longer and shorter inputs -----

  lemma HeaderExtends(d: Bytes, t: Bytes)
    ensures DecodeHeader(d).Some? ==>
              DecodeHeader(d + t).Some? && (d + t)[HEADER_SIZE..] == d[HEADER_SIZE..] + t
    ensures d != [] && d[0] != MAGIC[0] ==> DecodeHeader(d + t).None?
    ensures DecodeHeader(d + t).Some? && HEADER_SIZE <= |d| ==> DecodeHeader(d).Some?
  {
    if DecodeHeader(d).Some? {
      assert (d + t)[..4] == d[..4];
      assert (d + t)[HEADER_SIZE..] == d[HEADER_SIZE..] + t;
    }
    if DecodeHeader(d + t).Some? {
      assert (d + t)[..4][0] == MAGIC[0];
      if HEADER_SIZE <= |d| {
        assert (d + t)[..4] == d[..4];
      }
    }
  }

  lemma FrameIsNoHeader(d: Bytes, schemas: Lookup, base: u64)
    ensures DecodeFrame(d, schemas, base).Parsed? ==> d[0] != MAGIC[0]
    ensures DecodeFrameRef(d, schemas, base).Borrowed? ==> d[0] != MAGIC[0]
  {
  }

  /** A step that succeeds does not depend on what follows, and a step on a longer input that
      ends inside the shorter one was already possible there. */
  lemma StepExtends(st: DecState, d: Bytes, t: Bytes)
    ensures !OwnedStep(st, d).End? ==> OwnedStep(st, d + t) == OwnedStep(st, d).Longer(t)
    ensures OwnedStep(st, d).End? ==>
              match OwnedStep(st, d + t)
              case End => true
              case Panic => false
              case Silent(_, rest) => |rest| < |t|
              case Emit(_, _, rest) => |rest| < |t|
              case Conflict(_, rest) => |rest| < |t|
  {
    hide DecodeFrame, DecodeHeader, InfoOf, AddEntries;
    HeaderExtends(d, t);
    DecodeFrameExtends(d, st.cache, st.base, t);
    FrameIsNoHeader(d, st.cache, st.base);
    FrameIsNoHeader(d + t, st.cache, st.base);
    if d == [] {
      assert d + t == t;
    } else if OwnedStep(st, d).End? {
      HeaderOrNot(d, t);
    }
  }

  lemma HeaderOrNot(d: Bytes, t: Bytes)
    ensures DecodeHeader(d).None? && DecodeHeader(d + t).Some? ==> |(d + t)[HEADER_SIZE..]| < |t|
  {
    HeaderExtends(d, t);
  }

  /** Decoding goes on over the seam of two byte strings as if they had always been one. */
  lemma {:induction false} RunAppend(st: DecState, a: Bytes, b: Bytes)
    requires Run(st, a).Clean()
    ensures Run(st, a + b)
            == (var second := Run(Run(st, a).state, b); second.(frames := Run(st, a).frames + second.frames))
    decreases |a|
  {
    hide OwnedStep;
    StepExtends(st, a, b);
    match OwnedStep(st, a)
    case End =>
      assert a + b == b;
      assert [] + Run(st, b).frames == Run(st, b).frames;
    case Silent(st1, rest) => RunAppend(st1, rest, b);
    case Emit(f, st1, rest) =>
      RunAppend(st1, rest, b);
      var second := Run(Run(st1, rest).state, b).frames;
      assert [f] + (Run(st1, rest).frames + second) == ([f] + Run(st1, rest).frames) + second;
    case _ =>
  }

  /** Where each frame that `Run` returns ends, counted from the start of `d`. */
  function FrameEnds(st: DecState, d: Bytes, before: nat): (ends: seq<nat>)
    ensures |ends| == |Run(st, d).frames|
    ensures forall i :: 0 <= i < |ends| ==> before < ends[i]
    decreases |d|
  {
    match OwnedStep(st, d)
    case End => []
    case Panic => []
    case Silent(st1, rest) => FrameEnds(st1, rest, before + |d| - |rest|)
    case Emit(f, st1, rest) =>
      var end := before + |d| - |rest|;
      [end] + FrameEnds(st1, rest, end)
    case Conflict(_, _) => []
  }

  /** The number of leading frames that end within `k` bytes. */
  ghost predicate Cuts(n: nat, ends: seq<nat>, k: nat) {
    && n <= |ends|
    && (forall i :: 0 <= i < n ==> ends[i] <= k)
    && (forall i :: n <= i < |ends| ==> k < ends[i])
  }

  lemma CutsCons(n: nat, end: nat, ends: seq<nat>, k: nat)
    requires Cuts(n, ends, k) && end <= k
    ensures Cuts(n + 1, [end] + ends, k)
  {
  }

  lemma {:induction false} CutRun(st: DecState, d: Bytes, t: Bytes, before: nat)
    ensures Run(st, d).frames <= Run(st, d + t).frames
    ensures Cuts(|Run(st, d).frames|, FrameEnds(st, d + t, before), before + |d|)
    decreases |d|
  {
    hide OwnedStep;
    StepExtends(st, d, t);
    match OwnedStep(st, d)
    case Silent(st1, rest) => CutRun(st1, rest, t, before + |d| - |rest|);
    case Emit(f, st1, rest) =>
      var end := before + |d| - |rest|;
      CutRun(st1, rest, t, end);
      CutsCons(|Run(st1, rest).frames|, end, FrameEnds(st1, rest + t, end), before + |d|);
    case _ =>
  }

  /** Cutting a stream anywhere after its header loses exactly the frames that no longer fit. */
  lemma TruncationGivesPrefix(data: Bytes, k: nat)
    requires DecodeHeader(data).Some? && HEADER_SIZE <= k <= |data|
    ensures DecodeHeader(data[..k]).Some?
    ensures DecodeAll(data[..k]).value.frames <= DecodeAll(data).value.frames
    ensures Cuts(|DecodeAll(data[..k]).value.frames|, FrameEnds(Fresh, data[HEADER_SIZE..], HEADER_SIZE), k)
  {
    hide DecodeFrame, Run, FrameEnds;
    assert data[..k] + data[k..] == data;
    HeaderExtends(data[..k], data[k..]);
    assert data[..k][HEADER_SIZE..] + data[k..] == data[HEADER_SIZE..];
    CutRun(Fresh, data[..k][HEADER_SIZE..], data[k..], HEADER_SIZE);
  }

  /** Streams written one after the other decode to their frames one after the other; the state
      at the end is the last stream's alone. */
  lemma BatchesConcatenate(a: Bytes, b: Bytes)
    requires DecodeAll(a).Some? && DecodeAll(a).value.Clean()
    requires DecodeHeader(b).Some?
    ensures DecodeAll(a + b).Some?
    ensures DecodeAll(a + b).value
            == (var second := DecodeAll(b).value;
                second.(frames := DecodeAll(a).value.frames + second.frames))
  {
    hide DecodeFrame, Run;
    HeaderExtends(a, b);
    var body := a[HEADER_SIZE..];
    RunAppend(Fresh, body, b);
    RunHeader(Run(Fresh, body).state, b);
  }

  /** A header in mid-stream starts afresh. */
  lemma RunHeader(st: DecState, b: Bytes)
    requires DecodeHeader(b).Some?
    ensures Run(st, b) == Run(Fresh, b[HEADER_SIZE..])
  {
    hide DecodeFrame;
  }

  // ----- owned and zero-copy runs -----

  function OwnedDecoded(f: Decoded<FieldValueRef>): Decoded<FieldValue> {
    match f
    case SchemaSeen(entry) => SchemaSeen(entry)
    case EventSeen(typeId, ts, values) => EventSeen(typeId, ts, ContentsOf(values))
    case PoolSeen(entries) => PoolSeen(entries)
  }

  function ReadableDecoded(f: Decoded<FieldValue>): Decoded<FieldValue> {
    if f.EventSeen? then f.(values := ReadableValues(f.values)) else f
  }

  function OwnedAll(frames: seq<Decoded<FieldValueRef>>): seq<Decoded<FieldValue>> {
    seq(|frames|, i requires 0 <= i < |frames| => OwnedDecoded(frames[i]))
  }

  function ReadableAll(frames: seq<Decoded<FieldValue>>): seq<Decoded<FieldValue>> {
    seq(|frames|, i requires 0 <= i < |frames| => ReadableDecoded(frames[i]))
  }

  /** Every frame both decoders reach is alike to them. */
  predicate AlikeRun(st: DecState, d: Bytes)
    decreases |d|
  {
    (d == [] || DecodeHeader(d).Some? || FrameAlike(d, st.cache, st.base)) &&
    match OwnedStep(st, d)
    case End => true
    case Panic => true
    case Silent(st1, rest) => AlikeRun(st1, rest)
    case Emit(_, st1, rest) => AlikeRun(st1, rest)
    case Conflict(_, _) => true
  }

  predicate SameSteps(o: Step<FieldValue>, r: Step<FieldValueRef>) {
    match o
    case End => r.End?
    case Panic => r.Panic?
    case Silent(st, rest) => r == Silent(st, rest)
    case Emit(f, st, rest) =>
      r.Emit? && r.state == st && r.rest == rest && OwnedDecoded(r.frame) == ReadableDecoded(f)
    case Conflict(st, rest) => r == Conflict(st, rest)
  }

  /** Two steps that differ: the zero-copy decoder ends or panics at an event the owned one reads,
      or panics where that one ends. */
  lemma StepsAgree(st: DecState, d: Bytes)
    requires d != []
    ensures var o, r := OwnedStep(st, d), RefStep(st, d);
            && (SameSteps(o, r) <==> DecodeHeader(d).Some? || FrameAlike(d, st.cache, st.base))
            && (!SameSteps(o, r) ==> (r.Panic? && (o.Emit? || o.End?)) || (r.End? && o.Emit?))
            && !o.Panic?
    ensures BorrowableFrame(d, st.cache, st.base) ==> FrameAlike(d, st.cache, st.base)
  {
    hide DecodeFrame, DecodeFrameRef, BorrowableFrame, FrameAlike, DecodeHeader, InfoOf, AddEntries, ContentsOf,
         ReadableValues;
    FramesAgree(d, st.cache, st.base);
  }

  lemma ConsFrames(r: Decoded<FieldValueRef>, rs: seq<Decoded<FieldValueRef>>,
                   f: Decoded<FieldValue>, fs: seq<Decoded<FieldValue>>)
    ensures OwnedAll([r] + rs) == [OwnedDecoded(r)] + OwnedAll(rs)
    ensures ReadableAll([f] + fs) == [ReadableDecoded(f)] + ReadableAll(fs)
  {
  }

  /** Same frames, same state, same end. */
  predicate SameRuns(o: Trace<FieldValue>, r: Trace<FieldValueRef>) {
    && r.state == o.state && r.rest == o.rest && r.ending == o.ending
    && OwnedAll(r.frames) == ReadableAll(o.frames)
  }

  /** One frame more in front makes no difference. */
  lemma SameRunsCons(r: Decoded<FieldValueRef>, rs: Trace<FieldValueRef>, f: Decoded<FieldValue>, fs: Trace<FieldValue>)
    requires OwnedDecoded(r) == ReadableDecoded(f)
    ensures SameRuns(fs.(frames := [f] + fs.frames), rs.(frames := [r] + rs.frames)) <==> SameRuns(fs, rs)
  {
    hide OwnedDecoded, ReadableDecoded;
    ConsFrames(r, rs.frames, f, fs.frames);
    assert ([OwnedDecoded(r)] + OwnedAll(rs.frames))[1..] == OwnedAll(rs.frames);
    assert ([ReadableDecoded(f)] + ReadableAll(fs.frames))[1..] == ReadableAll(fs.frames);
  }

  /** Exactly on runs whose frames are all alike do the two decoders give the same frames and end
      in the same state. */
  lemma {:induction false} RunsAgree(st: DecState, d: Bytes)
    ensures SameRuns(Run(st, d), RunRef(st, d)) <==> AlikeRun(st, d)
    decreases |d|
  {
    hide DecodeFrame, DecodeFrameRef, FrameAlike, BorrowableFrame, OwnedDecoded, ReadableDecoded;
    if d != [] {
      StepsAgree(st, d);
      hide OwnedStep, RefStep, OwnedAll, ReadableAll;
      if !SameSteps(OwnedStep(st, d), RefStep(st, d)) {
        RunsDiffer(st, d);
      } else {
        match OwnedStep(st, d)
        case Silent(st1, rest) => RunsAgree(st1, rest);
        case Emit(f, st1, rest) =>
          RunsAgree(st1, rest);
          SameRunsCons(RefStep(st, d).frame, RunRef(st1, rest), f, Run(st1, rest));
        case _ => NoFrames();
      }
    } else {
      NoFrames();
    }
  }

  lemma NoFrames()
    ensures OwnedAll([]) == ReadableAll([])
  {
  }

  lemma RunsDiffer(st: DecState, d: Bytes)
    requires var o, r := OwnedStep(st, d), RefStep(st, d);
             (r.Panic? && (o.Emit? || o.End?)) || (r.End? && o.Emit?)
    ensures !SameRuns(Run(st, d), RunRef(st, d))
  {
    hide OwnedStep, RefStep;
  }

  // ----- plain runs -----

  /** A run over one stream, without a header in the middle, that both decoders read alike. */
  predicate PlainRun(st: DecState, d: Bytes)
    decreases |d|
  {
    (d == [] || (DecodeHeader(d).None? && BorrowableFrame(d, st.cache, st.base))) &&
    match OwnedStep(st, d)
    case End => true
    case Panic => true
    case Silent(st1, rest) => PlainRun(st1, rest)
    case Emit(_, st1, rest) => PlainRun(st1, rest)
    case Conflict(_, _) => true
  }

  lemma {:induction false} PlainIsAlike(st: DecState, d: Bytes)
    requires PlainRun(st, d)
    ensures AlikeRun(st, d)
    decreases |d|
  {
    FramesAgree(d, st.cache, st.base);
    hide OwnedStep, BorrowableFrame, FrameAlike, DecodeFrame, DecodeFrameRef;
    match OwnedStep(st, d)
    case Silent(st1, rest) => PlainIsAlike(st1, rest);
    case Emit(_, st1, rest) => PlainIsAlike(st1, rest);
    case _ =>
  }

  lemma {:induction false} BorrowableExtends(types: seq<FieldType>, d: Bytes, t: Bytes)
    requires Borrowable(types, d) && TakeValues(types, d).Parsed?
    ensures Borrowable(types, d + t)
  {
    hide DecodeValue, TakeCounted, ValidUtf8, LastValueOverruns, DecodeRef, Contents, Readable;
    if types != [] {
      DecodeValueExtends(types[0], d, t);
      TakeCountedExtends(d, t);
      StringParses(types[0], d);
      ZeroCopyAgrees(types[0], d + t);
      BorrowableExtends(types[1..], DecodeValue(types[0], d).rest, t);
    }
  }

  lemma BorrowableFrameExtends(d: Bytes, schemas: Lookup, base: u64, t: Bytes)
    requires BorrowableFrame(d, schemas, base) && DecodeFrame(d, schemas, base).Parsed?
    ensures BorrowableFrame(d + t, schemas, base)
  {
    hide TakeEventHead, TakeValues, Borrowable, TakeOther;
    if d[0] == TAG_EVENT {
      assert (d + t)[1..] == d[1..] + t;
      TakeEventHeadExtends(d[1..], schemas, base, t);
      var head := TakeEventHead(d[1..], schemas, base);
      BorrowableExtends(head.value.fieldTypes, head.rest, t);
    }
  }

  lemma {:induction false} PlainAppend(st: DecState, a: Bytes, b: Bytes)
    requires PlainRun(st, a) && Run(st, a).Clean() && PlainRun(Run(st, a).state, b)
    ensures PlainRun(st, a + b)
    decreases |a|
  {
    hide DecodeFrame, BorrowableFrame, DecodeHeader, Absorb;
    StepExtends(st, a, b);
    if a == [] {
      assert a + b == b;
    } else {
      FrameIsNoHeader(a, st.cache, st.base);
      HeaderExtends(a, b);
      if DecodeFrame(a, st.cache, st.base).Parsed? {
        BorrowableFrameExtends(a, st.cache, st.base, b);
      }
      hide OwnedStep;
      match OwnedStep(st, a)
      case Silent(st1, rest) => PlainAppend(st1, rest, b);
      case Emit(_, st1, rest) => PlainAppend(st1, rest, b);
      case _ =>
    }
  }

  /** Within one stream a schema, once seen, stays under its id. */
  lemma {:induction false} RegistryGrows(st: DecState, d: Bytes, id: u16)
    requires PlainRun(st, d) && id in st.registry
    ensures id in Run(st, d).state.registry && Run(st, d).state.registry[id] == st.registry[id]
    decreases |d|
  {
    hide DecodeFrame, BorrowableFrame, DecodeHeader, InfoOf, AddEntries;
    match OwnedStep(st, d)
    case Silent(st1, rest) => RegistryGrows(st1, rest, id);
    case Emit(_, st1, rest) => RegistryGrows(st1, rest, id);
    case _ =>
  }

  ghost predicate CacheAgrees(d: DecState) {
    && d.cache.Keys == d.registry.Keys
    && forall id :: id in d.registry ==> d.cache[id] == InfoOf(d.registry[id])
  }

  /** A schema that conflicts with a registered one leaves the cache behind the registry exactly
      when its events would be read differently: another name, another list of field types, or a
      timestamp in one and none in the other. Other names of the fields do no harm. */
  lemma ConflictKeepsCache(st: DecState, id: u16, entry: SchemaEntry, rest: Bytes)
    requires CacheAgrees(st) && id in st.registry && st.registry[id] != entry
    ensures var step := Absorb<FieldValue>(st, SchemaFrame(id, entry), rest);
            step.Conflict? && (CacheAgrees(step.state) <==> InfoOf(entry) == InfoOf(st.registry[id]))
  {
    hide InfoOf;
    var st1 := Absorb<FieldValue>(st, SchemaFrame(id, entry), rest).state;
    assert st1.cache[id] == InfoOf(entry);
  }

  /** The first conflict, if there is one, is over more than the names of fields. */
  predicate MisreadConflict(st: DecState, d: Bytes)
    decreases |d|
  {
    match OwnedStep(st, d)
    case End => false
    case Panic => false
    case Silent(st1, rest) => MisreadConflict(st1, rest)
    case Emit(_, st1, rest) => MisreadConflict(st1, rest)
    case Conflict(_, _) =>
      var f := DecodeFrame(d, st.cache, st.base);
      f.Parsed? && f.value.SchemaFrame? && f.value.typeId in st.registry
      && InfoOf(f.value.entry) != InfoOf(st.registry[f.value.typeId])
  }

  /** Decoding keeps the cache and the registry in agreement except, exactly, when it stops at
      such a conflict. */
  lemma {:induction false} RunKeepsCache(d: DecState, bytes: Bytes)
    requires CacheAgrees(d)
    ensures CacheAgrees(Run(d, bytes).state) <==> !MisreadConflict(d, bytes)
    ensures MisreadConflict(d, bytes) ==> Run(d, bytes).ending == Conflicted
    decreases |bytes|
  {
    hide DecodeFrame, DecodeHeader, InfoOf, AddEntries;
    StepKeepsCache(d, bytes);
    hide CacheAgrees;
    match OwnedStep(d, bytes)
    case Silent(d1, rest) => RunKeepsCache(d1, rest);
    case Emit(_, d1, rest) => RunKeepsCache(d1, rest);
    case _ =>
  }

  lemma StepKeepsCache(d: DecState, bytes: Bytes)
    requires CacheAgrees(d)
    ensures match OwnedStep(d, bytes)
            case Silent(d1, _) => CacheAgrees(d1)
            case Emit(_, d1, _) => CacheAgrees(d1)
            case Conflict(d1, _) => CacheAgrees(d1) <==> !MisreadConflict(d, bytes)
            case _ => true
  {
    hide DecodeFrame, DecodeHeader, InfoOf, AddEntries, Absorb, CacheAgrees;
    var f := DecodeFrame(bytes, d.cache, d.base);
    if bytes != [] && DecodeHeader(bytes).None? && f.Parsed? {
      AbsorbKeepsCache(d, f.value, f.rest);
    } else {
      FreshAgrees();
    }
  }

  lemma FreshAgrees()
    ensures CacheAgrees(Fresh)
  {
  }

  lemma AbsorbKeepsCache(d: DecState, f: Frame<FieldValue>, rest: Bytes)
    requires CacheAgrees(d)
    ensures match Absorb(d, f, rest)
            case Silent(d1, _) => CacheAgrees(d1)
            case Emit(_, d1, _) => CacheAgrees(d1)
            case Conflict(d1, _) =>
              f.SchemaFrame? && f.typeId in d.registry
              && (CacheAgrees(d1) <==> InfoOf(f.entry) == InfoOf(d.registry[f.typeId]))
            case _ => false
  {
    hide InfoOf, AddEntries;
    if f.SchemaFrame? && f.typeId in d.registry && d.registry[f.typeId] != f.entry {
      ConflictKeepsCache(d, f.typeId, f.entry, rest);
    }
  }

  /** Two schemas for one id. */
  lemma TwoSchemas(id: u16, a: SchemaEntry, b: SchemaEntry)
    requires SizedSchema(a) && SizedSchema(b) && a != b
    ensures var run := Run(Fresh, EncodeSchema(id, a) + EncodeSchema(id, b));
            && run.frames == [SchemaSeen(a)] && run.ending == Conflicted
            && run.state.registry == map[id := a] && run.state.cache == map[id := InfoOf(b)]
  {
    hide InfoOf, AddEntries, SizedSchema, DecodeFrame, SchemaBytes;
    var d := EncodeSchema(id, a) + EncodeSchema(id, b);
    SchemaRoundTrip(id, a, EncodeSchema(id, b), map[], 0);
    var cache := map[id := InfoOf(a)];
    SchemaRoundTrip(id, b, [], cache, 0);
    assert EncodeSchema(id, b) + [] == EncodeSchema(id, b);
    NoHeader(d);
    NoHeader(EncodeSchema(id, b));
    var st1 := Fresh.(cache := cache, registry := map[id := a]);
    assert OwnedStep(Fresh, d) == Emit(SchemaSeen(a), st1, EncodeSchema(id, b));
    assert OwnedStep(st1, EncodeSchema(id, b)) == Conflict(st1.(cache := cache[id := InfoOf(b)]), []);
  }

  lemma NoHeader(d: Bytes)
    requires d != [] && d[0] != MAGIC[0]
    ensures DecodeHeader(d).None?
  {
    assert 4 <= |d| ==> d[..4][0] == d[0];
  }

  /** A stream behind whose end the cache has a schema with a timestamp and the registry the same
      without one; and one whose conflict, in a field's name, does no harm. */
  lemma CacheDiverges()
    ensures var a, b := SchemaEntry([], false, []), SchemaEntry([], true, []);
            !CacheAgrees(Run(Fresh, EncodeSchema(0, a) + EncodeSchema(0, b)).state)
    ensures var a, b := SchemaEntry([], true, [FieldDef([], U8)]), SchemaEntry([], true, [FieldDef([0x61], U8)]);
            var run := Run(Fresh, EncodeSchema(0, a) + EncodeSchema(0, b));
            run.ending == Conflicted && CacheAgrees(run.state)
  {
    hide Run, EncodeSchema;
    var a, b := SchemaEntry([], false, []), SchemaEntry([], true, []);
    TwoSchemas(0, a, b);
    assert InfoOf(a) != InfoOf(b) && 0 in map[0 := a];
    var fields, others := [FieldDef([], U8)], [FieldDef([0x61], U8)];
    assert ValidUtf8([0x61]);
    var c, e := SchemaEntry([], true, fields), SchemaEntry([], true, others);
    assert c.fields[0] != e.fields[0];
    TwoSchemas(0, c, e);
    assert FieldTypes(fields) == FieldTypes(others);
  }
}
