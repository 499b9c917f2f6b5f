/** Runtime events: what the recorder hands to the writer, the typed events the writer encodes,
    and the events a reader gets back (dial9-tokio-telemetry/src/telemetry/format.rs). */
module Telemetry {
  import opened Wire
  import opened Wrappers
  import opened Utf8
  import opened Types
  import opened ZeroCopy
  import opened Schema
  import opened Encoding
  import Codec

  /** A spawn location, by the text it is shown as. */
  datatype Location = Location(shown: Text)

  datatype SampleSource = CpuProfile | SchedEvent

  datatype RawEvent =
    | PollStart(timestamp: u64, worker: u64, depth: u64, task: u64, location: Location)
    | PollEnd(timestamp: u64, worker: u64)
    | WorkerPark(timestamp: u64, worker: u64, depth: u64, cpuTime: u64)
    | WorkerUnpark(timestamp: u64, worker: u64, depth: u64, cpuTime: u64, schedWait: u64)
    | QueueSample(timestamp: u64, depth: u64)
    | TaskSpawn(timestamp: u64, task: u64, location: Location)
    | TaskTerminate(timestamp: u64, task: u64)
    | WakeEvent(timestamp: u64, waker: u64, woken: u64, targetWorker: u8)
    | CpuSample(timestamp: u64, worker: u64, tid: u32, source: SampleSource, threadName: Option<Text>,
                callchain: seq<u64>)

  /** What a reader gets: strings by pool id, queue depths in one byte. This is the borrowed form;
      the owned one drops the thread name. */
  datatype TelemetryEvent =
    | PollStarted(timestamp: u64, worker: u64, localQueue: u8, task: u64, spawnLoc: u32)
    | PollEnded(timestamp: u64, worker: u64)
    | WorkerParked(timestamp: u64, worker: u64, localQueue: u8, cpuTime: u64)
    | WorkerUnparked(timestamp: u64, worker: u64, localQueue: u8, cpuTime: u64, schedWait: u64)
    | QueueSampled(timestamp: u64, globalQueue: u8)
    | TaskSpawned(timestamp: u64, task: u64, spawnLoc: u32)
    | TaskTerminated(timestamp: u64, task: u64)
    | Woken(timestamp: u64, waker: u64, woken: u64, targetWorker: u8)
    | CpuSampled(timestamp: u64, worker: u64, tid: u32, source: SampleSource, threadName: u32, callchain: seq<u64>)
    | SegmentMetadata(timestamp: u64, entries: seq<Pair>)

  // ----- the ten event types -----

  datatype Kind =
    | PollStartKind | PollEndKind | WorkerParkKind | WorkerUnparkKind | QueueSampleKind
    | TaskSpawnKind | TaskTerminateKind | WakeKind | CpuSampleKind | MetadataKind

  const AllKinds: set<Kind> := {
    PollStartKind, PollEndKind, WorkerParkKind, WorkerUnparkKind, QueueSampleKind,
    TaskSpawnKind, TaskTerminateKind, WakeKind, CpuSampleKind, MetadataKind
  }

  function KindName(k: Kind): string {
    match k
    case PollStartKind => "PollStartEvent"
    case PollEndKind => "PollEndEvent"
    case WorkerParkKind => "WorkerParkEvent"
    case WorkerUnparkKind => "WorkerUnparkEvent"
    case QueueSampleKind => "QueueSampleEvent"
    case TaskSpawnKind => "TaskSpawnEvent"
    case TaskTerminateKind => "TaskTerminateEvent"
    case WakeKind => "WakeEventEvent"
    case CpuSampleKind => "CpuSampleEvent"
    case MetadataKind => "SegmentMetadataEvent"
  }

  function EventName(k: Kind): (t: Text)
    ensures |t| == |KindName(k)| && t[0] == KindName(k)[0] as int
  {
    Ascii(KindName(k))
  }

  /** No two event types share a name: length and first letter tell them apart. */
  lemma NamesDiffer(k1: Kind, k2: Kind)
    ensures EventName(k1) == EventName(k2) ==> k1 == k2
  {
    hide EventName;
  }

  function KindTypes(k: Kind): seq<FieldType> {
    match k
    case PollStartKind => [Varint, U8, Varint, PooledString]
    case PollEndKind => [Varint]
    case WorkerParkKind => [Varint, U8, Varint]
    case WorkerUnparkKind => [Varint, U8, Varint, Varint]
    case QueueSampleKind => [U8]
    case TaskSpawnKind => [Varint, PooledString]
    case TaskTerminateKind => [Varint]
    case WakeKind => [Varint, Varint, U8]
    case CpuSampleKind => [Varint, U32, U8, PooledString, StackFrames]
    case MetadataKind => [StringMap]
  }

  function FieldNames(k: Kind): (names: seq<string>)
    ensures |names| == |KindTypes(k)| <= 5
    ensures forall i :: 0 <= i < |names| ==> |names[i]| < 20
  {
    match k
    case PollStartKind => ["worker_id", "local_queue", "task_id", "spawn_loc"]
    case PollEndKind => ["worker_id"]
    case WorkerParkKind => ["worker_id", "local_queue", "cpu_time_ns"]
    case WorkerUnparkKind => ["worker_id", "local_queue", "cpu_time_ns", "sched_wait_ns"]
    case QueueSampleKind => ["global_queue"]
    case TaskSpawnKind => ["task_id", "spawn_loc"]
    case TaskTerminateKind => ["task_id"]
    case WakeKind => ["waker_task_id", "woken_task_id", "target_worker"]
    case CpuSampleKind => ["worker_id", "tid", "source", "thread_name", "callchain"]
    case MetadataKind => ["entries"]
  }

  function KindFields(k: Kind): (fields: seq<FieldDef>)
    ensures |fields| == |KindTypes(k)|
    ensures forall i :: 0 <= i < |fields| ==> fields[i].fieldType == KindTypes(k)[i] && |fields[i].name| < 20
  {
    seq(|KindTypes(k)|, i requires 0 <= i < |KindTypes(k)| => FieldDef(Ascii(FieldNames(k)[i]), KindTypes(k)[i]))
  }

  /** The schema of each derived event type. The names differ, so no further mark is needed to
      tell the Rust types apart. */
  function KindDef(k: Kind): TypeDef {
    TypeDef(0, EventName(k), KindFields(k))
  }

  lemma TenKinds()
    ensures |AllKinds| == 10
  {
  }

  lemma InAllKinds(k: Kind)
    ensures k in AllKinds
  {
  }

  // ----- writing -----

  function KindOfRaw(ev: RawEvent): Kind {
    match ev
    case PollStart(_, _, _, _, _) => PollStartKind
    case PollEnd(_, _) => PollEndKind
    case WorkerPark(_, _, _, _) => WorkerParkKind
    case WorkerUnpark(_, _, _, _, _) => WorkerUnparkKind
    case QueueSample(_, _) => QueueSampleKind
    case TaskSpawn(_, _, _) => TaskSpawnKind
    case TaskTerminate(_, _) => TaskTerminateKind
    case WakeEvent(_, _, _, _) => WakeKind
    case CpuSample(_, _, _, _, _, _) => CpuSampleKind
  }

  const NO_THREAD_NAME: Text := Ascii("<no thread name>")

  /** The string an event interns before it is written, if it has one. */
  function Interned(ev: RawEvent): Option<Text> {
    match ev
    case PollStart(_, _, _, _, location) => Some(location.shown)
    case TaskSpawn(_, _, location) => Some(location.shown)
    case CpuSample(_, _, _, _, threadName, _) =>
      Some(if threadName.Some? then threadName.value else NO_THREAD_NAME)
    case _ => None
  }

  function Source(source: SampleSource): u8 {
    if source == CpuProfile then 0 else 1
  }

  /** The typed event's fields; `id` is the interned string's. A depth is cast to one byte. */
  function ValuesOf(ev: RawEvent, id: u32): seq<FieldValue> {
    match ev
    case PollStart(_, worker, depth, task, _) =>
      [VarintValue(worker), VarintValue(depth % 256), VarintValue(task), PooledValue(id)]
    case PollEnd(_, worker) => [VarintValue(worker)]
    case WorkerPark(_, worker, depth, cpuTime) => [VarintValue(worker), VarintValue(depth % 256), VarintValue(cpuTime)]
    case WorkerUnpark(_, worker, depth, cpuTime, schedWait) =>
      [VarintValue(worker), VarintValue(depth % 256), VarintValue(cpuTime), VarintValue(schedWait)]
    case QueueSample(_, depth) => [VarintValue(depth % 256)]
    case TaskSpawn(_, task, _) => [VarintValue(task), PooledValue(id)]
    case TaskTerminate(_, task) => [VarintValue(task)]
    case WakeEvent(_, waker, woken, target) => [VarintValue(waker), VarintValue(woken), VarintValue(target)]
    case CpuSample(_, worker, tid, source, _, callchain) =>
      [VarintValue(worker), VarintValue(tid), VarintValue(Source(source)), PooledValue(id), FramesValue(callchain)]
  }

  /** What must come back for an event whose string got pool id `id`. */
  function Expected(ev: RawEvent, id: u32): TelemetryEvent {
    match ev
    case PollStart(ts, worker, depth, task, _) => PollStarted(ts, worker, depth % 256, task, id)
    case PollEnd(ts, worker) => PollEnded(ts, worker)
    case WorkerPark(ts, worker, depth, cpuTime) => WorkerParked(ts, worker, depth % 256, cpuTime)
    case WorkerUnpark(ts, worker, depth, cpuTime, wait) => WorkerUnparked(ts, worker, depth % 256, cpuTime, wait)
    case QueueSample(ts, depth) => QueueSampled(ts, depth % 256)
    case TaskSpawn(ts, task, _) => TaskSpawned(ts, task, id)
    case TaskTerminate(ts, task) => TaskTerminated(ts, task)
    case WakeEvent(ts, waker, woken, target) => Woken(ts, waker, woken, target)
    case CpuSample(ts, worker, tid, source, _, callchain) => CpuSampled(ts, worker, tid, source, id, callchain)
  }

  // ----- reading -----

  function KindOfName(name: Text): Option<Kind> {
    if name == EventName(PollStartKind) then Some(PollStartKind)
    else if name == EventName(PollEndKind) then Some(PollEndKind)
    else if name == EventName(WorkerParkKind) then Some(WorkerParkKind)
    else if name == EventName(WorkerUnparkKind) then Some(WorkerUnparkKind)
    else if name == EventName(QueueSampleKind) then Some(QueueSampleKind)
    else if name == EventName(TaskSpawnKind) then Some(TaskSpawnKind)
    else if name == EventName(TaskTerminateKind) then Some(TaskTerminateKind)
    else if name == EventName(CpuSampleKind) then Some(CpuSampleKind)
    else if name == EventName(WakeKind) then Some(WakeKind)
    else if name == EventName(MetadataKind) then Some(MetadataKind)
    else None
  }

  lemma KindByName(k: Kind)
    ensures KindOfName(EventName(k)) == Some(k)
  {
    hide EventName, KindName;
    forall k1: Kind
      ensures EventName(k1) == EventName(k) ==> k1 == k
    {
      NamesDiffer(k1, k);
    }
  }

  // `fields.get(i)?` followed by the field type's `decode_ref`
  function NumberAt(values: seq<FieldValue>, i: nat): Option<u64> {
    if i < |values| && values[i].VarintValue? then Some(values[i].n) else None
  }

  function PooledAt(values: seq<FieldValue>, i: nat): Option<u32> {
    if i < |values| && values[i].PooledValue? then Some(values[i].id) else None
  }

  function FramesAt(values: seq<FieldValue>, i: nat): Option<seq<u64>> {
    if i < |values| && values[i].FramesValue? then Some(values[i].addrs) else None
  }

  function MapAt(values: seq<FieldValue>, i: nat): Option<seq<Pair>> {
    if i < |values| && values[i].MapValue? then Some(values[i].pairs) else None
  }

  /** The derived `decode` of each type: `None` when a field is missing or of another kind. */
  function DecodeKind(k: Kind, ts: u64, v: seq<FieldValue>): Option<TelemetryEvent> {
    var a, b, c, d := NumberAt(v, 0), NumberAt(v, 1), NumberAt(v, 2), NumberAt(v, 3);
    match k
    case PollStartKind =>
      if a.Some? && b.Some? && c.Some? && PooledAt(v, 3).Some? then
        Some(PollStarted(ts, a.value, b.value % 256, c.value, PooledAt(v, 3).value)) else None
    case PollEndKind => if a.Some? then Some(PollEnded(ts, a.value)) else None
    case WorkerParkKind =>
      if a.Some? && b.Some? && c.Some? then Some(WorkerParked(ts, a.value, b.value % 256, c.value)) else None
    case WorkerUnparkKind =>
      if a.Some? && b.Some? && c.Some? && d.Some? then
        Some(WorkerUnparked(ts, a.value, b.value % 256, c.value, d.value)) else None
    case QueueSampleKind => if a.Some? then Some(QueueSampled(ts, a.value % 256)) else None
    case TaskSpawnKind =>
      if a.Some? && PooledAt(v, 1).Some? then Some(TaskSpawned(ts, a.value, PooledAt(v, 1).value)) else None
    case TaskTerminateKind => if a.Some? then Some(TaskTerminated(ts, a.value)) else None
    case WakeKind =>
      if a.Some? && b.Some? && c.Some? then Some(Woken(ts, a.value, b.value, c.value % 256)) else None
    case CpuSampleKind =>
      if a.Some? && b.Some? && c.Some? && PooledAt(v, 3).Some? && FramesAt(v, 4).Some? then
        Some(CpuSampled(ts, a.value, b.value % TWO_32, if c.value % 256 == 1 then SchedEvent else CpuProfile,
                        PooledAt(v, 3).value, FramesAt(v, 4).value)) else None
    case MetadataKind => if MapAt(v, 0).Some? then Some(SegmentMetadata(ts, MapAt(v, 0).value)) else None
  }

  /** `decode_ref`: by schema name; unknown names and events without a timestamp give nothing. */
  function DecodeNamed(name: Text, ts: Option<u64>, values: seq<FieldValue>): Option<TelemetryEvent> {
    match KindOfName(name)
    case None => None
    case Some(k) => if ts.None? then None else DecodeKind(k, ts.value, values)
  }

  lemma KindOfNameIs(name: Text, k: Kind)
    ensures KindOfName(name) == Some(k) <==> name == EventName(k)
  {
    hide EventName, KindName;
    KindByName(k);
  }

  /** Numbers of every width come as numbers; other values keep their kind. */
  predicate HasKind(ft: FieldType, v: FieldValue) {
    OwnType(v) == if ft in {U8, U16, U32} then Varint else ft
  }

  /** An event is understood exactly if it has the name of one of the ten types, a timestamp, and in
      front a value of the right kind for each of the type's fields. */
  lemma UnderstoodWhen(name: Text, ts: Option<u64>, values: seq<FieldValue>)
    ensures DecodeNamed(name, ts, values).Some? <==>
            exists k: Kind ::
              && name == EventName(k) && ts.Some? && |KindTypes(k)| <= |values|
              && forall i :: 0 <= i < |KindTypes(k)| ==> HasKind(KindTypes(k)[i], values[i])
  {
    hide EventName, KindOfName;
    forall k: Kind
      ensures KindOfName(name) == Some(k) <==> name == EventName(k)
    {
      KindOfNameIs(name, k);
    }
    if KindOfName(name).Some? && ts.Some? {
      KindUnderstoodWhen(KindOfName(name).value, ts.value, values);
    }
  }

  lemma KindUnderstoodWhen(k: Kind, ts: u64, values: seq<FieldValue>)
    ensures DecodeKind(k, ts, values).Some? <==>
            |KindTypes(k)| <= |values| && forall i :: 0 <= i < |KindTypes(k)| ==> HasKind(KindTypes(k)[i], values[i])
  {
    match k
    case PollStartKind => case PollEndKind => case WorkerParkKind => case WorkerUnparkKind => case QueueSampleKind =>
    case TaskSpawnKind => case TaskTerminateKind => case WakeKind => case CpuSampleKind => case MetadataKind =>
  }

  // ----- there and back -----

  lemma ValuesCount(ev: RawEvent, id: u32)
    ensures |ValuesOf(ev, id)| == |KindTypes(KindOfRaw(ev))| == |KindDef(KindOfRaw(ev)).fields|
  {
    hide KindFields, EventName;
    match ev
    case PollStart(_, _, _, _, _) => case PollEnd(_, _) => case WorkerPark(_, _, _, _) =>
    case WorkerUnpark(_, _, _, _, _) => case QueueSample(_, _) => case TaskSpawn(_, _, _) =>
    case TaskTerminate(_, _) => case WakeEvent(_, _, _, _) => case CpuSample(_, _, _, _, _, _) =>
  }

  /** Every value fits the type the schema gives its field. */
  lemma ValuesFit(ev: RawEvent, id: u32)
    requires ev.CpuSample? ==> |ev.callchain| < TWO_32
    ensures |ValuesOf(ev, id)| == |KindFields(KindOfRaw(ev))|
    ensures TypedFit(KindFields(KindOfRaw(ev)), ValuesOf(ev, id))
  {
    hide KindFields, KindTypes, ValuesOf, KindOfRaw, Fits, Sized;
    ValuesFitTypes(ev, id);
  }

  lemma ValuesFitTypes(ev: RawEvent, id: u32)
    requires ev.CpuSample? ==> |ev.callchain| < TWO_32
    ensures |ValuesOf(ev, id)| == |KindTypes(KindOfRaw(ev))|
    ensures forall i :: 0 <= i < |ValuesOf(ev, id)| ==>
              Sized(ValuesOf(ev, id)[i]) && Fits(KindTypes(KindOfRaw(ev))[i], ValuesOf(ev, id)[i])
  {
    match ev
    case PollStart(_, _, _, _, _) => case PollEnd(_, _) => case WorkerPark(_, _, _, _) =>
    case WorkerUnpark(_, _, _, _, _) => case QueueSample(_, _) => case TaskSpawn(_, _, _) =>
    case TaskTerminate(_, _) => case WakeEvent(_, _, _, _) => case CpuSample(_, _, _, _, _, _) =>
  }

  /** An event decodes to what was recorded, depths modulo 256, its string by id. */
  lemma EventRoundTrip(ev: RawEvent, id: u32)
    ensures DecodeNamed(EventName(KindOfRaw(ev)), Some(ev.timestamp), ValuesOf(ev, id)) == Some(Expected(ev, id))
  {
    hide EventName, KindOfName;
    KindByName(KindOfRaw(ev));
    match ev
    case PollStart(_, _, _, _, _) => case PollEnd(_, _) => case WorkerPark(_, _, _, _) =>
    case WorkerUnpark(_, _, _, _, _) => case QueueSample(_, _) => case TaskSpawn(_, _, _) =>
    case TaskTerminate(_, _) => case WakeEvent(_, _, _, _) => case CpuSample(_, _, _, _, _, _) =>
  }

  lemma SchemaSized(k: Kind)
    ensures Codec.SizedSchema(EntryOf(KindDef(k)))
  {
    hide EventName, KindFields;
    NameShort(k);
    assert |KindTypes(k)| <= 5;
  }

  lemma NameShort(k: Kind)
    ensures |KindName(k)| <= 20
  {
  }
}
