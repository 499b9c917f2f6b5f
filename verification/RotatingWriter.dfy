/** The rotating writer object (dial9-tokio-telemetry/src/telemetry/writer.rs). File operations
    succeed; the clock is an argument. */
module RotatingWriter {
  import opened Wire
  import opened Wrappers
  import opened Utf8
  import opened Types
  import opened Codec
  import opened Encoding
  import opened RoundTrip
  import opened Segments
  import opened Rotation
  import opened TraceEncoder
  import T = Telemetry

  /** The tracked sealed files with their sizes, oldest first. */
  function ClosedOf(w: Writer): seq<(Path, nat)>
    requires w.evicted < |w.segs|
  {
    seq(|w.segs| - 1 - w.evicted,
        i requires 0 <= i < |w.segs| - 1 - w.evicted => (SealedFile(w.evicted + i), Size(w.segs[w.evicted + i])))
  }

  function SumSizes(files: seq<(Path, nat)>): nat {
    if files == [] then 0 else files[0].1 + SumSizes(files[1..])
  }

  function LastPath(w: Writer): Path
    requires w.segs != []
  {
    if w.phase == Closed then SealedFile(|w.segs| - 1) else ActiveFile(|w.segs| - 1)
  }

  /** The writer of the open segment, as a value. */
  datatype OpenFile = OpenFile(state: EncState, bytes: Bytes, counted: nat)

  /** Where a segment's events put its encoder. */
  function FileOf(seg: Seg): OpenFile {
    OpenFile(Segment(seg.meta, seg.events).enc, Content(seg), Size(seg))
  }

  /** The writer's fields, as a value. `disk` is the directory without the file open for writing. */
  datatype Books = Books(closedFiles: seq<(Path, nat)>, activePath: Path, nextIndex: nat, dropped: nat,
                         hasRealEvents: bool, disk: map<Path, Bytes>, open: Option<OpenFile>)

  /** All trace files, the open one with what was written to it so far. */
  function FilesOf(b: Books): map<Path, Bytes> {
    if b.open.None? then b.disk else b.disk[b.activePath := b.open.value.bytes]
  }

  /** The closed files and the open one, whose path is not taken, are the model's files. */
  ghost predicate DiskMatches(w: Writer, disk: map<Path, Bytes>)
    requires w.segs != []
  {
    LastPath(w) !in disk && disk[LastPath(w) := Content(w.Last())] == Disk(w)
  }

  ghost predicate Reflects(b: Books, w: Writer) {
    && w.Valid() && AllWritable(w)
    && b.nextIndex == |w.segs| && b.dropped == w.dropped
    && b.closedFiles == ClosedOf(w) && b.activePath == LastPath(w)
    && b.hasRealEvents == (w.Last().events != [])
    && (if w.phase == Open then b.open == Some(FileOf(w.Last())) && DiskMatches(w, b.disk)
        else b.open == None && b.disk == Disk(w))
  }

  class RotatingWriter {
    const maxFileSize: nat
    const maxTotalSize: nat
    const metadata: seq<Pair>
    var closedFiles: seq<(Path, nat)>
    var activePath: Path
    /** The open segment's encoder; none once the writer is finished. */
    var encoder: Encoder?
    var nextIndex: nat
    var didRotate: bool
    var locations: map<T.Location, Text>
    var droppedEvents: nat
    var hasRealEvents: bool
    var disk: map<Path, Bytes>
    ghost var model: Writer

    ghost function Rep(): set<object>
      reads this
    {
      if encoder == null then {} else {encoder, encoder.registry}
    }

    ghost function Fields(): Books
      reads this, Rep()
    {
      Books(closedFiles, activePath, nextIndex, droppedEvents, hasRealEvents, disk,
            if encoder == null then None
            else Some(OpenFile(encoder.State(), encoder.writer, encoder.bytesWritten)))
    }

    ghost predicate Valid()
      reads this, Rep()
    {
      && (encoder != null ==> encoder.Valid())
      && model.maxFileSize == maxFileSize && model.maxTotalSize == maxTotalSize && model.entries == metadata
      && MetaOk(Meta(0, metadata))
      && (forall l :: l in locations ==> locations[l] == l.shown)
      && Reflects(Fields(), model)
    }

    /** `create`: the first segment is opened and its metadata written. */
    constructor (maxFileSize: nat, maxTotalSize: nat, metadata: seq<Pair>, now: u64)
      requires MetaOk(Meta(0, metadata))
      ensures Valid() && fresh(Rep())
      ensures model == Create(maxFileSize, maxTotalSize, metadata, now)
    {
      hide Reflects, MetaOk, FileOf;
      this.maxFileSize, this.maxTotalSize, this.metadata := maxFileSize, maxTotalSize, metadata;
      closedFiles, activePath, nextIndex := [], ActiveFile(0), 1;
      didRotate, hasRealEvents, droppedEvents := false, false, 0;
      locations, disk := map[], map[];
      encoder := new Encoder([]);
      model := Create(maxFileSize, maxTotalSize, metadata, now);
      new;
      WriteSegmentMetadata(now);
      CreateReflects(maxFileSize, maxTotalSize, metadata, now);
    }

    /** Always written, with the configured entries or none. */
    method WriteSegmentMetadata(now: u64)
      requires encoder != null && encoder.Valid() && encoder.State() == FreshEncoder
      requires encoder.writer == Header && encoder.bytesWritten == 0 && MetaOk(Meta(0, metadata))
      modifies encoder, encoder.registry
      ensures encoder.Valid()
      ensures Fields().open == Some(FileOf(Seg(Meta(now, metadata), [])))
    {
      hide T.KindDef, Apply, CanRegister, Allowed;
      MetaFits(Meta(now, metadata));
      MetaAllowed(Meta(now, metadata));
      var r := encoder.Write(MetaDef, now, [MapValue(metadata)]);
    }

    /** A new file with a new encoder. */
    method OpenSegment(now: u64)
      requires MetaOk(Meta(0, metadata))
      modifies this`encoder
      ensures encoder != null && fresh(encoder) && fresh(encoder.registry) && encoder.Valid()
      ensures Fields().open == Some(FileOf(Seg(Meta(now, metadata), [])))
    {
      hide FileOf, MetaOk;
      encoder := new Encoder([]);
      WriteSegmentMetadata(now);
    }

    /** `rotate`: seal, open the next segment, evict. */
    method Rotate(now: u64)
      requires Valid()
      modifies this, Rep()
      ensures Valid() && fresh(Rep() - old(Rep())) && model == Rotation.Rotate(old(model), now)
      ensures locations == old(locations) && didRotate == (old(didRotate) || old(model).phase == Open)
    {
      hide Reflects, MetaOk, FileOf, FilesOf, SumSizes, Evict, Disk, Total, Size, Content, Segment;
      ReflectsOpen(Fields(), model);
      if encoder == null {
        return;
      }
      ghost var b := Fields();
      RotateReflects(b, model, now);
      ghost var w1 := model.(segs := model.segs + [Seg(Meta(now, metadata), [])]);
      var closedSize := encoder.bytesWritten;
      var sealed := SealedFile(nextIndex - 1);
      disk := disk[sealed := encoder.writer];
      closedFiles := closedFiles + [(sealed, closedSize)];
      activePath := ActiveFile(nextIndex);
      nextIndex := nextIndex + 1;
      didRotate := true;
      hasRealEvents := false;
      OpenSegment(now);
      model := w1;
      assert Fields() == Books(b.closedFiles + [(sealed, closedSize)], activePath, nextIndex, b.dropped, false,
                               b.disk[sealed := b.open.value.bytes], Fields().open);
      EvictOldest();
    }

    /** `total_size`: the tracked sealed files and the open one. */
    function TotalSize(): nat
      reads this, encoder
    {
      SumSizes(closedFiles) + if encoder == null then 0 else encoder.bytesWritten
    }

    method RemoveOldest()
      requires Valid() && encoder != null && closedFiles != [] && TotalSize() > maxTotalSize
      modifies this`disk, this`closedFiles, this`model
      ensures Valid() && closedFiles == old(closedFiles)[1..]
      ensures model == old(model).(evicted := model.evicted) && model.evicted < |model.segs|
      ensures old(model).evicted < |old(model).segs| && EvictLoop(model) == EvictLoop(old(model))
    {
      hide Reflects, Total, EvictLoop, MetaOk, Disk, FileOf, FilesOf, Size, Content, Segment;
      ReflectsOpen(Fields(), model);
      EvictReflects(Fields(), model);
      disk := disk - {closedFiles[0].0};
      closedFiles := closedFiles[1..];
      model := model.(evicted := model.evicted + 1);
    }

    /** `evict_oldest`: drop sealed files while the total is too big, then stop if it still is. */
    method EvictOldest()
      requires Valid() && model.phase == Open && model.Last().events == []
      modifies this
      ensures Valid() && model == Evict(old(model)) && Rep() <= old(Rep())
      ensures didRotate == old(didRotate) && locations == old(locations)
    {
      hide Reflects, Total, EvictLoop, MetaOk, Disk, FileOf, FilesOf, Size, Content, Segment;
      ghost var before := model;
      ReflectsOpen(Fields(), model);
      while TotalSize() > maxTotalSize && closedFiles != []
        invariant Valid() && encoder == old(encoder) && encoder != null
        invariant didRotate == old(didRotate) && locations == old(locations)
        invariant model == before.(evicted := model.evicted) && model.evicted < |model.segs|
        invariant EvictLoop(model) == EvictLoop(before)
        decreases |closedFiles|
      {
        RemoveOldest();
      }
      ReflectsOpen(Fields(), model);
      EvictDone(model);
      if TotalSize() > maxTotalSize {
        StopReflects(Fields(), model);
        disk := disk[activePath := encoder.writer];
        encoder := null;
        model := model.(phase := OverBudget);
      }
    }

    /** All trace files, the open one with what was written to it so far. */
    function Files(): map<Path, Bytes>
      reads this, encoder
    {
      if encoder == null then disk else disk[activePath := encoder.writer]
    }

    ghost function OpenNow(): OpenFile
      requires encoder != null
      reads this, Rep()
    {
      OpenFile(encoder.State(), encoder.writer, encoder.bytesWritten)
    }

    /** `intern_location`: the text of a location is formatted once. */
    method InternLocation(location: T.Location) returns (id: u32)
      requires encoder != null && encoder.Valid() && Allowed(encoder.State(), InternString(location.shown))
      requires forall l :: l in locations ==> locations[l] == l.shown
      modifies encoder, this`locations
      ensures encoder.Valid() && (forall l :: l in locations ==> locations[l] == l.shown)
      ensures OpenNow() == AfterEffect(old(OpenNow()), InternEffect(old(encoder.State()), location.shown))
      ensures InternEffect(old(encoder.State()), location.shown).result == Id(id)
    {
      hide EncodePool;
      if location !in locations {
        locations := locations[location := location.shown];
      }
      var r := encoder.InternString(locations[location]);
      return r.id;
    }

    /** The string an event names, if any, goes to the pool. */
    method InternName(event: T.RawEvent) returns (id: u32)
      requires encoder != null && encoder.Valid()
      requires T.Interned(event).Some? ==> Allowed(encoder.State(), InternString(T.Interned(event).value))
      requires forall l :: l in locations ==> locations[l] == l.shown
      modifies encoder, this`locations
      ensures encoder.Valid() && (forall l :: l in locations ==> locations[l] == l.shown)
      ensures OpenNow() == AfterName(old(OpenNow()), event)
      ensures id == IdFor(encoder.State(), event)
    {
      hide InternEffect, EnsureRegistered, WriteEventEffect, WriteTypedEffect, Ascii;
      ghost var e := encoder.State();
      id := 0;
      match event {
        case PollStart(_, _, _, _, location) =>
          id := InternLocation(location);
        case TaskSpawn(_, _, location) =>
          id := InternLocation(location);
        case CpuSample(_, _, _, _, threadName, _) =>
          var name := encoder.InternString(if threadName.Some? then threadName.value else T.NO_THREAD_NAME);
          id := name.id;
        case _ =>
      }
      IdIs(e, event, id);
    }

    ghost predicate Encodable(event: T.RawEvent)
      reads this, Rep()
    {
      && encoder != null && encoder.Valid() && RawAllowed(encoder.State(), event)
      && forall l :: l in locations ==> locations[l] == l.shown
    }

    /** What the open file was has become what writing the event makes of it. */
    ghost predicate Encoded(event: T.RawEvent, before: OpenFile, r: OpResult)
      reads this, Rep()
    {
      && encoder != null && encoder.Valid() && (forall l :: l in locations ==> locations[l] == l.shown)
      && OpenNow() == RawFile(before, event) && r == RawResult(before.state, event)
      && StringKnown(encoder.State().pool, event)
    }

    /** The name first, and then the event with the name's id. */
    method EncodeResolved(event: T.RawEvent) returns (r: OpResult)
      requires Encodable(event)
      modifies encoder, encoder.registry, this`locations
      ensures Encoded(event, old(OpenNow()), r)
    {
      hide T.ValuesOf, T.KindDef, T.KindOfRaw, T.Interned, InternEffect, TypedFit, TypeIdEffect, EventBytes,
           EncodeFields, CanRegister, EnsureRegistered, WriteEventEffect, WriteTypedEffect, StringKnown, Ascii;
      RawKnows(OpenNow(), event);
      var id := InternName(event);
      r := encoder.Write(DefOf(event), event.timestamp, T.ValuesOf(event, id));
    }

    /** `write_resolved_no_rotate`: dropped and counted when finished, else written to the open
        segment. */
    method WriteResolvedNoRotate(event: T.RawEvent)
      requires Valid()
      requires model.phase == Open ==> SegmentWritable(model.Last().meta, model.Last().events + [event])
      modifies this, Rep()
      ensures Valid() && model == Put(old(model), event) && encoder == old(encoder)
      ensures didRotate == old(didRotate)
    {
      hide Reflects, MetaOk, FileOf, Disk, Total, Size, Content, Segment, SegmentWritable, RawFile, RawAllowed,
           RawResult, StringKnown, Ascii, T.Interned;
      ReflectsOpen(Fields(), model);
      if encoder == null {
        DropReflects(Fields(), model, event);
        droppedEvents := droppedEvents + 1;
        model := Put(model, event);
        return;
      }
      ghost var b := Fields();
      RawOnSegment(model.Last(), event);
      PutReflects(b, model, event);
      var r := EncodeResolved(event);
      if r.Refused? {
        return;
      }
      hasRealEvents := true;
      model := Put(model, event);
    }

    /** `maybe_rotate`: after a complete unit, when the open file has grown too big. */
    method MaybeRotate(now: u64)
      requires Valid()
      modifies this, Rep()
      ensures Valid() && fresh(Rep() - old(Rep())) && model == Rotation.MaybeRotate(old(model), now)
      ensures didRotate == (old(didRotate) || |model.segs| > |old(model).segs|)
    {
      hide Reflects, MetaOk, FileOf, Disk, Total, Content, Segment, Rotation.Rotate;
      ReflectsOpen(Fields(), model);
      OneSegmentMore(model, now);
      OpenSize(model.Last());
      hide Size;
      if encoder != null && encoder.bytesWritten > maxFileSize {
        Rotate(now);
      }
    }

    method WriteEvent(event: T.RawEvent, now: u64)
      requires Valid() && CallWritable(model, WriteOne(event, now))
      modifies this, Rep()
      ensures Valid() && fresh(Rep() - old(Rep())) && model == Do(old(model), WriteOne(event, now))
      ensures didRotate == (old(didRotate) || |model.segs| > |old(model).segs|)
    {
      hide Reflects, MetaOk, SegmentWritable, Rotation.MaybeRotate, Put, Disk, FileOf, Content, Size, Segment, Total,
           SumSizes, FilesOf;
      ReflectsOpen(Fields(), model);
      WriteResolvedNoRotate(event);
      MaybeRotate(now);
    }

    method WriteEventBatch(events: seq<T.RawEvent>, now: u64)
      requires Valid() && CallWritable(model, WriteBatch(events, now))
      modifies this, Rep()
      ensures Valid() && fresh(Rep() - old(Rep())) && model == Do(old(model), WriteBatch(events, now))
      ensures didRotate == (old(didRotate) || |model.segs| > |old(model).segs|)
    {
      hide Reflects, MetaOk, SegmentWritable, Rotation.MaybeRotate, Put, Disk, FileOf, Content, Size, Segment, Total,
           SumSizes, FilesOf;
      ReflectsOpen(Fields(), model);
      ghost var before := model;
      assert events[0..] == events;
      for i := 0 to |events|
        invariant Valid() && encoder == old(encoder) && model.segs != []
        invariant didRotate == old(didRotate) && |model.segs| == |old(model).segs|
        invariant PutAll(model, events[i..]) == PutAll(before, events)
        invariant CallWritable(model, WriteBatch(events[i..], now))
      {
        assert events[i..] == [events[i]] + events[i + 1..];
        BatchUnrolls(model, events[i], events[i + 1..], now);
        WriteResolvedNoRotate(events[i]);
        ReflectsOpen(Fields(), model);
      }
      MaybeRotate(now);
    }

    method TakeRotated() returns (rotated: bool)
      requires Valid()
      modifies this
      ensures Valid() && rotated == old(didRotate) && !didRotate && model == old(model)
    {
      hide Reflects, MetaOk;
      rotated := didRotate;
      didRotate := false;
    }

    /** `finalize`: the last file is sealed if a real event is in it and removed otherwise. */
    method Finalize()
      requires Valid()
      modifies this
      ensures Valid() && encoder == null && model == Rotation.Finalize(old(model))
    {
      hide Reflects, MetaOk, FileOf, Disk, Total, Content, Segment, Size;
      ReflectsOpen(Fields(), model);
      FinalizeReflects(Fields(), model);
      disk := Files();
      if activePath.ActiveFile? {
        if hasRealEvents {
          var sealed := SealedFile(nextIndex - 1);
          if activePath in disk {
            disk := (disk - {activePath})[sealed := disk[activePath]];
          }
          activePath := sealed;
        } else {
          disk := disk - {activePath};
        }
      }
      encoder := null;
      model := Rotation.Finalize(model);
    }
  }

  /** A rotation opens one segment. */
  lemma OneSegmentMore(w: Writer, now: u64)
    requires w.Valid()
    ensures |Rotation.MaybeRotate(w, now).segs|
            == |w.segs| + if w.phase == Open && Size(w.Last()) > w.maxFileSize then 1 else 0
  {
    hide EvictLoop, Size, Total;
    if w.phase == Open {
      EvictLoopKeeps(w.(segs := w.segs + [Seg(Meta(now, w.entries), [])]));
    }
  }

  function AfterEffect(f: OpenFile, effect: Effect): OpenFile {
    OpenFile(effect.state, f.bytes + effect.bytes, f.counted + |effect.bytes|)
  }

  function AfterName(f: OpenFile, ev: T.RawEvent): OpenFile {
    if T.Interned(ev).Some? then AfterEffect(f, InternEffect(f.state, T.Interned(ev).value)) else f
  }

  /** What writing an event makes of the open file. */
  function RawFile(f: OpenFile, ev: T.RawEvent): OpenFile {
    var g := AfterName(f, ev);
    AfterEffect(g, Apply(g.state, EventOp(g.state, ev)))
  }

  /** The string an event names is in the pool: the location of a poll or a spawn, the thread name of
      a sample, or the text that stands for none. */
  predicate StringKnown(pool: map<Text, u32>, ev: T.RawEvent) {
    match ev
    case PollStart(_, _, _, _, location) => location.shown in pool
    case TaskSpawn(_, _, location) => location.shown in pool
    case CpuSample(_, _, _, _, threadName, _) =>
      (if threadName.Some? then threadName.value else Ascii("<no thread name>")) in pool
    case _ => true
  }

  lemma RawKnows(f: OpenFile, ev: T.RawEvent)
    ensures StringKnown(RawFile(f, ev).state.pool, ev)
  {
    hide T.ValuesOf, T.KindDef, T.KindOfRaw, Ascii, EncodePool, EventBytes, EncodeFields, TypeIdEffect;
    TypeIdKeepsPool(AfterName(f, ev).state, DefOf(ev));
  }

  function NamedState(e: EncState, ev: T.RawEvent): EncState {
    if T.Interned(ev).Some? then InternEffect(e, T.Interned(ev).value).state else e
  }

  function RawResult(e: EncState, ev: T.RawEvent): OpResult {
    Apply(NamedState(e, ev), EventOp(NamedState(e, ev), ev)).result
  }

  predicate RawAllowed(e: EncState, ev: T.RawEvent) {
    && (T.Interned(ev).Some? ==> Allowed(e, InternString(T.Interned(ev).value)))
    && Allowed(NamedState(e, ev), EventOp(NamedState(e, ev), ev))
  }

  lemma IdIs(e: EncState, ev: T.RawEvent, id: u32)
    requires if T.Interned(ev).Some? then InternEffect(e, T.Interned(ev).value).result == Id(id) else id == 0
    ensures id == IdFor(NamedState(e, ev), ev)
  {
    hide EncodePool;
  }

  // ----- each step keeps fields and model together -----

  lemma MetaAllowed(meta: Meta)
    ensures CanRegister(FreshEncoder, EntryOf(MetaDef))
  {
    T.SchemaSized(T.MetadataKind);
  }

  /** What the fields show of the model. */
  lemma ReflectsOpen(b: Books, w: Writer)
    requires Reflects(b, w)
    ensures w.Valid() && b.nextIndex == |w.segs| && (b.open.Some? <==> w.phase == Open)
    ensures b.closedFiles == [] <==> w.evicted == |w.segs| - 1
    ensures FilesOf(b) == Disk(w)
    ensures SumSizes(b.closedFiles) + (if b.open.None? then 0 else b.open.value.counted) == Total(w)
    ensures b.open.Some? ==> b.open.value == FileOf(w.Last())
  {
    hide AllWritable, Disk, Content, Size, Segment;
    SumIsSizes(w);
  }

  lemma CreateReflects(maxFileSize: nat, maxTotalSize: nat, entries: seq<Pair>, now: u64)
    requires MetaOk(Meta(0, entries))
    ensures Reflects(Books([], ActiveFile(0), 1, 0, false, map[], Some(FileOf(Seg(Meta(now, entries), [])))),
                     Create(maxFileSize, maxTotalSize, entries, now))
  {
    hide Content, Size, Segment;
  }

  lemma RotateReflects(b: Books, w: Writer, now: u64)
    requires Reflects(b, w) && w.phase == Open
    ensures var seg := Seg(Meta(now, w.entries), []);
            var sealed := SealedFile(b.nextIndex - 1);
            Reflects(Books(b.closedFiles + [(sealed, b.open.value.counted)], ActiveFile(b.nextIndex),
                           b.nextIndex + 1, b.dropped, false, b.disk[sealed := b.open.value.bytes], Some(FileOf(seg))),
                     w.(segs := w.segs + [seg]))
  {
    hide Content, Size, Segment, AllWritable, Disk;
    OpenWritable(w, now);
    var w1 := w.(segs := w.segs + [Seg(Meta(now, w.entries), [])]);
    SealDisk(w, b.disk, w1);
    assert ClosedOf(w1) == ClosedOf(w) + [(SealedFile(|w.segs| - 1), Size(w.Last()))];
    hide ClosedOf, DiskMatches;
  }

  lemma EvictReflects(b: Books, w: Writer)
    requires Reflects(b, w) && w.phase == Open && b.closedFiles != []
    requires SumSizes(b.closedFiles) + b.open.value.counted > w.maxTotalSize
    ensures var w1 := w.(evicted := w.evicted + 1);
            && Reflects(b.(disk := b.disk - {b.closedFiles[0].0}, closedFiles := b.closedFiles[1..]), w1)
            && w1.Valid() && EvictLoop(w1) == EvictLoop(w)
  {
    hide Content, Size, Segment, Disk, Total, SegmentWritable;
    ReflectsOpen(b, w);
    EvictUnroll(w);
    EvictDisk(w, b.disk);
  }

  lemma DropReflects(b: Books, w: Writer, ev: T.RawEvent)
    requires Reflects(b, w) && w.phase != Open
    ensures Reflects(b.(dropped := b.dropped + 1), Put(w, ev))
  {
    hide Content, Size, Segment, SegmentWritable;
  }

  /** On an open segment an event that fits is always written, and brings the file to where the
      segment with that event is. */
  lemma RawOnSegment(seg: Seg, ev: T.RawEvent)
    requires SegmentWritable(seg.meta, seg.events + [ev])
    ensures var f := FileOf(seg);
            && RawAllowed(f.state, ev) && RawResult(f.state, ev) == Done
            && RawFile(f, ev) == FileOf(Seg(seg.meta, seg.events + [ev]))
  {
    hide RawFile, RawAllowed, RawResult, Content, Size, Writable, WriteRaw, SegmentOk;
    assert (seg.events + [ev])[..|seg.events|] == seg.events;
    SegmentHolds(seg.meta, seg.events);
    RawReady(Segment(seg.meta, seg.events), seg.meta, seg.events, ev);
    RawFileIs(seg, ev);
  }

  lemma RawReady(s: Session, meta: Meta, events: seq<T.RawEvent>, ev: T.RawEvent)
    requires SegmentOk(s, meta, events) && Writable(s.enc, ev)
    ensures RawAllowed(s.enc, ev) && RawResult(s.enc, ev) == Done
  {
    hide SessionOk, SessionPlain, KnownTypes, LogOf, T.ValuesOf, T.KindDef, T.KindOfRaw, T.Interned, TypedFit;
    hide InternEffect, TypeIdEffect, EventBytes, EncodeFields, CanRegister;
    if T.Interned(ev).Some? {
      InternStep(s, T.Interned(ev).value);
    }
    var s1 := AfterIntern(s, ev);
    var id := IdFor(s1.enc, ev);
    RawFits(ev, id);
    TypedAllowed(s1.enc, T.KindOfRaw(ev), ev.timestamp, T.ValuesOf(ev, id));
    SessionFacts(s1);
    TypeIdKnown(s1.enc, T.KindOfRaw(ev));
  }

  lemma RawFileIs(seg: Seg, ev: T.RawEvent)
    ensures RawFile(FileOf(seg), ev) == FileOf(Seg(seg.meta, seg.events + [ev]))
  {
    hide InternEffect, WriteTypedEffect, EnsureRegistered, WriteEventEffect, T.ValuesOf, T.KindDef, T.KindOfRaw,
         T.Interned;
    var s := Segment(seg.meta, seg.events);
    assert (seg.events + [ev])[..|seg.events|] == seg.events;
    assert Segment(seg.meta, seg.events + [ev]) == WriteRaw(s, ev);
    HeaderFirst(seg.meta, seg.events);
    HeaderFirst(seg.meta, seg.events + [ev]);
  }

  lemma PutReflects(b: Books, w: Writer, ev: T.RawEvent)
    requires Reflects(b, w) && w.phase == Open && SegmentWritable(w.Last().meta, w.Last().events + [ev])
    ensures Reflects(b.(hasRealEvents := true, open := Some(FileOf(Seg(w.Last().meta, w.Last().events + [ev])))),
                     Put(w, ev))
  {
    hide Content, Size, Segment, SegmentWritable, Disk;
    var w1 := Put(w, ev);
    var files := b.disk[LastPath(w1) := Content(w1.Last())];
    forall p: Path
      ensures p in files <==> p in Disk(w1)
      ensures p in files ==> files[p] == Disk(w1)[p]
    {
      DiskAt(w, p);
      DiskAt(w1, p);
    }
  }

  lemma OpenSize(seg: Seg)
    ensures FileOf(seg).counted == Size(seg)
  {
    hide Size, Content, Segment;
  }

  lemma {:induction false} WritablePrefix(meta: Meta, events: seq<T.RawEvent>, more: seq<T.RawEvent>)
    requires SegmentWritable(meta, events + more)
    ensures SegmentWritable(meta, events)
    decreases |more|
  {
    hide Writable, MetaOk, Segment;
    if more == [] {
      assert events + more == events;
    } else {
      var m := more[..|more| - 1];
      assert (events + more)[..|events + more| - 1] == events + m;
      WritablePrefix(meta, events, m);
    }
  }

  /** Writing a batch is writing its first event and then the rest. */
  lemma BatchUnrolls(w: Writer, ev: T.RawEvent, rest: seq<T.RawEvent>, now: u64)
    requires w.segs != [] && CallWritable(w, WriteBatch([ev] + rest, now))
    ensures w.phase == Open ==> SegmentWritable(w.Last().meta, w.Last().events + [ev])
    ensures Put(w, ev).segs != [] && CallWritable(Put(w, ev), WriteBatch(rest, now))
    ensures PutAll(w, [ev] + rest) == PutAll(Put(w, ev), rest)
  {
    hide SegmentWritable, MetaOk;
    assert ([ev] + rest)[1..] == rest;
    if w.phase == Open {
      assert w.Last().events + ([ev] + rest) == (w.Last().events + [ev]) + rest;
      WritablePrefix(w.Last().meta, w.Last().events + [ev], rest);
    }
  }

  lemma FinalizeReflects(b: Books, w: Writer)
    requires Reflects(b, w)
    ensures var files, sealed, w1 := FilesOf(b), SealedFile(b.nextIndex - 1), Rotation.Finalize(w);
            if b.activePath.SealedFile? then Reflects(b.(disk := files, open := None), w1)
            else if b.hasRealEvents then
              && b.activePath in files
              && Reflects(b.(disk := (files - {b.activePath})[sealed := files[b.activePath]], activePath := sealed,
                             open := None), w1)
            else Reflects(b.(disk := files - {b.activePath}, open := None), w1)
  {
    hide Content, Size, Segment, SegmentWritable, Disk;
    FinalizeDisk(w, FilesOf(b));
  }

  lemma FinalizeDisk(w: Writer, files: map<Path, Bytes>)
    requires w.Valid() && files == Disk(w)
    ensures var w1 := Rotation.Finalize(w);
            if w.phase == Closed then files == Disk(w1)
            else if w.Last().events != [] then
              && LastPath(w) in files
              && (files - {LastPath(w)})[SealedFile(|w.segs| - 1) := files[LastPath(w)]] == Disk(w1)
            else files - {LastPath(w)} == Disk(w1)
  {
    hide Content, Disk;
    var w1 := Rotation.Finalize(w);
    DiskAt(w, LastPath(w));
    var files1 :=
      if w.phase == Closed then files
      else if w.Last().events != [] then (files - {LastPath(w)})[SealedFile(|w.segs| - 1) := files[LastPath(w)]]
      else files - {LastPath(w)};
    forall p: Path
      ensures p in files1 <==> p in Disk(w1)
      ensures p in files1 ==> files1[p] == Disk(w1)[p]
    {
      DiskAt(w, p);
      DiskAt(w1, p);
    }
  }

  lemma StopReflects(b: Books, w: Writer)
    requires Reflects(b, w) && w.phase == Open && b.closedFiles == [] && w.Last().events == []
    ensures Reflects(b.(disk := b.disk[b.activePath := b.open.value.bytes], open := None), w.(phase := OverBudget))
  {
    hide Content, Size, Segment, SegmentWritable;
  }

  lemma OpenWritable(w: Writer, now: u64)
    requires AllWritable(w)
    ensures AllWritable(w.(segs := w.segs + [Seg(Meta(now, w.entries), [])]))
  {
    hide SegmentWritable;
    NewSegmentWritable(w, now);
  }

  lemma SealDisk(w: Writer, disk: map<Path, Bytes>, w1: Writer)
    requires w.Valid() && w.phase == Open && DiskMatches(w, disk)
    requires w1.Valid() && |w1.segs| == |w.segs| + 1 && w1.segs[..|w.segs|] == w.segs
    requires w1.evicted == w.evicted && w1.phase == Open
    ensures DiskMatches(w1, disk[SealedFile(|w.segs| - 1) := Content(w.Last())])
  {
    hide Content, Disk;
    var disk1 := disk[SealedFile(|w.segs| - 1) := Content(w.Last())];
    assert forall i :: 0 <= i < |w.segs| ==> w1.segs[i] == w.segs[..][i];
    var files := disk1[LastPath(w1) := Content(w1.Last())];
    forall p: Path
      ensures p in files <==> p in Disk(w1)
      ensures p in files ==> files[p] == Disk(w1)[p]
    {
      DiskAt(w, p);
      DiskAt(w1, p);
    }
    DiskAt(w, LastPath(w1));
  }

  /** Which paths are on disk, and what they hold. */
  lemma DiskAt(w: Writer, p: Path)
    requires w.Valid()
    ensures p in Disk(w) <==>
            (p.SealedFile? && w.evicted <= p.index < |w.segs| - 1) || (w.phase != Removed && p == LastPath(w))
    ensures p in Disk(w) ==> p.index < |w.segs| && Disk(w)[p] == Content(w.segs[p.index])
  {
    hide Content;
  }

  lemma EvictDisk(w: Writer, disk: map<Path, Bytes>)
    requires w.Valid() && w.phase == Open && ClosedOf(w) != [] && DiskMatches(w, disk)
    ensures var w1 := w.(evicted := w.evicted + 1);
            && w1.Valid() && DiskMatches(w1, disk - {ClosedOf(w)[0].0}) && ClosedOf(w1) == ClosedOf(w)[1..]
  {
    hide Content, Size, Disk;
    var w1 := w.(evicted := w.evicted + 1);
    var disk1 := disk - {SealedFile(w.evicted)};
    var files := disk1[LastPath(w1) := Content(w1.Last())];
    forall p: Path
      ensures p in files <==> p in Disk(w1)
      ensures p in files ==> files[p] == Disk(w1)[p]
    {
      DiskAt(w, p);
      DiskAt(w1, p);
    }
  }

  lemma EvictUnroll(w: Writer)
    requires w.evicted < |w.segs| - 1 && Total(w) > w.maxTotalSize
    ensures EvictLoop(w.(evicted := w.evicted + 1)) == EvictLoop(w)
  {
    hide Total;
  }

  lemma EvictDone(w: Writer)
    requires w.evicted < |w.segs| && !(Total(w) > w.maxTotalSize && w.evicted < |w.segs| - 1)
    ensures EvictLoop(w) == w
  {
    hide Total;
  }

  lemma {:induction false} SumIsSizes(w: Writer)
    requires w.evicted < |w.segs|
    ensures SumSizes(ClosedOf(w)) == Sizes(w.Kept())
    decreases |w.segs| - w.evicted
  {
    hide Size;
    if w.evicted < |w.segs| - 1 {
      var w1 := w.(evicted := w.evicted + 1);
      SumIsSizes(w1);
      assert ClosedOf(w)[1..] == ClosedOf(w1) && w.Kept()[1..] == w1.Kept();
    }
  }
}
