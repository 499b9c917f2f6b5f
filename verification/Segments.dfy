/** One trace segment: the stream the writer produces for a metadata event followed by runtime
    events, and what readers find in it
    (dial9-tokio-telemetry/src/telemetry/writer.rs, format.rs and background_task/sealed.rs). */
module Segments {
  import opened Wire
  import opened Wrappers
  import opened Utf8
  import opened Types
  import opened ZeroCopy
  import opened Schema
  import opened Codec
  import opened Decoding
  import opened Visitor
  import opened Encoding
  import opened RoundTrip
  import T = Telemetry

  /** What `write_segment_metadata` writes first. */
  datatype Meta = Meta(timestamp: u64, entries: seq<Pair>)

  predicate MetaOk(meta: Meta) {
    Sized(MapValue(meta.entries)) && forall kv :: kv in meta.entries ==> IsText(kv)
  }

  const MetaDef: TypeDef := T.KindDef(T.MetadataKind)

  function MetaOp(meta: Meta): Op {
    WriteTyped(MetaDef, meta.timestamp, [MapValue(meta.entries)])
  }

  function DefOf(ev: T.RawEvent): TypeDef {
    T.KindDef(T.KindOfRaw(ev))
  }

  /** The id of the event's string in an encoder that has interned it. */
  function IdFor(e: EncState, ev: T.RawEvent): u32 {
    if T.Interned(ev).Some? && T.Interned(ev).value in e.pool then e.pool[T.Interned(ev).value] else 0
  }

  function EventOp(e: EncState, ev: T.RawEvent): Op {
    T.ValuesCount(ev, IdFor(e, ev));
    WriteTyped(DefOf(ev), ev.timestamp, T.ValuesOf(ev, IdFor(e, ev)))
  }

  /** `write_resolved_no_rotate` on an open segment: definitions first, then the event. */
  function AfterIntern(s: Session, ev: T.RawEvent): Session {
    if T.Interned(ev).Some? then Exec(s, InternString(T.Interned(ev).value)) else s
  }

  function WriteRaw(s: Session, ev: T.RawEvent): Session {
    Exec(AfterIntern(s, ev), EventOp(AfterIntern(s, ev).enc, ev))
  }

  function Segment(meta: Meta, events: seq<T.RawEvent>): Session
    decreases |events|
  {
    if events == [] then Exec(Start, MetaOp(meta))
    else WriteRaw(Segment(meta, events[..|events| - 1]), events[|events| - 1])
  }

  /** Lengths fit, and the pool has an id left for a new string. */
  predicate Writable(e: EncState, ev: T.RawEvent) {
    && (ev.CpuSample? ==> |ev.callchain| < TWO_32)
    && (T.Interned(ev).Some? ==> |T.Interned(ev).value| < TWO_32)
    && (T.Interned(ev).Some? && T.Interned(ev).value !in e.pool ==> e.nextPool < TWO_32 - 1)
  }

  predicate SegmentWritable(meta: Meta, events: seq<T.RawEvent>)
    decreases |events|
  {
    if events == [] then MetaOk(meta)
    else
      && SegmentWritable(meta, events[..|events| - 1])
      && Writable(Segment(meta, events[..|events| - 1]).enc, events[|events| - 1])
  }

  // ----- schema ids cannot run out -----

  function Registered(e: EncState): set<T.Kind> {
    set k | k in T.AllKinds && Name(T.EventName(k)) in e.ids
  }

  /** One id for each event type seen so far, with that type's schema under it. */
  ghost predicate KnownTypes(e: EncState) {
    && e.nextId == |Registered(e)|
    && forall k: T.Kind :: Name(T.EventName(k)) in e.ids ==>
         && e.ids[Name(T.EventName(k))] in e.registry
         && e.registry[e.ids[Name(T.EventName(k))]] == EntryOf(T.KindDef(k))
  }

  lemma FewKinds(e: EncState)
    ensures |Registered(e)| <= 10
  {
    T.TenKinds();
    hide T.EventName, T.AllKinds;
    assert T.AllKinds == Registered(e) + (T.AllKinds - Registered(e));
  }

  lemma RegisterKnown(e: EncState, k: T.Kind)
    requires KnownTypes(e) && AllBelow(e.registry.Keys, e.nextId)
    ensures var r := EnsureRegistered(e, EntryOf(T.KindDef(k)));
            && KnownTypes(r.state) && r.result.Id? && r.result.id in r.state.registry
            && r.state.registry[r.result.id] == EntryOf(T.KindDef(k))
  {
    hide EncodeSchema, T.EventName, T.KindDef, KnownTypes;
    KindKnown(e, k);
    if Name(T.EventName(k)) !in e.ids {
      assert e.nextId % TWO_16 == e.nextId && e.nextId !in e.registry.Keys;
      NewKind(e, k, e.nextId);
    }
  }

  lemma KindKnown(e: EncState, k: T.Kind)
    requires KnownTypes(e)
    ensures e.nextId <= 10 && T.KindDef(k).name == T.EventName(k)
    ensures Name(T.EventName(k)) in e.ids ==>
              && e.ids[Name(T.EventName(k))] in e.registry
              && e.registry[e.ids[Name(T.EventName(k))]] == EntryOf(T.KindDef(k))
  {
    hide T.EventName, T.KindFields, T.AllKinds, Registered;
    FewKinds(e);
  }

  lemma NewKind(e: EncState, k: T.Kind, id: u16)
    requires KnownTypes(e) && id == e.nextId && id !in e.registry && Name(T.EventName(k)) !in e.ids
    ensures KnownTypes(e.(nextId := e.nextId + 1, registry := e.registry[id := EntryOf(T.KindDef(k))],
                          ids := e.ids[Name(T.EventName(k)) := id]))
  {
    hide T.EventName, T.KindDef, T.AllKinds;
    var e1 := e.(nextId := e.nextId + 1, registry := e.registry[id := EntryOf(T.KindDef(k))],
                 ids := e.ids[Name(T.EventName(k)) := id]);
    T.InAllKinds(k);
    forall k1: T.Kind
      ensures Name(T.EventName(k1)) in e1.ids <==> Name(T.EventName(k1)) in e.ids || k1 == k
    {
      T.NamesDiffer(k1, k);
    }
    assert |Registered(e1)| == |Registered(e)| + 1 by {
      assert Registered(e1) == Registered(e) + {k};
    }
    hide Registered;
  }

  lemma TypeIdKnown(e: EncState, k: T.Kind)
    requires KnownTypes(e) && AllBelow(e.registry.Keys, e.nextId)
    requires RustType(T.KindDef(k)) in e.ids ==>
               && e.ids[RustType(T.KindDef(k))] in e.registry
               && e.registry[e.ids[RustType(T.KindDef(k))]] == EntryOf(T.KindDef(k))
    ensures var r := TypeIdEffect(e, T.KindDef(k));
            && KnownTypes(r.state) && r.result.Id? && r.result.id in r.state.registry
            && r.state.registry[r.result.id] == EntryOf(T.KindDef(k))
  {
    hide EnsureRegistered, T.EventName, T.KindFields, T.KindDef;
    if RustType(T.KindDef(k)) !in e.ids {
      RegisterKnown(e, k);
      var r := EnsureRegistered(e, EntryOf(T.KindDef(k))).state;
      assert Registered(r) == Registered(TypeIdEffect(e, T.KindDef(k)).state);
    }
  }

  // ----- the log of a segment -----

  /** Ids of schemas and strings keep their meaning. */
  ghost predicate Grows(e: EncState, e1: EncState) {
    && (forall id :: id in e.registry ==> id in e1.registry && e1.registry[id] == e.registry[id])
    && (forall t :: t in e.pool ==> t in e1.pool && e1.pool[t] == e.pool[t])
  }

  /** The frame says what the event says, in the encoder's ids. */
  ghost predicate FrameOf(e: EncState, f: Decoded<FieldValue>, ev: T.RawEvent) {
    && f.EventSeen? && f == EventSeen(f.typeId, Some(ev.timestamp), T.ValuesOf(ev, IdFor(e, ev)))
    && f.typeId in e.registry && e.registry[f.typeId] == EntryOf(DefOf(ev))
    && (T.Interned(ev).Some? ==> T.Interned(ev).value in e.pool)
  }

  ghost predicate MetaFrameOf(e: EncState, f: Decoded<FieldValue>, meta: Meta) {
    && f.EventSeen? && f == EventSeen(f.typeId, Some(meta.timestamp), [MapValue(meta.entries)])
    && f.typeId in e.registry && e.registry[f.typeId] == EntryOf(MetaDef)
  }

  /** The events of a log are the metadata event and then the runtime events, in order. */
  ghost predicate LogOf(e: EncState, log: seq<Decoded<FieldValue>>, meta: Meta, events: seq<T.RawEvent>) {
    && |log| == 1 + |events|
    && MetaFrameOf(e, log[0], meta)
    && forall i :: 0 <= i < |events| ==> FrameOf(e, log[1 + i], events[i])
  }

  ghost predicate SegmentOk(s: Session, meta: Meta, events: seq<T.RawEvent>) {
    && SessionOk(s) && SessionPlain(s) && s.done == [] && KnownTypes(s.enc)
    && LogOf(s.enc, KeepEvents(s.current.log), meta, events)
  }

  lemma {:induction false} KeepAppend(a: seq<Decoded<FieldValue>>, b: seq<Decoded<FieldValue>>)
    ensures KeepEvents(a + b) == KeepEvents(a) + KeepEvents(b)
  {
    if a == [] {
      assert a + b == b;
    } else {
      assert (a + b)[1..] == a[1..] + b;
      KeepAppend(a[1..], b);
    }
  }

  /** One typed event of a known type: it is written, and its frame is the log's last event. */
  lemma TypedStep(s: Session, k: T.Kind, ts: u64, values: seq<FieldValue>) returns (f: Decoded<FieldValue>)
    requires SessionOk(s) && SessionPlain(s) && KnownTypes(s.enc)
    requires |values| == |T.KindDef(k).fields| && TypedFit(T.KindDef(k).fields, values)
    ensures var s1 := Exec(s, WriteTyped(T.KindDef(k), ts, values));
            && SessionOk(s1) && SessionPlain(s1) && s1.done == s.done && KnownTypes(s1.enc)
            && Grows(s.enc, s1.enc) && s1.enc.pool == s.enc.pool
            && KeepEvents(s1.current.log) == KeepEvents(s.current.log) + [f]
            && f.EventSeen? && f == EventSeen(f.typeId, Some(ts), values)
            && f.typeId in s1.enc.registry && s1.enc.registry[f.typeId] == EntryOf(T.KindDef(k))
  {
    hide T.KindDef, SessionPlain, KnownTypes, TypedFit, SessionOk, TypeIdEffect, EventBytes, EncodeFields, Allowed;
    var op: Op := WriteTyped(T.KindDef(k), ts, values);
    SessionFacts(s);
    TypedAllowed(s.enc, k, ts, values);
    ExecOk(s, op);
    TypeIdKnown(s.enc, k);
    TypeIdGrows(s.enc, T.KindDef(k));
    TypeIdKeepsPool(s.enc, T.KindDef(k));
    TypeIdLog(s.enc, T.KindDef(k));
    var reg := TypeIdEffect(s.enc, T.KindDef(k));
    f := EventSeen(reg.result.id, Some(ts), values);
    BaseKnown(reg.state, ts);
    KeepLast(s.current.log, reg.log, f);
  }

  lemma TypedAllowed(e: EncState, k: T.Kind, ts: u64, values: seq<FieldValue>)
    requires KnownTypes(e) && |values| == |T.KindDef(k).fields| && TypedFit(T.KindDef(k).fields, values)
    ensures Allowed(e, WriteTyped(T.KindDef(k), ts, values))
  {
    hide T.KindDef, TypedFit, SizedSchema, Registered;
    FewKinds(e);
    T.SchemaSized(k);
  }

  lemma KeepLast(a: seq<Decoded<FieldValue>>, b: seq<Decoded<FieldValue>>, f: Decoded<FieldValue>)
    requires KeepEvents(b) == [] && f.EventSeen?
    ensures KeepEvents(a + (b + [f])) == KeepEvents(a) + [f]
  {
    KeepAppend(a, b + [f]);
    KeepAppend(b, [f]);
    assert [f][1..] == [];
  }

  lemma BaseKnown(e: EncState, ts: u64)
    ensures KnownTypes(e) ==> KnownTypes(e.(base := ts))
  {
    hide KnownTypes;
    if KnownTypes(e) {
      SameTypesKnown(e, e.(base := ts));
    }
  }

  lemma SessionFacts(s: Session)
    requires SessionOk(s)
    ensures AllBelow(s.enc.registry.Keys, s.enc.nextId) && s.enc.nextId < TWO_16
    ensures forall def :: RustType(def) in s.enc.ids ==>
              && s.enc.ids[RustType(def)] in s.enc.registry
              && s.enc.registry[s.enc.ids[RustType(def)]] == EntryOf(def)
  {
  }

  lemma TypeIdLog(e: EncState, def: TypeDef)
    ensures KeepEvents(TypeIdEffect(e, def).log) == []
  {
    hide EncodeSchema;
    var log := TypeIdEffect(e, def).log;
    assert log == [] || (log == [SchemaSeen(EntryOf(def))] && log[1..] == []);
  }

  lemma TypeIdGrows(e: EncState, def: TypeDef)
    requires AllBelow(e.registry.Keys, e.nextId)
    ensures e.nextId < TWO_16 ==> Grows(e, TypeIdEffect(e, def).state)
  {
    hide EncodeSchema;
    if e.nextId < TWO_16 {
      assert e.nextId % TWO_16 == e.nextId && e.nextId !in e.registry.Keys;
    }
  }

  lemma InternStep(s: Session, t: Text)
    requires SessionOk(s) && SessionPlain(s) && KnownTypes(s.enc) && Allowed(s.enc, InternString(t))
    ensures var s1 := Exec(s, InternString(t));
            && SessionOk(s1) && SessionPlain(s1) && s1.done == s.done && KnownTypes(s1.enc)
            && Grows(s.enc, s1.enc) && t in s1.enc.pool
            && KeepEvents(s1.current.log) == KeepEvents(s.current.log)
  {
    hide SessionPlain, SessionOk, KnownTypes, EncodePool;
    ExecOk(s, InternString(t));
    var r := InternEffect(s.enc, t);
    SameTypesKnown(s.enc, r.state);
    KeepAppend(s.current.log, r.log);
    assert r.log == [] || r.log[1..] == [];
  }

  lemma SameTypesKnown(e: EncState, e1: EncState)
    requires KnownTypes(e) && e1.registry == e.registry && e1.nextId == e.nextId && e1.ids == e.ids
    ensures KnownTypes(e1)
  {
    hide T.EventName, T.KindDef;
    assert Registered(e) == Registered(e1);
  }

  lemma FrameKept(e: EncState, e1: EncState, f: Decoded<FieldValue>, ev: T.RawEvent)
    requires FrameOf(e, f, ev) && Grows(e, e1)
    ensures FrameOf(e1, f, ev)
  {
    hide T.ValuesOf, T.KindDef;
  }

  lemma LogKept(e: EncState, e1: EncState, log: seq<Decoded<FieldValue>>, meta: Meta, events: seq<T.RawEvent>)
    requires LogOf(e, log, meta, events) && Grows(e, e1)
    ensures LogOf(e1, log, meta, events)
  {
    hide FrameOf, T.KindDef;
    forall i | 0 <= i < |events|
      ensures FrameOf(e1, log[1 + i], events[i])
    {
      FrameKept(e, e1, log[1 + i], events[i]);
    }
  }

  lemma WriteRawOk(s: Session, meta: Meta, events: seq<T.RawEvent>, ev: T.RawEvent)
    requires SegmentOk(s, meta, events) && Writable(s.enc, ev)
    ensures SegmentOk(WriteRaw(s, ev), meta, events + [ev])
  {
    hide SessionOk, SessionPlain, KnownTypes, Exec, LogOf, T.ValuesOf, T.KindDef, T.KindOfRaw, T.Interned, TypedFit;
    if T.Interned(ev).Some? {
      InternStep(s, T.Interned(ev).value);
      LogKept(s.enc, AfterIntern(s, ev).enc, KeepEvents(s.current.log), meta, events);
    }
    var s1 := AfterIntern(s, ev);
    RawFits(ev, IdFor(s1.enc, ev));
    var f := TypedStep(s1, T.KindOfRaw(ev), ev.timestamp, T.ValuesOf(ev, IdFor(s1.enc, ev)));
    var s2 := WriteRaw(s, ev);
    LogKept(s1.enc, s2.enc, KeepEvents(s1.current.log), meta, events);
    assert FrameOf(s2.enc, f, ev);
    LogAppend(s2.enc, KeepEvents(s1.current.log), f, meta, events, ev);
  }

  lemma RawFits(ev: T.RawEvent, id: u32)
    requires ev.CpuSample? ==> |ev.callchain| < TWO_32
    ensures |T.ValuesOf(ev, id)| == |DefOf(ev).fields| && TypedFit(DefOf(ev).fields, T.ValuesOf(ev, id))
  {
    hide T.ValuesOf, T.KindFields, TypedFit;
    T.ValuesFit(ev, id);
  }

  lemma LogAppend(e: EncState, log: seq<Decoded<FieldValue>>, f: Decoded<FieldValue>, meta: Meta,
                  events: seq<T.RawEvent>, ev: T.RawEvent)
    requires LogOf(e, log, meta, events) && FrameOf(e, f, ev)
    ensures LogOf(e, log + [f], meta, events + [ev])
  {
    hide FrameOf, MetaFrameOf;
  }

  /** Every segment the writer can produce satisfies the invariant. */
  lemma {:induction false} SegmentHolds(meta: Meta, events: seq<T.RawEvent>)
    requires SegmentWritable(meta, events)
    ensures SegmentOk(Segment(meta, events), meta, events)
    decreases |events|
  {
    hide SegmentOk, WriteRaw, Writable;
    if events == [] {
      MetaStart(meta);
    } else {
      var before, ev := events[..|events| - 1], events[|events| - 1];
      SegmentHolds(meta, before);
      WriteRawOk(Segment(meta, before), meta, before, ev);
      assert before + [ev] == events;
    }
  }

  lemma MetaStart(meta: Meta)
    requires MetaOk(meta)
    ensures SegmentOk(Exec(Start, MetaOp(meta)), meta, [])
  {
    hide SessionOk, SessionPlain, Exec, T.EventName;
    StartOk();
    assert SessionExact(Start) ==> SessionOk(Start) by { hide Exact; }
    assert Registered(FreshEncoder) == {};
    MetaFits(meta);
    var f := TypedStep(Start, T.MetadataKind, meta.timestamp, [MapValue(meta.entries)]);
    assert KeepEvents(Start.current.log) == [];
  }

  lemma MetaFits(meta: Meta)
    requires MetaOk(meta)
    ensures |MetaDef.fields| == 1 && TypedFit(MetaDef.fields, [MapValue(meta.entries)])
  {
    hide T.EventName, T.KindFields;
    assert T.KindFields(T.MetadataKind)[0].fieldType == T.KindTypes(T.MetadataKind)[0] == StringMap;
  }
}
