/** Whole runs: everything an encoder ever writes is read back exactly, and a decoder turned
    back into an encoder goes on as if the stream had never been closed. */
module RoundTrip {
  import opened Wire
  import opened Wrappers
  import opened Utf8
  import opened Types
  import opened Schema
  import opened Codec
  import opened Decoding
  import opened Encoding
  import opened Visitor
  import ZeroCopy

  /** A stream under way or finished: its bytes, the frames they stand for, and the ids its
      strings were given. */
  datatype Stream = Stream(bytes: Bytes, log: seq<Decoded<FieldValue>>, pool: map<Text, u32>)

  /** An encoder with the streams it has finished; `ResetTo` finishes one and starts the next. */
  datatype Session = Session(enc: EncState, done: seq<Stream>, current: Stream, answers: seq<OpResult>) {
    function Streams(): (s: seq<Stream>) ensures s != [] { done + [current] }
  }

  const Start := Session(FreshEncoder, [], Stream(Header, [], map[]), [])

  /** A session that goes on with encoder `e` and has written nothing yet. */
  function From(e: EncState): Session {
    Session(e, [], Stream([], [], e.pool), [])
  }

  function Exec(s: Session, op: Op): Session
  {
    if op.ResetTo? then
      Session(FreshEncoder, s.Streams(), Stream(Header, [], map[]), s.answers + [Done])
    else
      var r := Apply(s.enc, op);
      s.(enc := r.state,
         current := Stream(s.current.bytes + r.bytes, s.current.log + r.log, r.state.pool),
         answers := s.answers + [r.result])
  }

  /** Every call meets its demands in the state it is made in. */
  predicate AllAllowed(s: Session, ops: seq<Op>)
    decreases |ops|
  {
    ops == [] || (Allowed(s.enc, ops[0]) && AllAllowed(Exec(s, ops[0]), ops[1..]))
  }

  function ExecAll(s: Session, ops: seq<Op>): Session
    requires AllAllowed(s, ops)
    decreases |ops|
  {
    if ops == [] then s else ExecAll(Exec(s, ops[0]), ops[1..])
  }

  function Resets(ops: seq<Op>): nat {
    if ops == [] then 0 else (if ops[0].ResetTo? then 1 else 0) + Resets(ops[1..])
  }

  /** Every call is answered, and every stream is kept: the one under way and one for each reset. */
  lemma {:induction false} AllKept(s: Session, ops: seq<Op>)
    requires AllAllowed(s, ops)
    ensures |ExecAll(s, ops).answers| == |s.answers| + |ops| && s.answers <= ExecAll(s, ops).answers
    ensures |ExecAll(s, ops).Streams()| == |s.Streams()| + Resets(ops) && s.done <= ExecAll(s, ops).done
    decreases |ops|
  {
    hide Apply, Allowed;
    if ops != [] {
      AllKept(Exec(s, ops[0]), ops[1..]);
    }
  }

  /** `decode_all` of the stream gives its log, uses every byte, and knows its strings. */
  ghost predicate ReadsBack(s: Stream) {
    && DecodeAll(s.bytes).Some?
    && DecodeAll(s.bytes).value.Clean()
    && DecodeAll(s.bytes).value.frames == s.log
    && forall t :: t in s.pool ==>
         s.pool[t] in DecodeAll(s.bytes).value.state.pool
         && DecodeAll(s.bytes).value.state.pool[s.pool[t]] == t
  }

  ghost predicate SessionOk(s: Session) {
    && (forall i :: 0 <= i < |s.done| ==> ReadsBack(s.done[i]))
    && ReadsBack(s.current)
    && Consistent(s.enc, DecodeAll(s.current.bytes).value.state)
    && s.current.pool == s.enc.pool
  }

  /** The stream can be read by the zero-copy decoders as well. */
  ghost predicate Plain(s: Stream) {
    DecodeHeader(s.bytes).Some? && PlainRun(Fresh, s.bytes[HEADER_SIZE..])
  }

  ghost predicate SessionPlain(s: Session) {
    (forall i :: 0 <= i < |s.done| ==> Plain(s.done[i])) && Plain(s.current)
  }

  ghost predicate SessionExact(s: Session) {
    SessionOk(s) && Exact(s.enc, DecodeAll(s.current.bytes).value.state)
  }

  lemma StartOk()
    ensures SessionExact(Start) && SessionPlain(Start)
  {
    HeaderOnly();
  }

  lemma HeaderOnly()
    ensures DecodeAll(Header) == Some(Trace([], Fresh, [], Stopped))
  {
    assert Header[..4] == MAGIC;
    assert Header[HEADER_SIZE..] == [];
  }

  lemma ExecOk(s: Session, op: Op)
    requires SessionOk(s) && Allowed(s.enc, op)
    ensures SessionOk(Exec(s, op))
    ensures SessionExact(s) ==> SessionExact(Exec(s, op))
    ensures SessionPlain(s) ==> SessionPlain(Exec(s, op))
  {
    hide DecodeAll, Allowed, Consistent, Reads, Plain;
    if op.ResetTo? {
      StartOk();
      hide ReadsBack, Exact;
    } else {
      hide Apply;
      var d := DecodeAll(s.current.bytes).value.state;
      var d1 := OpInStep(s.enc, d, op);
      AppendReads(s.current.bytes, Apply(s.enc, op).bytes, Apply(s.enc, op).log, d1);
      if Plain(s.current) {
        AppendPlain(s.current, Apply(s.enc, op).bytes, Apply(s.enc, op).log, d1, Exec(s, op).current);
      }
      PoolsResolve(Apply(s.enc, op).state, d1);
      if SessionExact(s) {
        OpExact(s.enc, d, op, d1);
      }
    }
  }

  /** Bytes that read on from where a stream ends belong to the stream. */
  lemma AppendReads(bytes: Bytes, more: Bytes, log: seq<Decoded<FieldValue>>, d1: DecState)
    requires DecodeAll(bytes).Some? && DecodeAll(bytes).value.Clean()
    requires Reads(DecodeAll(bytes).value.state, more, log, d1)
    ensures DecodeAll(bytes + more) == Some(Trace(DecodeAll(bytes).value.frames + log, d1, [], Stopped))
  {
    hide Run;
    HeaderExtends(bytes, more);
    RunAppend(Fresh, bytes[HEADER_SIZE..], more);
  }

  lemma AppendPlain(s: Stream, more: Bytes, log: seq<Decoded<FieldValue>>, d1: DecState, s1: Stream)
    requires Plain(s) && DecodeAll(s.bytes).value.Clean() && s1.bytes == s.bytes + more
    requires Reads(DecodeAll(s.bytes).value.state, more, log, d1)
    ensures Plain(s1)
  {
    hide Run, PlainRun;
    HeaderExtends(s.bytes, more);
    PlainAppend(Fresh, s.bytes[HEADER_SIZE..], more);
  }

  lemma {:induction false} ExecAllOk(s: Session, ops: seq<Op>)
    requires SessionOk(s) && AllAllowed(s, ops)
    ensures SessionOk(ExecAll(s, ops))
    ensures SessionExact(s) ==> SessionExact(ExecAll(s, ops))
    ensures SessionPlain(s) ==> SessionPlain(ExecAll(s, ops))
    decreases |ops|
  {
    hide SessionOk, SessionExact, SessionPlain, Exec, Allowed;
    if ops != [] {
      ExecOk(s, ops[0]);
      ExecAllOk(Exec(s, ops[0]), ops[1..]);
    }
  }

  /** For every run of calls, errors and resets included, each finished stream and the one
      under way decode to exactly the frames that were written, with exact timestamps, and
      every id handed out for a string resolves to it. */
  lemma WholeRunRoundTrip(ops: seq<Op>)
    requires AllAllowed(Start, ops)
    ensures forall i :: 0 <= i < |ExecAll(Start, ops).done| ==> ReadsBack(ExecAll(Start, ops).done[i])
    ensures ReadsBack(ExecAll(Start, ops).current)
  {
    StartOk();
    ExecAllOk(Start, ops);
  }

  /** `Decoder::new` followed by `decode_all_ref`, and followed by `for_each_event`. */
  function DecodeAllRef(data: Bytes): Option<Trace<ZeroCopy.FieldValueRef>> {
    if DecodeHeader(data).None? then None else Some(RunRef(Fresh, data[HEADER_SIZE..]))
  }

  function ForEachEvent(data: Bytes): Option<Visit> {
    if DecodeHeader(data).None? then None else Some(VisitAll(Fresh, data[HEADER_SIZE..], AcceptAll()))
  }

  /** The zero-copy decoder and the visitor read the stream to its end too, and show the same
      frames and the same events; string maps are shown up to the first pair that is not UTF-8. */
  ghost predicate ReadsBackBorrowed(s: Stream) {
    && DecodeAllRef(s.bytes).Some? && DecodeAllRef(s.bytes).value.Clean()
    && OwnedAll(DecodeAllRef(s.bytes).value.frames) == ReadableAll(s.log)
    && ForEachEvent(s.bytes).value.end == AllConsumed
    && ForEachEvent(s.bytes).value.state == DecodeAll(s.bytes).value.state
    && ShownAll(ForEachEvent(s.bytes).value.events) == KeepEvents(ReadableAll(s.log))
    && NamedBy(ForEachEvent(s.bytes).value.events, DecodeAll(s.bytes).value.state.registry)
  }

  lemma PlainReadsBorrowed(s: Stream)
    requires ReadsBack(s) && Plain(s)
    ensures ReadsBackBorrowed(s)
  {
    hide Run, RunRef, PlainRun, AlikeRun, VisitAll;
    PlainIsAlike(Fresh, s.bytes[HEADER_SIZE..]);
    RunsAgree(Fresh, s.bytes[HEADER_SIZE..]);
    VisitPlain(Fresh, s.bytes[HEADER_SIZE..]);
  }

  /** The same for the two zero-copy readers. */
  lemma WholeRunBorrowed(ops: seq<Op>)
    requires AllAllowed(Start, ops)
    ensures forall s :: s in ExecAll(Start, ops).Streams() ==> ReadsBackBorrowed(s)
  {
    hide ReadsBackBorrowed, ReadsBack, Plain;
    StartOk();
    ExecAllOk(Start, ops);
    hide AllAllowed, ExecAll;
    forall s | s in ExecAll(Start, ops).Streams()
      ensures ReadsBackBorrowed(s)
    {
      PlainReadsBorrowed(s);
    }
  }

  // ----- a decoder turned into an encoder -----

  /** What `from_decoder` builds, whatever order the hash maps are walked in: where two ids
      carry the same string, or two schemas the same name, either may be kept. */
  ghost predicate IsResumed(e: EncState, d: DecState) {
    && e.registry == d.registry && e.base == d.base
    && IsNextAfter(d.registry.Keys, 0, e.nextId)
    && IsPoolInverse(e.pool, e.nextPool, d.pool)
    && IsNameIndex(e.ids, d.registry)
  }

  ghost predicate IsPoolInverse(pool: map<Text, u32>, nextPool: nat, strings: map<u32, Text>) {
    && (forall s :: s in pool ==> pool[s] in strings && strings[pool[s]] == s)
    && (forall id :: id in strings ==> strings[id] in pool && id < nextPool)
    && (nextPool > 0 ==> nextPool - 1 in strings)
  }

  ghost predicate IsNameIndex(ids: map<SchemaKey, u16>, registry: map<u16, SchemaEntry>) {
    && (forall k :: k in ids ==> k.Name? && ids[k] in registry && registry[ids[k]].name == k.name)
    && (forall id :: id in registry ==> Name(registry[id].name) in ids)
  }

  /** The last id of each kind is not in use, so the next one can be formed. */
  predicate CanResume(d: DecState) {
    TWO_16 - 1 !in d.registry && TWO_32 - 1 !in d.pool
  }

  lemma ResumedConsistent(e: EncState, d: DecState)
    requires IsResumed(e, d) && CacheAgrees(d) && CanResume(d)
    ensures Consistent(e, d)
  {
  }

  // ----- the resumed encoder is the original -----

  /** Two encoders that answer every call alike. A type's cached id may be missing in one of
      them, as long as its schema is found by name. */
  ghost predicate Similar(e1: EncState, e2: EncState) {
    && e1.registry == e2.registry && e1.nextId == e2.nextId
    && e1.pool == e2.pool && e1.nextPool == e2.nextPool && e1.base == e2.base
    && (forall n :: Name(n) in e1.ids <==> Name(n) in e2.ids)
    && (forall n :: Name(n) in e1.ids ==> e1.ids[Name(n)] == e2.ids[Name(n)])
    && TypesByName(e1) && TypesByName(e2) && AllBelow(e1.registry.Keys, e1.nextId)
  }

  ghost predicate TypesByName(e: EncState) {
    forall def :: RustType(def) in e.ids ==>
      && Name(def.name) in e.ids && e.ids[Name(def.name)] == e.ids[RustType(def)]
      && e.ids[RustType(def)] in e.registry && e.registry[e.ids[RustType(def)]] == EntryOf(def)
  }

  lemma ResumedSimilar(e: EncState, d: DecState, e1: EncState)
    requires Exact(e, d) && IsResumed(e1, d)
    ensures Similar(e, e1)
  {
    NextUnique(e, d, e1);
    forall n
      ensures Name(n) in e.ids <==> Name(n) in e1.ids
      ensures Name(n) in e.ids ==> e.ids[Name(n)] == e1.ids[Name(n)]
    {
      if Name(n) in e1.ids {
        assert e.registry[e1.ids[Name(n)]].name == n;
      }
    }
    assert e.pool == e1.pool by {
      forall s ensures s in e.pool <==> s in e1.pool
        ensures s in e.pool ==> e.pool[s] == e1.pool[s] {}
    }
  }

  lemma NextUnique(e: EncState, d: DecState, e1: EncState)
    requires Exact(e, d) && IsResumed(e1, d)
    ensures e.nextId == e1.nextId && e.nextPool == e1.nextPool
  {
    assert e1.nextId > 0 ==> e1.nextId - 1 in e.registry.Keys;
    assert e.nextId > 0 ==> e.nextId - 1 in d.registry.Keys;
  }

  lemma SimilarStep(e1: EncState, e2: EncState, op: Op)
    requires Similar(e1, e2) && Allowed(e1, op) && !op.ResetTo?
    ensures Allowed(e2, op)
    ensures Apply(e2, op).bytes == Apply(e1, op).bytes && Apply(e2, op).log == Apply(e1, op).log
    ensures Apply(e2, op).result == Apply(e1, op).result
    ensures Similar(Apply(e1, op).state, Apply(e2, op).state)
  {
    hide EnsureRegistered, TypeIdEffect, InternEffect, Similar, CanRegister, EventBytes, UntypedFit, TypedFit;
    match op
    case RegisterSchema(schema) =>
      SimilarRegister(e1, e2, schema);
    case WriteEvent(schema, values) =>
      SimilarRegister(e1, e2, schema);
      Rebased(EnsureRegistered(e1, schema).state, EnsureRegistered(e2, schema).state, Apply(e1, op).state.base);
    case WriteTyped(def, ts, fields) =>
      SimilarTypeId(e1, e2, def);
      Rebased(TypeIdEffect(e1, def).state, TypeIdEffect(e2, def).state, ts);
    case InternString(s) =>
      SimilarIntern(e1, e2, s);
  }

  lemma Rebased(e1: EncState, e2: EncState, base: u64)
    requires Similar(e1, e2)
    ensures e1.base == e2.base && Similar(e1.(base := base), e2.(base := base))
  {
  }

  lemma SimilarIntern(e1: EncState, e2: EncState, s: Text)
    requires Similar(e1, e2)
    ensures e1.pool == e2.pool && e1.nextPool == e2.nextPool
    ensures var r1, r2 := InternEffect(e1, s), InternEffect(e2, s);
            r1.bytes == r2.bytes && r1.log == r2.log && r1.result == r2.result && Similar(r1.state, r2.state)
  {
    hide EncodePool;
  }

  lemma SimilarRegister(e1: EncState, e2: EncState, entry: SchemaEntry)
    requires Similar(e1, e2) && CanRegister(e1, entry)
    ensures CanRegister(e2, entry)
    ensures var r1, r2 := EnsureRegistered(e1, entry), EnsureRegistered(e2, entry);
            r1.bytes == r2.bytes && r1.log == r2.log && r1.result == r2.result && Similar(r1.state, r2.state)
  {
    hide EncodeSchema, SizedSchema;
    var r1, r2 := EnsureRegistered(e1, entry), EnsureRegistered(e2, entry);
    if Name(entry.name) !in e1.ids {
      assert e1.nextId % TWO_16 == e1.nextId && e1.nextId !in e1.registry.Keys;
      NamesKept(e1, entry, r1.state);
      NamesKept(e2, entry, r2.state);
    }
  }

  lemma SimilarTypeId(e1: EncState, e2: EncState, def: TypeDef)
    requires Similar(e1, e2)
    requires RustType(def) in e1.ids || CanRegister(e1, EntryOf(def))
    ensures RustType(def) in e2.ids || CanRegister(e2, EntryOf(def))
    ensures var r1, r2 := TypeIdEffect(e1, def), TypeIdEffect(e2, def);
            r1.bytes == r2.bytes && r1.log == r2.log && r1.result == r2.result && Similar(r1.state, r2.state)
  {
    hide EncodeSchema, SizedSchema;
    if CanRegister(e1, EntryOf(def)) {
      SimilarRegister(e1, e2, EntryOf(def));
      RegisteredByName(e1, def);
      RegisteredByName(e2, def);
      hide EnsureRegistered;
      if EnsureRegistered(e1, EntryOf(def)).result.Id? {
        TypeCached(EnsureRegistered(e1, EntryOf(def)), def);
        TypeCached(EnsureRegistered(e2, EntryOf(def)), def);
      }
    }
  }

  /** Registering leaves the schema under its name. */
  lemma RegisteredByName(e: EncState, def: TypeDef)
    ensures var r := EnsureRegistered(e, EntryOf(def));
            r.result.Id? ==>
              && Name(def.name) in r.state.ids && r.state.ids[Name(def.name)] == r.result.id
              && r.result.id in r.state.registry && r.state.registry[r.result.id] == EntryOf(def)
  {
    hide EncodeSchema;
  }

  lemma TypeCached(r: Effect, def: TypeDef)
    requires r.result.Id? && r.result.id < TWO_16 && TypesByName(r.state)
    requires Name(def.name) in r.state.ids && r.state.ids[Name(def.name)] == r.result.id
    requires r.result.id in r.state.registry && r.state.registry[r.result.id] == EntryOf(def)
    ensures TypesByName(r.state.(ids := r.state.ids[RustType(def) := r.result.id]))
  {
  }

  /** A new schema gets an id of its own, so the types already known keep theirs. */
  lemma NamesKept(e: EncState, entry: SchemaEntry, e1: EncState)
    requires TypesByName(e) && Name(entry.name) !in e.ids
    requires e1.ids == e.ids[Name(entry.name) := e.nextId % TWO_16]
    requires e1.registry == e.registry[e.nextId % TWO_16 := entry]
    requires e.nextId % TWO_16 !in e.registry
    ensures TypesByName(e1)
  {
  }

  /** `w` has written what `p` has, behind `n` finished streams and the first bytes of the next. */
  ghost predicate Ahead(w: Session, p: Session, n: nat, pre: Stream, answers: seq<OpResult>) {
    && Similar(w.enc, p.enc)
    && |w.done| == n + |p.done|
    && (var ws, ps := w.Streams(), p.Streams();
        && ws[n].bytes == pre.bytes + ps[0].bytes && ws[n].log == pre.log + ps[0].log && ws[n].pool == ps[0].pool
        && forall i :: 1 <= i < |ps| ==> ws[n + i] == ps[i])
    && w.answers == answers + p.answers
  }

  lemma AheadStep(w: Session, p: Session, n: nat, pre: Stream, answers: seq<OpResult>, op: Op)
    requires Ahead(w, p, n, pre, answers) && Allowed(w.enc, op)
    ensures Allowed(p.enc, op) && Ahead(Exec(w, op), Exec(p, op), n, pre, answers)
  {
    hide Apply, Allowed;
    if op.ResetTo? {
      ResetAllowed(p.enc);
      assert w.answers + [Done] == answers + (p.answers + [Done]);
    } else {
      SimilarStep(w.enc, p.enc, op);
      var r, r1 := Apply(p.enc, op), Apply(w.enc, op);
      PoolsSimilar(r1.state, r.state);
      hide Similar;
      assert w.answers + [r.result] == answers + (p.answers + [r.result]);
      var w1, p1 := Exec(w, op), Exec(p, op);
      if p.done == [] {
        assert w.Streams()[n] == w.current && p.Streams()[0] == p.current;
        assert w.current.bytes + r.bytes == pre.bytes + (p.current.bytes + r.bytes);
        assert w.current.log + r.log == pre.log + (p.current.log + r.log);
      } else {
        assert w.Streams()[n] == w1.Streams()[n] && p.Streams()[0] == p1.Streams()[0];
        assert w.Streams()[n + |p.done|] == p.Streams()[|p.done|];
        forall i | 1 <= i < |p1.Streams()|
          ensures w1.Streams()[n + i] == p1.Streams()[i]
        {
          assert w.Streams()[n + i] == p.Streams()[i];
        }
      }
    }
  }

  lemma ResetAllowed(e: EncState)
    ensures Allowed(e, ResetTo)
  {
  }

  lemma PoolsSimilar(e1: EncState, e2: EncState)
    requires Similar(e1, e2)
    ensures e1.pool == e2.pool
  {
  }

  lemma {:induction false} AheadAll(w: Session, p: Session, n: nat, pre: Stream, answers: seq<OpResult>, ops: seq<Op>)
    requires Ahead(w, p, n, pre, answers) && AllAllowed(w, ops)
    ensures AllAllowed(p, ops) && Ahead(ExecAll(w, ops), ExecAll(p, ops), n, pre, answers)
    decreases |ops|
  {
    hide Ahead, Exec, Allowed;
    if ops != [] {
      AheadStep(w, p, n, pre, answers, ops[0]);
      AheadAll(Exec(w, ops[0]), Exec(p, ops[0]), n, pre, answers, ops[1..]);
    }
  }

  /** Resuming is invisible. Run any calls, decode the stream under way, turn the decoder into
      an encoder in whatever way the hash maps fall, and run any further calls, resets included:
      every answer, every byte and every later stream is what the first encoder would have given. */
  lemma ResumeInvisible(ops1: seq<Op>, e: EncState, ops2: seq<Op>)
    requires AllAllowed(Start, ops1) && AllAllowed(ExecAll(Start, ops1), ops2)
    requires DecodeAll(ExecAll(Start, ops1).current.bytes).Some?
    requires IsResumed(e, DecodeAll(ExecAll(Start, ops1).current.bytes).value.state)
    ensures AllAllowed(From(e), ops2)
    ensures var first := ExecAll(Start, ops1);
            Ahead(ExecAll(first, ops2), ExecAll(From(e), ops2), |first.done|, first.current, first.answers)
  {
    hide Run, AllAllowed, ExecAll;
    StartOk();
    ExecAllOk(Start, ops1);
    var w := ExecAll(Start, ops1);
    ResumedSimilar(w.enc, DecodeAll(w.current.bytes).value.state, e);
    assert Ahead(w, From(e), |w.done|, w.current, w.answers) by {
      hide Exact, Consistent, TypesByName;
      assert w.current.bytes + [] == w.current.bytes && w.current.log + [] == w.current.log;
    }
    AheadAll(w, From(e), |w.done|, w.current, w.answers, ops2);
  }

  lemma {:induction false} NoReset(s: Session, ops: seq<Op>)
    requires AllAllowed(s, ops) && ResetTo !in ops
    ensures ExecAll(s, ops).done == s.done
    decreases |ops|
  {
    hide Allowed, Apply;
    if ops != [] {
      NoReset(Exec(s, ops[0]), ops[1..]);
    }
  }

  lemma {:induction false} SameAllowed(s1: Session, s2: Session, ops: seq<Op>)
    requires s1.enc == s2.enc && AllAllowed(s1, ops)
    ensures AllAllowed(s2, ops)
    decreases |ops|
  {
    hide Allowed, Apply;
    if ops != [] {
      SameAllowed(Exec(s1, ops[0]), Exec(s2, ops[0]), ops[1..]);
    }
  }

  /** The resumed encoder with the trace it goes on with. */
  lemma ResumedSession(data: Bytes, e: EncState)
    requires DecodeAll(data).Some? && DecodeAll(data).value.Clean()
    requires CanResume(DecodeAll(data).value.state) && IsResumed(e, DecodeAll(data).value.state)
    ensures SessionOk(Session(e, [], Stream(data, DecodeAll(data).value.frames, e.pool), []))
  {
    hide Run;
    RunKeepsCache(Fresh, data[HEADER_SIZE..]);
    ResumedConsistent(e, DecodeAll(data).value.state);
    hide IsNameIndex, CacheAgrees;
  }

  /** Appending through a resumed encoder works for any trace that decodes to its end, whoever
      wrote it: the result decodes to the old frames followed by the new ones, and the new
      strings resolve. */
  lemma ResumeAppends(data: Bytes, e: EncState, ops: seq<Op>)
    requires DecodeAll(data).Some? && DecodeAll(data).value.Clean()
    requires CanResume(DecodeAll(data).value.state) && IsResumed(e, DecodeAll(data).value.state)
    requires AllAllowed(From(e), ops) && ResetTo !in ops
    ensures var added := ExecAll(From(e), ops).current;
            ReadsBack(Stream(data + added.bytes, DecodeAll(data).value.frames + added.log, added.pool))
  {
    hide Run, AllAllowed, ExecAll;
    var trace := DecodeAll(data).value;
    var pre := Stream(data, trace.frames, e.pool);
    var w := Session(e, [], pre, []);
    ResumedSession(data, e);
    SameAllowed(From(e), w, ops);
    assert Ahead(w, From(e), 0, pre, []) by {
      assert data + [] == data && trace.frames + [] == trace.frames;
    }
    AheadAll(w, From(e), 0, pre, [], ops);
    NoReset(From(e), ops);
    NoReset(w, ops);
    ExecAllOk(w, ops);
    assert ExecAll(w, ops).Streams()[0] == ExecAll(w, ops).current;
    assert ExecAll(From(e), ops).Streams()[0] == ExecAll(From(e), ops).current;
  }
}
