/** The rotating writer as a transition system: which events are in which segment, which
    segments are on disk, and how big they are
    (dial9-tokio-telemetry/src/telemetry/writer.rs). Times are inputs. */
module Rotation {
  import opened Wire
  import opened Wrappers
  import opened Types
  import opened Codec
  import opened Encoding
  import opened RoundTrip
  import opened Segments
  import opened SegmentReading
  import T = Telemetry

  /** A segment: the metadata it opens with and the runtime events in it. */
  datatype Seg = Seg(meta: Meta, events: seq<T.RawEvent>)

  function Content(seg: Seg): Bytes {
    Segment(seg.meta, seg.events).current.bytes
  }

  /** The size the writer keeps track of: the counter starts behind the header. */
  function Size(seg: Seg): nat {
    if |Content(seg)| >= HEADER_SIZE then |Content(seg)| - HEADER_SIZE else 0
  }

  /** What became of the last segment. `OverBudget` is a writer that stopped because even a
      fresh segment exceeds the total budget; its file stays until the writer is finalized. */
  datatype Phase = Open | OverBudget | Closed | Removed

  /** All segments ever opened, the first `evicted` of them deleted again. */
  datatype Writer = Writer(maxFileSize: nat, maxTotalSize: nat, entries: seq<Pair>,
                           segs: seq<Seg>, evicted: nat, phase: Phase, dropped: nat)
  {
    ghost predicate Valid() {
      && evicted < |segs|
      && (phase == OverBudget ==> Last().events == [] && evicted == |segs| - 1)
      && (phase == Closed ==> Last().events != [])
      && (phase == Removed ==> Last().events == [])
    }

    function Last(): Seg
      requires segs != []
    {
      segs[|segs| - 1]
    }

    /** The sealed segments that are still there. */
    function Kept(): seq<Seg>
      requires evicted < |segs|
    {
      segs[evicted..|segs| - 1]
    }
  }

  function Sizes(segs: seq<Seg>): nat {
    if segs == [] then 0 else Size(segs[0]) + Sizes(segs[1..])
  }

  /** `total_size`. */
  function Total(w: Writer): nat
    requires w.evicted < |w.segs|
  {
    Sizes(w.Kept()) + if w.phase == Open then Size(w.Last()) else 0
  }

  function Create(maxFileSize: nat, maxTotalSize: nat, entries: seq<Pair>, now: u64): Writer {
    Writer(maxFileSize, maxTotalSize, entries, [Seg(Meta(now, entries), [])], 0, Open, 0)
  }

  /** The loop of `evict_oldest`: sealed segments go, oldest first, while the total is too big. */
  function EvictLoop(w: Writer): Writer
    requires w.evicted < |w.segs|
    decreases |w.segs| - w.evicted
  {
    if Total(w) > w.maxTotalSize && w.evicted < |w.segs| - 1 then EvictLoop(w.(evicted := w.evicted + 1)) else w
  }

  function Evict(w: Writer): Writer
    requires w.evicted < |w.segs|
  {
    var w1 := EvictLoop(w);
    EvictLoopKeeps(w);
    if Total(w1) > w1.maxTotalSize then w1.(phase := OverBudget) else w1
  }

  function Rotate(w: Writer, now: u64): Writer
    requires w.evicted < |w.segs|
  {
    if w.phase != Open then w
    else Evict(w.(segs := w.segs + [Seg(Meta(now, w.entries), [])]))
  }

  function MaybeRotate(w: Writer, now: u64): Writer
    requires w.evicted < |w.segs|
  {
    if w.phase == Open && Size(w.Last()) > w.maxFileSize then Rotate(w, now) else w
  }

  /** `write_resolved_no_rotate`. */
  function Put(w: Writer, ev: T.RawEvent): (r: Writer)
    requires w.segs != []
    ensures |r.segs| == |w.segs|
  {
    if w.phase != Open then w.(dropped := w.dropped + 1)
    else w.(segs := w.segs[|w.segs| - 1 := Seg(w.Last().meta, w.Last().events + [ev])])
  }

  function PutAll(w: Writer, events: seq<T.RawEvent>): (r: Writer)
    requires w.segs != []
    ensures |r.segs| == |w.segs| && r.evicted == w.evicted && r.phase == w.phase
    decreases |events|
  {
    if events == [] then w else PutAll(Put(w, events[0]), events[1..])
  }

  function Finalize(w: Writer): Writer
    requires w.segs != []
  {
    match w.phase
    case Open => w.(phase := if w.Last().events != [] then Closed else Removed)
    case OverBudget => w.(phase := Removed)
    case _ => w
  }

  datatype WriterCall =
    | WriteOne(event: T.RawEvent, now: u64)
    | WriteBatch(events: seq<T.RawEvent>, now: u64)
    | Flush
    | FinalizeCall

  function Offers(c: WriterCall): seq<T.RawEvent> {
    match c
    case WriteOne(ev, _) => [ev]
    case WriteBatch(events, _) => events
    case _ => []
  }

  function Do(w: Writer, c: WriterCall): Writer
    requires w.evicted < |w.segs|
  {
    match c
    case WriteOne(ev, now) => MaybeRotate(Put(w, ev), now)
    case WriteBatch(events, now) => MaybeRotate(PutAll(w, events), now)
    case Flush => w
    case FinalizeCall => Finalize(w)
  }

  function DoAll(w: Writer, calls: seq<WriterCall>): Writer
    requires w.Valid()
    decreases |calls|
  {
    if calls == [] then w else
      DoValid(w, calls[0]);
      DoAll(Do(w, calls[0]), calls[1..])
  }

  function Offered(calls: seq<WriterCall>): seq<T.RawEvent> {
    if calls == [] then [] else Offers(calls[0]) + Offered(calls[1..])
  }

  // ----- single calls -----

  lemma {:induction false} EvictLoopKeeps(w: Writer)
    requires w.evicted < |w.segs|
    ensures var r := EvictLoop(w);
            && w.evicted <= r.evicted < |r.segs| && r == w.(evicted := r.evicted)
            && (Total(r) <= r.maxTotalSize || r.evicted == |r.segs| - 1)
    decreases |w.segs| - w.evicted
  {
    hide Total;
    if Total(w) > w.maxTotalSize && w.evicted < |w.segs| - 1 {
      EvictLoopKeeps(w.(evicted := w.evicted + 1));
    }
  }

  /** The oldest go and no more than needed: eviction stops at the first total that fits. */
  lemma {:induction false} EvictsAsNeeded(w: Writer, n: nat)
    requires w.evicted < |w.segs| && w.evicted <= n < EvictLoop(w).evicted
    ensures n < |w.segs| && Total(w.(evicted := n)) > w.maxTotalSize
    decreases |w.segs| - w.evicted
  {
    hide Total;
    EvictLoopKeeps(w);
    if n > w.evicted {
      EvictsAsNeeded(w.(evicted := w.evicted + 1), n);
    }
  }

  lemma {:induction false} PutAllOpen(w: Writer, events: seq<T.RawEvent>)
    requires w.segs != []
    ensures w.phase == Open ==>
              PutAll(w, events) == w.(segs := w.segs[|w.segs| - 1 := Seg(w.Last().meta, w.Last().events + events)])
    ensures w.phase != Open ==> PutAll(w, events) == w.(dropped := w.dropped + |events|)
    decreases |events|
  {
    if events == [] {
      assert w.Last().events + [] == w.Last().events;
    } else {
      PutAllOpen(Put(w, events[0]), events[1..]);
      assert (w.Last().events + [events[0]]) + events[1..] == w.Last().events + events;
    }
  }

  lemma RotateValid(w: Writer, now: u64)
    requires w.Valid()
    ensures Rotate(w, now).Valid() && MaybeRotate(w, now).Valid()
  {
    hide EvictLoop, Size, Total;
    if w.phase == Open {
      EvictLoopKeeps(w.(segs := w.segs + [Seg(Meta(now, w.entries), [])]));
    }
  }

  lemma DoValid(w: Writer, c: WriterCall)
    requires w.Valid()
    ensures Do(w, c).Valid()
  {
    hide Size, MaybeRotate;
    match c
    case WriteOne(ev, now) => RotateValid(Put(w, ev), now);
    case WriteBatch(events, now) =>
      PutAllOpen(w, events);
      RotateValid(PutAll(w, events), now);
    case _ =>
  }

  // ----- conservation -----

  function Events(segs: seq<Seg>): seq<T.RawEvent> {
    if segs == [] then [] else segs[0].events + Events(segs[1..])
  }

  lemma {:induction false} EventsAppend(a: seq<Seg>, b: seq<Seg>)
    ensures Events(a + b) == Events(a) + Events(b)
  {
    if a == [] {
      assert a + b == b;
    } else {
      assert (a + b)[1..] == a[1..] + b;
      EventsAppend(a[1..], b);
    }
  }

  /** Accepted events are the evicted segments' events, then the sealed ones', then the last
      segment's. */
  lemma AcceptedInOrder(w: Writer)
    requires w.Valid()
    ensures Events(w.segs) == Events(w.segs[..w.evicted]) + Events(w.Kept()) + w.Last().events
  {
    assert w.segs == w.segs[..w.evicted] + (w.Kept() + [w.Last()]);
    EventsAppend(w.segs[..w.evicted], w.Kept() + [w.Last()]);
    EventsAppend(w.Kept(), [w.Last()]);
    assert [w.Last()][1..] == [];
  }

  lemma EventsLast(segs: seq<Seg>, seg: Seg)
    requires segs != []
    ensures Events(segs) == Events(segs[..|segs| - 1]) + segs[|segs| - 1].events
    ensures Events(segs[|segs| - 1 := seg]) == Events(segs[..|segs| - 1]) + seg.events
  {
    var front := segs[..|segs| - 1];
    assert segs == front + [segs[|segs| - 1]] && segs[|segs| - 1 := seg] == front + [seg];
    EventsAppend(front, [segs[|segs| - 1]]);
    EventsAppend(front, [seg]);
    assert [seg][1..] == [] && [segs[|segs| - 1]][1..] == [];
  }

  /** What one write call does to the books: the whole batch goes to the segment that was open,
      or the whole batch is dropped; at most one new, still empty segment is opened behind it. */
  lemma BatchInOneSegment(w: Writer, events: seq<T.RawEvent>, now: u64)
    requires w.Valid()
    ensures var r := Do(w, WriteBatch(events, now));
            if w.phase == Open then
              && r.dropped == w.dropped && |w.segs| <= |r.segs| <= |w.segs| + 1
              && r.segs[|w.segs| - 1] == Seg(w.Last().meta, w.Last().events + events)
              && r.segs[..|w.segs| - 1] == w.segs[..|w.segs| - 1]
              && (|r.segs| > |w.segs| ==> r.Last().events == [])
            else r == w.(dropped := w.dropped + |events|)
  {
    hide EvictLoop, Size, Total;
    PutAllOpen(w, events);
    var w1 := PutAll(w, events);
    if w1.phase == Open {
      EvictLoopKeeps(w1.(segs := w1.segs + [Seg(Meta(now, w1.entries), [])]));
    }
  }

  lemma DoConserves(w: Writer, c: WriterCall)
    requires w.Valid()
    ensures var r := Do(w, c);
            if w.phase == Open then Events(r.segs) == Events(w.segs) + Offers(c) && r.dropped == w.dropped
            else Events(r.segs) == Events(w.segs) && r.dropped == w.dropped + |Offers(c)| && r.phase != Open
  {
    match c
    case Flush =>
      assert Events(w.segs) + [] == Events(w.segs);
    case FinalizeCall =>
      assert Events(w.segs) + [] == Events(w.segs);
    case WriteBatch(events, now) =>
      BatchConserves(w, events, now);
    case WriteOne(ev, now) =>
      SingleIsBatch(w, ev, now);
      BatchConserves(w, [ev], now);
  }

  lemma SingleIsBatch(w: Writer, ev: T.RawEvent, now: u64)
    requires w.Valid()
    ensures Do(w, WriteOne(ev, now)) == Do(w, WriteBatch([ev], now))
  {
    hide MaybeRotate;
    assert [ev][1..] == [];
    assert PutAll(w, [ev]) == PutAll(Put(w, ev), []);
  }

  lemma BatchConserves(w: Writer, events: seq<T.RawEvent>, now: u64)
    requires w.Valid()
    ensures var r := Do(w, WriteBatch(events, now));
            if w.phase == Open then Events(r.segs) == Events(w.segs) + events && r.dropped == w.dropped
            else Events(r.segs) == Events(w.segs) && r.dropped == w.dropped + |events| && r.phase != Open
  {
    hide Do, Events;
    BatchInOneSegment(w, events, now);
    if w.phase == Open {
      var r, n := Do(w, WriteBatch(events, now)), |w.segs|;
      EventsLast(w.segs, w.Last());
      assert r.segs[..n] == w.segs[..n - 1] + [r.segs[n - 1]];
      EventsLast(r.segs[..n], r.segs[n - 1]);
      assert r.segs[..n][..n - 1] == w.segs[..n - 1];
      assert Events(r.segs[..n]) == Events(w.segs) + events;
      if |r.segs| > n {
        EventsLast(r.segs, r.Last());
        assert r.segs[..|r.segs| - 1] == r.segs[..n];
      } else {
        assert r.segs[..n] == r.segs;
      }
    }
  }

  /** Over every run: the accepted events are the offered ones in order, up to the point where
      the writer stopped, and `dropped_events` counts exactly the rest. */
  lemma {:induction false} RotationConserves(w: Writer, calls: seq<WriterCall>)
    requires w.Valid() && w.dropped == 0
    ensures DoAll(w, calls).Valid()
    ensures var r := DoAll(w, calls);
            && r.dropped <= |Offered(calls)|
            && Events(r.segs) == Events(w.segs) + Offered(calls)[..|Offered(calls)| - r.dropped]
    decreases |calls|
  {
    hide Do, Offers, Events;
    if w.phase != Open {
      StoppedConserves(w, calls);
      assert Offered(calls)[..0] == [];
      assert Events(w.segs) + [] == Events(w.segs);
    } else if calls == [] {
      assert Events(w.segs) + [] == Events(w.segs);
    } else {
      DoConserves(w, calls[0]);
      DoValid(w, calls[0]);
      var w1 := Do(w, calls[0]);
      RotationConserves(w1, calls[1..]);
      var r, later := DoAll(w1, calls[1..]), Offered(calls[1..]);
      assert Offered(calls)[..|Offered(calls)| - r.dropped] == Offers(calls[0]) + later[..|later| - r.dropped];
      assert Events(w.segs) + (Offers(calls[0]) + later[..|later| - r.dropped])
             == (Events(w.segs) + Offers(calls[0])) + later[..|later| - r.dropped];
    }
  }

  lemma {:induction false} StoppedConserves(w: Writer, calls: seq<WriterCall>)
    requires w.Valid() && w.phase != Open
    ensures var r := DoAll(w, calls);
            && r.Valid() && r.phase != Open && r.segs == w.segs && r.evicted == w.evicted
            && r.dropped == w.dropped + |Offered(calls)|
            && (w.phase != OverBudget ==> r.phase == w.phase)
    decreases |calls|
  {
    if calls != [] {
      DoStopped(w, calls[0]);
      DoValid(w, calls[0]);
      hide Do;
      StoppedConserves(Do(w, calls[0]), calls[1..]);
    }
  }

  lemma DoStopped(w: Writer, c: WriterCall)
    requires w.Valid() && w.phase != Open
    ensures var r := Do(w, c);
            r == w.(dropped := w.dropped + |Offers(c)|, phase := r.phase) && r.phase != Open
            && (w.phase != OverBudget || c != FinalizeCall ==> r.phase == w.phase)
  {
    if c.WriteBatch? {
      PutAllOpen(w, c.events);
    }
  }

  // ----- one more call -----

  lemma {:induction false} OfferedAppend(calls: seq<WriterCall>, c: WriterCall)
    ensures Offered(calls + [c]) == Offered(calls) + Offers(c)
  {
    hide Offers;
    if calls == [] {
      assert (calls + [c])[1..] == [] && [] + [c] == [c];
      assert Offers(c) + Offered([]) == Offers(c) && [] + Offers(c) == Offers(c);
    } else {
      assert (calls + [c])[1..] == calls[1..] + [c];
      OfferedAppend(calls[1..], c);
      assert Offers(calls[0]) + (Offered(calls[1..]) + Offers(c))
             == (Offers(calls[0]) + Offered(calls[1..])) + Offers(c);
    }
  }

  lemma {:induction false} DoAllValid(w: Writer, calls: seq<WriterCall>)
    requires w.Valid()
    ensures DoAll(w, calls).Valid()
    decreases |calls|
  {
    hide Do;
    if calls != [] {
      DoValid(w, calls[0]);
      DoAllValid(Do(w, calls[0]), calls[1..]);
    }
  }

  lemma {:induction false} DoAllAppend(w: Writer, calls: seq<WriterCall>, c: WriterCall)
    requires w.Valid()
    ensures DoAll(w, calls).Valid() && DoAll(w, calls + [c]) == Do(DoAll(w, calls), c)
    decreases |calls|
  {
    hide Do;
    if calls == [] {
      DoValid(w, c);
      assert (calls + [c])[1..] == [] && [] + [c] == [c];
    } else {
      DoValid(w, calls[0]);
      assert (calls + [c])[1..] == calls[1..] + [c];
      DoAllAppend(Do(w, calls[0]), calls[1..], c);
    }
  }

  // ----- no empty segments -----

  /** A call that seals the open segment without a single event in it. */
  predicate SealsEmpty(w: Writer, c: WriterCall)
    requires w.segs != []
  {
    && c.WriteBatch? && c.events == []
    && w.phase == Open && w.Last().events == [] && Size(w.Last()) > w.maxFileSize
  }

  ghost predicate SealedNonEmpty(w: Writer)
    requires w.Valid()
  {
    forall i :: 0 <= i < |w.segs| - 1 ==> w.segs[i].events != []
  }

  /** Exactly the empty batch on a segment that is too big from its metadata alone does it. */
  lemma SealsEmptyExactly(w: Writer, c: WriterCall)
    requires w.Valid() && SealedNonEmpty(w)
    ensures Do(w, c).Valid() && (SealedNonEmpty(Do(w, c)) <==> !SealsEmpty(w, c))
  {
    DoValid(w, c);
    if c.WriteOne? {
      SingleIsBatch(w, c.event, c.now);
      BatchSeals(w, [c.event], c.now);
    } else if c.WriteBatch? {
      BatchSeals(w, c.events, c.now);
    }
  }

  lemma BatchSeals(w: Writer, events: seq<T.RawEvent>, now: u64)
    requires w.Valid() && SealedNonEmpty(w) && Do(w, WriteBatch(events, now)).Valid()
    ensures SealedNonEmpty(Do(w, WriteBatch(events, now))) <==> !SealsEmpty(w, WriteBatch(events, now))
  {
    hide Do, Size, SealedNonEmpty;
    BatchInOneSegment(w, events, now);
    BatchRotates(w, events, now);
    var r, n := Do(w, WriteBatch(events, now)), |w.segs|;
    if w.phase == Open {
      var all := w.Last().events + events;
      assert events == [] ==> all == w.Last().events && Seg(w.Last().meta, all) == w.Last();
      FrontNonEmpty(w, r, n, all);
    } else {
      OnlyDropped(w, r);
    }
  }

  lemma FrontNonEmpty(w: Writer, r: Writer, n: nat, all: seq<T.RawEvent>)
    requires w.Valid() && r.Valid() && SealedNonEmpty(w) && n == |w.segs| <= |r.segs| <= n + 1
    requires r.segs[..n - 1] == w.segs[..n - 1] && r.segs[n - 1].events == all
    ensures SealedNonEmpty(r) <==> |r.segs| == n || all != []
  {
    forall i | 0 <= i < n - 1
      ensures r.segs[i].events != []
    {
      assert r.segs[i] == r.segs[..n - 1][i] == w.segs[..n - 1][i];
    }
  }

  lemma OnlyDropped(w: Writer, r: Writer)
    requires w.Valid() && r.Valid() && SealedNonEmpty(w) && r.segs == w.segs
    ensures SealedNonEmpty(r)
  {
  }

  /** A write call opens a new segment exactly when the old one came out too big. */
  lemma BatchRotates(w: Writer, events: seq<T.RawEvent>, now: u64)
    requires w.Valid()
    ensures |Do(w, WriteBatch(events, now)).segs| > |w.segs| <==>
            w.phase == Open && Size(Seg(w.Last().meta, w.Last().events + events)) > w.maxFileSize
  {
    hide EvictLoop, Size, Total;
    PutAllOpen(w, events);
    var w1 := PutAll(w, events);
    if w1.phase == Open {
      EvictLoopKeeps(w1.(segs := w1.segs + [Seg(Meta(now, w1.entries), [])]));
    }
  }

  /** A segment is never smaller than its metadata event. */
  lemma MetadataTakesRoom(meta: Meta)
    ensures Size(Seg(meta, [])) > 0
  {
    hide T.KindDef, EncodeSchema, EncodeFields, ToLE, DeltaOf;
    var r := Apply(FreshEncoder, MetaOp(meta));
    assert TypeIdEffect(FreshEncoder, MetaDef).result.Id?;
    assert |r.bytes| > 0;
    hide Apply;
    assert Segment(meta, []) == Exec(Start, MetaOp(meta));
    assert Segment(meta, []).current.bytes == Header + r.bytes;
  }

  /** With a file size of zero an empty batch seals a segment of metadata alone. */
  lemma EmptySegmentSealed(maxTotalSize: nat, now: u64, later: u64)
    ensures var w, c := Create(0, maxTotalSize, [], now), WriteBatch([], later);
            && w.Valid() && SealedNonEmpty(w) && SealsEmpty(w, c)
            && Do(w, c).Valid() && !SealedNonEmpty(Do(w, c))
  {
    var w, c := Create(0, maxTotalSize, [], now), WriteBatch([], later);
    MetadataTakesRoom(w.Last().meta);
    hide Size, Do;
    SealsEmptyExactly(w, c);
  }

  /** Some call seals an empty segment. */
  predicate EverSealsEmpty(w: Writer, calls: seq<WriterCall>)
    requires w.Valid()
    decreases |calls|
  {
    calls != [] && (SealsEmpty(w, calls[0]) || (DoValid(w, calls[0]); EverSealsEmpty(Do(w, calls[0]), calls[1..])))
  }

  /** An empty segment, once sealed, is not filled again. */
  lemma {:induction false} EmptyStays(w: Writer, calls: seq<WriterCall>)
    requires w.Valid() && !SealedNonEmpty(w)
    ensures DoAll(w, calls).Valid() && !SealedNonEmpty(DoAll(w, calls))
    decreases |calls|
  {
    if calls != [] {
      DoValid(w, calls[0]);
      EmptyStaysOnce(w, calls[0]);
      hide Do, SealedNonEmpty;
      EmptyStays(Do(w, calls[0]), calls[1..]);
    }
  }

  lemma EmptyStaysOnce(w: Writer, c: WriterCall)
    requires w.Valid() && Do(w, c).Valid() && !SealedNonEmpty(w)
    ensures !SealedNonEmpty(Do(w, c))
  {
    var i :| 0 <= i < |w.segs| - 1 && w.segs[i].events == [];
    if c.WriteOne? {
      SingleIsBatch(w, c.event, c.now);
    }
    if c.WriteOne? || c.WriteBatch? {
      BatchInOneSegment(w, Offers(c), c.now);
      var r := Do(w, c);
      hide Do;
      if w.phase == Open {
        assert r.segs[i] == r.segs[..|w.segs| - 1][i] == w.segs[..|w.segs| - 1][i];
      }
      assert r.segs[i].events == [];
    }
  }

  /** Over every run: each sealed segment holds a real event exactly when no call sealed an empty
      one. */
  lemma {:induction false} SealedNonEmptyExactly(w: Writer, calls: seq<WriterCall>)
    requires w.Valid() && SealedNonEmpty(w)
    ensures DoAll(w, calls).Valid() && (SealedNonEmpty(DoAll(w, calls)) <==> !EverSealsEmpty(w, calls))
    decreases |calls|
  {
    if calls != [] {
      SealsEmptyExactly(w, calls[0]);
      hide Do, SealedNonEmpty, SealsEmpty;
      if SealsEmpty(w, calls[0]) {
        EmptyStays(Do(w, calls[0]), calls[1..]);
      } else {
        SealedNonEmptyExactly(Do(w, calls[0]), calls[1..]);
      }
    }
  }

  /** With no empty batches, every sealed segment holds a real event. */
  lemma SegmentsHoldEvents(w: Writer, calls: seq<WriterCall>)
    requires w.Valid() && SealedNonEmpty(w)
    requires forall c :: c in calls && c.WriteBatch? ==> c.events != []
    ensures DoAll(w, calls).Valid() && SealedNonEmpty(DoAll(w, calls))
  {
    SealedNonEmptyExactly(w, calls);
    NeverSealsEmpty(w, calls);
  }

  lemma {:induction false} NeverSealsEmpty(w: Writer, calls: seq<WriterCall>)
    requires w.Valid() && forall c :: c in calls && c.WriteBatch? ==> c.events != []
    ensures !EverSealsEmpty(w, calls)
    decreases |calls|
  {
    hide Do, Size;
    if calls != [] {
      assert calls[0] in calls;
      DoValid(w, calls[0]);
      NeverSealsEmpty(Do(w, calls[0]), calls[1..]);
    }
  }

  // ----- the disk budget -----

  /** Sealed segments alone never exceed the total budget. */
  ghost predicate WithinBudget(w: Writer)
    requires w.evicted < |w.segs|
  {
    Sizes(w.Kept()) <= w.maxTotalSize
  }

  lemma RotateBudget(w: Writer, now: u64)
    requires w.Valid() && w.phase == Open
    ensures var r := Rotate(w, now);
            && r.Valid() && WithinBudget(r) && Total(r) <= r.maxTotalSize
            && (r.phase == OverBudget <==> Size(Seg(Meta(now, w.entries), [])) > w.maxTotalSize)
  {
    hide EvictLoop, Size;
    RotateValid(w, now);
    var w1 := w.(segs := w.segs + [Seg(Meta(now, w.entries), [])]);
    EvictLoopKeeps(w1);
    var w2 := EvictLoop(w1);
    if w2.evicted == |w2.segs| - 1 {
      assert w2.Kept() == [];
    }
  }

  /** After every write call the tracked total is at most the two limits together. */
  lemma WriteBudget(w: Writer, c: WriterCall)
    requires w.Valid() && WithinBudget(w) && (c.WriteOne? || c.WriteBatch?)
    ensures var r := Do(w, c);
            && r.Valid() && WithinBudget(r) && Total(r) <= r.maxTotalSize + r.maxFileSize
            && r.maxTotalSize == w.maxTotalSize && r.maxFileSize == w.maxFileSize
            && (|r.segs| > |w.segs| ==> Total(r) <= r.maxTotalSize)
  {
    if c.WriteOne? {
      SingleIsBatch(w, c.event, c.now);
    }
    PutBudget(w, Offers(c));
    RotationBudget(PutAll(w, Offers(c)), c.now);
    hide Size, PutAll, MaybeRotate, Total, WithinBudget;
  }

  lemma PutBudget(w: Writer, events: seq<T.RawEvent>)
    requires w.Valid() && WithinBudget(w)
    ensures var r := PutAll(w, events);
            && r.Valid() && WithinBudget(r)
            && r.maxTotalSize == w.maxTotalSize && r.maxFileSize == w.maxFileSize
  {
    hide Size, Sizes;
    PutAllOpen(w, events);
    assert PutAll(w, events).Kept() == w.Kept();
  }

  lemma RotationBudget(w: Writer, now: u64)
    requires w.Valid() && WithinBudget(w)
    ensures var r := MaybeRotate(w, now);
            && r.Valid() && WithinBudget(r) && Total(r) <= r.maxTotalSize + r.maxFileSize
            && r.maxTotalSize == w.maxTotalSize && r.maxFileSize == w.maxFileSize
            && (|r.segs| > |w.segs| ==> Total(r) <= r.maxTotalSize)
  {
    hide Size, Sizes, Rotate;
    if w.phase == Open && Size(w.Last()) > w.maxFileSize {
      RotateBudget(w, now);
      RotateLimits(w, now);
    }
  }

  lemma RotateLimits(w: Writer, now: u64)
    requires w.Valid()
    ensures Rotate(w, now).maxTotalSize == w.maxTotalSize && Rotate(w, now).maxFileSize == w.maxFileSize
  {
    hide EvictLoop, Size, Total;
    if w.phase == Open {
      EvictLoopKeeps(w.(segs := w.segs + [Seg(Meta(now, w.entries), [])]));
    }
  }

  lemma DoBudget(w: Writer, c: WriterCall)
    requires w.Valid() && WithinBudget(w)
    ensures Do(w, c).Valid() && WithinBudget(Do(w, c))
    ensures Do(w, c).maxTotalSize == w.maxTotalSize && Do(w, c).maxFileSize == w.maxFileSize
  {
    if c.WriteOne? || c.WriteBatch? {
      WriteBudget(w, c);
    } else {
      DoValid(w, c);
      assert Do(w, c).Kept() == w.Kept();
    }
  }

  /** Over every run, after its last call, if that was a write. */
  lemma {:induction false} DiskBudget(w: Writer, calls: seq<WriterCall>)
    requires w.Valid() && WithinBudget(w)
    ensures DoAll(w, calls).Valid() && WithinBudget(DoAll(w, calls))
    ensures calls != [] && (calls[|calls| - 1].WriteOne? || calls[|calls| - 1].WriteBatch?) ==>
              Total(DoAll(w, calls)) <= w.maxTotalSize + w.maxFileSize
    decreases |calls|
  {
    hide Do, Total, WithinBudget;
    if calls != [] {
      DoBudget(w, calls[0]);
      if |calls| == 1 && (calls[0].WriteOne? || calls[0].WriteBatch?) {
        WriteBudget(w, calls[0]);
      }
      DiskBudget(Do(w, calls[0]), calls[1..]);
    }
  }

  // ----- the files -----

  datatype Path = ActiveFile(index: nat) | SealedFile(index: nat)

  /** The trace files on disk, the open one included, by their names. */
  function Disk(w: Writer): map<Path, Bytes>
    requires w.segs != []
  {
    (map i: nat | w.evicted <= i < |w.segs| - 1 :: SealedFile(i) := Content(w.segs[i])) + LastFile(w)
  }

  function LastFile(w: Writer): map<Path, Bytes>
    requires w.segs != []
  {
    match w.phase
    case Closed => map[SealedFile(|w.segs| - 1) := Content(w.Last())]
    case Removed => map[]
    case _ => map[ActiveFile(|w.segs| - 1) := Content(w.Last())]
  }

  /** Lengths fit and pool ids are left, in every segment. */
  ghost predicate AllWritable(w: Writer) {
    && MetaOk(Meta(0, w.entries))
    && forall seg :: seg in w.segs ==> SegmentWritable(seg.meta, seg.events)
  }

  ghost predicate CallWritable(w: Writer, c: WriterCall)
    requires w.segs != []
  {
    w.phase == Open ==> SegmentWritable(w.Last().meta, w.Last().events + Offers(c))
  }

  lemma DoWritable(w: Writer, c: WriterCall)
    requires w.Valid() && AllWritable(w) && CallWritable(w, c)
    ensures AllWritable(Do(w, c))
  {
    if c.WriteOne? {
      SingleIsBatch(w, c.event, c.now);
      BatchWritable(w, [c.event], c.now);
    } else if c.WriteBatch? {
      BatchWritable(w, c.events, c.now);
    }
  }

  lemma BatchWritable(w: Writer, events: seq<T.RawEvent>, now: u64)
    requires w.Valid() && AllWritable(w)
    requires w.phase == Open ==> SegmentWritable(w.Last().meta, w.Last().events + events)
    ensures AllWritable(Do(w, WriteBatch(events, now)))
  {
    hide Do, SegmentWritable, MetaOk;
    BatchInOneSegment(w, events, now);
    BatchEntries(w, events, now);
    var r, n := Do(w, WriteBatch(events, now)), |w.segs|;
    if w.phase == Open {
      if |r.segs| > n {
        NewSegmentWritable(w, now);
      }
      SegsWritable(w, r, n);
    }
  }

  lemma SegsWritable(w: Writer, r: Writer, n: nat)
    requires AllWritable(w) && r.entries == w.entries && n == |w.segs| > 0 && n <= |r.segs| <= n + 1
    requires r.segs[..n - 1] == w.segs[..n - 1]
    requires forall i :: n - 1 <= i < |r.segs| ==> SegmentWritable(r.segs[i].meta, r.segs[i].events)
    ensures AllWritable(r)
  {
    hide SegmentWritable, MetaOk;
    forall i | 0 <= i < n - 1
      ensures SegmentWritable(r.segs[i].meta, r.segs[i].events)
    {
      assert r.segs[i] == r.segs[..n - 1][i] == w.segs[i];
    }
  }

  lemma NewSegmentWritable(w: Writer, now: u64)
    requires AllWritable(w)
    ensures SegmentWritable(Meta(now, w.entries), [])
  {
  }

  lemma BatchEntries(w: Writer, events: seq<T.RawEvent>, now: u64)
    requires w.Valid()
    ensures var r := Do(w, WriteBatch(events, now));
            r.entries == w.entries && (|r.segs| > |w.segs| ==> r.Last() == Seg(Meta(now, w.entries), []))
  {
    hide EvictLoop, Size, Total;
    PutAllOpen(w, events);
    var w1 := PutAll(w, events);
    if w1.phase == Open {
      EvictLoopKeeps(w1.(segs := w1.segs + [Seg(Meta(now, w1.entries), [])]));
    }
  }

  /** Whatever was written, rotated and evicted: every file on disk decodes on its own to one
      segment's events, and announces that segment's timestamp. */
  lemma SurvivorsDecode(w: Writer, p: Path)
    requires w.Valid() && AllWritable(w) && p in Disk(w)
    ensures p.index < |w.segs|
    ensures DecodesTo(Disk(w)[p], w.segs[p.index].meta, w.segs[p.index].events)
    ensures ParseSegmentTimestamp(Disk(w)[p]) == Ok(w.segs[p.index].meta.timestamp)
  {
    hide DecodesTo, SegmentWritable, Segment;
    var seg := w.segs[p.index];
    assert Disk(w)[p] == Content(seg) && seg in w.segs;
    SegmentDecodesAlone(seg.meta, seg.events);
    SegmentTimestampFound(seg.meta, seg.events);
  }

  ghost predicate RunWritable(w: Writer, calls: seq<WriterCall>)
    requires w.Valid()
    decreases |calls|
  {
    calls == [] || (CallWritable(w, calls[0]) && (DoValid(w, calls[0]); RunWritable(Do(w, calls[0]), calls[1..])))
  }

  /** At the end of every run, every file left on disk decodes on its own. */
  lemma {:induction false} RunSurvivorsDecode(w: Writer, calls: seq<WriterCall>, p: Path)
    requires w.Valid() && AllWritable(w) && RunWritable(w, calls)
    ensures DoAll(w, calls).Valid() && AllWritable(DoAll(w, calls))
    ensures var r := DoAll(w, calls);
            p in Disk(r) ==>
              && p.index < |r.segs| && DecodesTo(Disk(r)[p], r.segs[p.index].meta, r.segs[p.index].events)
              && ParseSegmentTimestamp(Disk(r)[p]) == Ok(r.segs[p.index].meta.timestamp)
    decreases |calls|
  {
    hide Do, Disk, AllWritable, CallWritable, DecodesTo;
    if calls != [] {
      DoValid(w, calls[0]);
      DoWritable(w, calls[0]);
      RunSurvivorsDecode(Do(w, calls[0]), calls[1..], p);
    } else if p in Disk(w) {
      SurvivorsDecode(w, p);
    }
  }

  /** Once finalized, the files stay as they are, whatever is called. */
  lemma FinalizedForGood(w: Writer, calls: seq<WriterCall>)
    requires w.Valid() && w.phase in {Closed, Removed}
    ensures DoAll(w, calls).segs != [] && Disk(DoAll(w, calls)) == Disk(w)
  {
    hide Do, Content;
    StoppedConserves(w, calls);
  }

  // ----- real sizes -----

  /** The segments whose files are on disk. */
  function Filed(w: Writer): seq<Seg>
    requires w.evicted < |w.segs|
  {
    w.Kept() + if w.phase == Removed then [] else [w.Last()]
  }

  function RealBytes(segs: seq<Seg>): nat {
    if segs == [] then 0 else |Content(segs[0])| + RealBytes(segs[1..])
  }

  lemma {:induction false} HeaderFirst(meta: Meta, events: seq<T.RawEvent>)
    ensures Header <= Segment(meta, events).current.bytes
    decreases |events|
  {
    if events != [] {
      HeaderFirst(meta, events[..|events| - 1]);
      WriteGrows(Segment(meta, events[..|events| - 1]), events[|events| - 1]);
    } else {
      hide Apply;
    }
  }

  lemma WriteGrows(s: Session, ev: T.RawEvent)
    ensures s.current.bytes <= WriteRaw(s, ev).current.bytes
  {
    hide Exec, T.ValuesOf, T.KindDef, T.KindOfRaw;
    if T.Interned(ev).Some? {
      ExecGrows(s, InternString(T.Interned(ev).value));
    }
    ExecGrows(AfterIntern(s, ev), EventOp(AfterIntern(s, ev).enc, ev));
  }

  lemma ExecGrows(s: Session, op: Op)
    requires !op.ResetTo?
    ensures s.current.bytes <= Exec(s, op).current.bytes
  {
    hide Apply;
  }

  lemma {:induction false} HeadersCount(segs: seq<Seg>)
    ensures RealBytes(segs) == Sizes(segs) + HEADER_SIZE * |segs|
  {
    if segs != [] {
      HeaderFirst(segs[0].meta, segs[0].events);
      hide Content;
      HeadersCount(segs[1..]);
    }
  }

  lemma {:induction false} SizesAppend(a: seq<Seg>, b: seq<Seg>)
    ensures Sizes(a + b) == Sizes(a) + Sizes(b)
  {
    hide Size;
    if a == [] {
      assert a + b == b;
    } else {
      assert (a + b)[1..] == a[1..] + b;
      SizesAppend(a[1..], b);
    }
  }

  /** While the writer is open its files take five bytes each more than the budget counts; a
      writer that has stopped no longer counts its last file at all. */
  lemma RealSize(w: Writer)
    requires w.Valid()
    ensures RealBytes(Filed(w))
            == Total(w) + HEADER_SIZE * |Filed(w)| + if w.phase in {OverBudget, Closed} then Size(w.Last()) else 0
  {
    hide Size, Content;
    HeadersCount(Filed(w));
    if w.phase != Removed {
      SizesAppend(w.Kept(), [w.Last()]);
      assert [w.Last()][1..] == [];
    } else {
      assert w.Kept() + [] == w.Kept();
    }
  }
}
