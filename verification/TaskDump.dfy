/** The wheel that watches long-pending tasks (dial9-tokio-telemetry/src/task_dump.rs), against
    watching one task at a time. Clock readings and task states are inputs of each tick. */
module TaskDump {
  import opened Wire
  import opened Wrappers

  const SLOTS: nat := 60
  const NANOS_PER_SEC: nat := 1_000_000_000

  /** The address of a sentinel. */
  type Id = nat

  datatype TraceEntry = TraceEntry(time: nat, trace: nat)

  datatype SentinelStatus = Pending(traces: seq<TraceEntry>) | Completed | Cancelled

  /** A report, with the sentinel it is about. */
  datatype LongPollEvent = LongPollEvent(id: Id, status: SentinelStatus, sendCount: nat)

  /** What one tick finds: sentinels added directly before it, sentinels in the channel, what
      each sentinel holds when it is looked at, and the clock then. */
  datatype Input = Input(added: seq<Id>, incoming: seq<Id>, status: Id -> SentinelStatus, now: Id -> nat)

  datatype Tracker = Tracker(buckets: seq<seq<Id>>, current: nat, sendCounts: map<Id, nat>, sent: seq<LongPollEvent>) {
    predicate Valid() {
      |buckets| == SLOTS && current < SLOTS
    }
  }

  function Init(): (t: Tracker)
    ensures t.Valid()
  {
    Tracker(seq(SLOTS, _ => []), 0, map[], [])
  }

  function CountOf(counts: map<Id, nat>, id: Id): nat {
    if id in counts then counts[id] else 0
  }

  /** A sentinel that stays in its bucket: pending, with a trace to show. */
  predicate Watched(status: SentinelStatus) {
    status.Pending? && status.traces != []
  }

  /** Whole seconds since the first trace; none if the clock went back. */
  function Age(status: SentinelStatus, now: nat): nat
    requires Watched(status)
  {
    if now < status.traces[0].time then 0 else (now - status.traces[0].time) / NANOS_PER_SEC
  }

  predicate Reportable(status: SentinelStatus, now: nat) {
    Watched(status) && Age(status, now) >= 6
  }

  function Put(t: Tracker, slot: nat, ids: seq<Id>): (r: Tracker)
    requires t.Valid() && slot < SLOTS
    ensures r.Valid() && r.current == t.current
  {
    t.(buckets := t.buckets[slot := t.buckets[slot] + ids])
  }

  /** `add_sentinel`. */
  function Add(t: Tracker, ids: seq<Id>): Tracker
    requires t.Valid()
  {
    Put(t, 0, ids)
  }

  /** New sentinels go six buckets ahead. */
  function DrainChannel(t: Tracker, ids: seq<Id>): Tracker
    requires t.Valid()
  {
    Put(t, (t.current + 6) % SLOTS, ids)
  }

  datatype Examined = Examined(active: seq<Id>, sendCounts: map<Id, nat>, sent: seq<LongPollEvent>)

  function Look(x: Examined, id: Id, status: SentinelStatus, now: nat): Examined {
    if !Watched(status) then x
    else if Age(status, now) >= 6 then
      var count := CountOf(x.sendCounts, id);
      Examined(x.active + [id], x.sendCounts[id := count + 1], x.sent + [LongPollEvent(id, status, count)])
    else x.(active := x.active + [id])
  }

  function Examine(bucket: seq<Id>, counts: map<Id, nat>, sent: seq<LongPollEvent>, input: Input): Examined
    decreases |bucket|
  {
    if bucket == [] then Examined([], counts, sent)
    else
      var id := bucket[|bucket| - 1];
      Look(Examine(bucket[..|bucket| - 1], counts, sent, input), id, input.status(id), input.now(id))
  }

  /** The hand moves on and everything in its bucket is looked at. */
  function Advance(t: Tracker, input: Input): (r: Tracker)
    requires t.Valid()
    ensures r.Valid() && r.current == (t.current + 1) % SLOTS
  {
    var hand := (t.current + 1) % SLOTS;
    var x := Examine(t.buckets[hand], t.sendCounts, t.sent, input);
    Tracker(t.buckets[hand := x.active], hand, x.sendCounts, x.sent)
  }

  function Tick(t: Tracker, input: Input): (r: Tracker)
    requires t.Valid()
    ensures r.Valid() && r.current == (t.current + 1) % SLOTS
  {
    Advance(DrainChannel(Add(t, input.added), input.incoming), input)
  }

  /** The tracker after the first `m` ticks. */
  function After(inputs: seq<Input>, m: nat): (t: Tracker)
    requires m <= |inputs|
    ensures t.Valid()
  {
    if m == 0 then Init() else Tick(After(inputs, m - 1), inputs[m - 1])
  }

  // ----- one sentinel on its own -----

  /** Tick `j` looks at bucket `b`, and the sentinel came at tick `i`. */
  predicate Due(b: nat, i: nat, j: nat) {
    j >= i && (j + 1) % SLOTS == b
  }

  /** Still watched after `m` ticks: every look at it so far found it pending. */
  predicate Alive(inputs: seq<Input>, id: Id, b: nat, i: nat, m: nat)
    requires i <= m <= |inputs|
  {
    m == i || (Alive(inputs, id, b, i, m - 1) && (Due(b, i, m - 1) ==> Watched(inputs[m - 1].status(id))))
  }

  /** Its reports after `m` ticks: one for each look that found it pending for six seconds. */
  function Reports(inputs: seq<Input>, id: Id, b: nat, i: nat, m: nat): seq<LongPollEvent>
    requires i <= m <= |inputs|
  {
    if m == i then []
    else
      var before := Reports(inputs, id, b, i, m - 1);
      var status, now := inputs[m - 1].status(id), inputs[m - 1].now(id);
      if Alive(inputs, id, b, i, m - 1) && Due(b, i, m - 1) && Reportable(status, now) then
        before + [LongPollEvent(id, status, |before|)]
      else before
  }

  /** The sentinel comes once: at tick `i`, into bucket `b`. */
  ghost predicate Comes(inputs: seq<Input>, id: Id, b: nat, i: nat) {
    && i < |inputs|
    && (forall j :: 0 <= j < |inputs| ==>
          multiset(inputs[j].added)[id] + multiset(inputs[j].incoming)[id] == if j == i then 1 else 0)
    && b == if id in inputs[i].added then 0 else (i + 6) % SLOTS
  }

  function Project(sent: seq<LongPollEvent>, id: Id): seq<LongPollEvent> {
    if sent == [] then []
    else Project(sent[..|sent| - 1], id) + if sent[|sent| - 1].id == id then [sent[|sent| - 1]] else []
  }

  /** The sentinel is in this bucket and no other, once; or in none. */
  ghost predicate Placed(t: Tracker, id: Id, place: Option<nat>)
    requires t.Valid()
  {
    forall b: nat :: b < SLOTS ==> multiset(t.buckets[b])[id] == if place == Some(b) then 1 else 0
  }

  ghost predicate Tracks(t: Tracker, id: Id, place: Option<nat>, reports: seq<LongPollEvent>)
    requires t.Valid()
  {
    Placed(t, id, place) && CountOf(t.sendCounts, id) == |reports| && Project(t.sent, id) == reports
  }

  lemma ProjectAppend(sent: seq<LongPollEvent>, e: LongPollEvent, id: Id)
    ensures Project(sent + [e], id) == Project(sent, id) + if e.id == id then [e] else []
  {
    assert (sent + [e])[..|sent|] == sent;
  }

  lemma LookOne(x: Examined, last: Id, status: SentinelStatus, now: nat, id: Id)
    ensures var y := Look(x, last, status, now);
            var reported := last == id && Reportable(status, now);
            && multiset(y.active)[id] == multiset(x.active)[id] + (if last == id && Watched(status) then 1 else 0)
            && CountOf(y.sendCounts, id) == CountOf(x.sendCounts, id) + (if reported then 1 else 0)
            && Project(y.sent, id)
               == Project(x.sent, id) + if reported then [LongPollEvent(id, status, CountOf(x.sendCounts, id))] else []
  {
    hide Project, Age;
    ProjectAppend(x.sent, LongPollEvent(last, status, CountOf(x.sendCounts, last)), id);
    assert Project(x.sent, id) + [] == Project(x.sent, id);
  }

  /** What looking at a bucket does to one sentinel. */
  lemma {:induction false} ExamineOne(bucket: seq<Id>, counts: map<Id, nat>, sent: seq<LongPollEvent>, input: Input,
                                      id: Id)
    requires multiset(bucket)[id] <= 1
    ensures var x := Examine(bucket, counts, sent, input);
            var status, now := input.status(id), input.now(id);
            var count := CountOf(counts, id);
            var reported := id in bucket && Reportable(status, now);
            && multiset(x.active)[id] == (if id in bucket && Watched(status) then 1 else 0)
            && CountOf(x.sendCounts, id) == count + (if reported then 1 else 0)
            && Project(x.sent, id) == Project(sent, id) + if reported then [LongPollEvent(id, status, count)] else []
    decreases |bucket|
  {
    hide Project, Look, Reportable, Watched, CountOf;
    assert Project(sent, id) + [] == Project(sent, id);
    if bucket != [] {
      var front: seq<Id> := bucket[..|bucket| - 1];
      var last: Id := bucket[|bucket| - 1];
      assert bucket == front + [last];
      ExamineOne(front, counts, sent, input, id);
      LookOne(Examine(front, counts, sent, input), last, input.status(last), input.now(last), id);
      assert multiset(bucket)[id] == multiset(front)[id] + if last == id then 1 else 0;
      assert id in front <==> multiset(front)[id] > 0;
    }
  }

  lemma PutOne(t: Tracker, slot: nat, ids: seq<Id>, id: Id, place: Option<nat>)
    requires t.Valid() && slot < SLOTS && Placed(t, id, place)
    requires multiset(ids)[id] == 0 || (multiset(ids)[id] == 1 && place == None)
    ensures Placed(Put(t, slot, ids), id, if multiset(ids)[id] == 1 then Some(slot) else place)
  {
  }

  lemma AdvanceOne(t: Tracker, input: Input, id: Id, place: Option<nat>, reports: seq<LongPollEvent>)
    requires t.Valid() && Tracks(t, id, place, reports)
    ensures var due := place == Some((t.current + 1) % SLOTS);
            Tracks(Advance(t, input), id,
                   if due && !Watched(input.status(id)) then None else place,
                   if due && Reportable(input.status(id), input.now(id)) then
                     reports + [LongPollEvent(id, input.status(id), |reports|)]
                   else reports)
  {
    hide Examine, Project;
    var hand := (t.current + 1) % SLOTS;
    ExamineOne(t.buckets[hand], t.sendCounts, t.sent, input, id);
    assert id in t.buckets[hand] <==> multiset(t.buckets[hand])[id] > 0;
    assert reports + [] == reports;
  }

  /** The wheel watches every sentinel as if it were alone: it is in one bucket exactly while it
      is watched, and its reports are exactly those of the looks that are due. */
  lemma {:induction false} WheelWatches(inputs: seq<Input>, id: Id, b: nat, i: nat, m: nat)
    requires Comes(inputs, id, b, i) && m <= |inputs|
    ensures After(inputs, m).current == m % SLOTS
    ensures m <= i ==> Tracks(After(inputs, m), id, None, [])
    ensures m > i ==>
              Tracks(After(inputs, m), id, if Alive(inputs, id, b, i, m) then Some(b) else None,
                     Reports(inputs, id, b, i, m))
  {
    hide Watched, Reportable, Tracks, Alive, Reports, Comes, Tick;
    if m == 0 {
      StartsEmpty(id);
    } else {
      WheelWatches(inputs, id, b, i, m - 1);
      assert After(inputs, m) == Tick(After(inputs, m - 1), inputs[m - 1]);
      Around(m - 1, 1);
      if m <= i {
        TickBefore(inputs, id, b, i, m);
      } else {
        if m - 1 == i {
          AloneStep(inputs, id, b, i, m);
        }
        TickAfter(inputs, id, b, i, m, if m - 1 > i && Alive(inputs, id, b, i, m - 1) then Some(b) else None);
      }
    }
  }

  lemma StartsEmpty(id: Id)
    ensures Tracks(Init(), id, None, [])
  {
  }

  /** New arrivals before the hand moves. */
  lemma ArrivalOne(t: Tracker, input: Input, id: Id, place: Option<nat>)
    requires t.Valid() && Placed(t, id, place)
    requires multiset(input.added)[id] + multiset(input.incoming)[id] == 0
             || (multiset(input.added)[id] + multiset(input.incoming)[id] == 1 && place == None)
    ensures Placed(DrainChannel(Add(t, input.added), input.incoming), id,
                   if id in input.added then Some(0)
                   else if id in input.incoming then Some((t.current + 6) % SLOTS) else place)
  {
    hide Placed;
    assert id in input.added <==> multiset(input.added)[id] > 0;
    assert id in input.incoming <==> multiset(input.incoming)[id] > 0;
    PutOne(t, 0, input.added, id, place);
    PutOne(Add(t, input.added), (t.current + 6) % SLOTS, input.incoming, id,
           if id in input.added then Some(0) else place);
  }

  /** One more tick, seen from the sentinel. */
  lemma AloneStep(inputs: seq<Input>, id: Id, b: nat, i: nat, m: nat)
    requires i < m <= |inputs|
    ensures var status, now := inputs[m - 1].status(id), inputs[m - 1].now(id);
            var alive, reports := Alive(inputs, id, b, i, m - 1), Reports(inputs, id, b, i, m - 1);
            && Alive(inputs, id, b, i, m) == (alive && (Due(b, i, m - 1) ==> Watched(status)))
            && Reports(inputs, id, b, i, m)
               == (if alive && Due(b, i, m - 1) && Reportable(status, now) then
                     reports + [LongPollEvent(id, status, |reports|)] else reports)
            && (m - 1 == i ==> alive && reports == [])
  {
    hide Due, Watched, Reportable;
  }

  lemma TickBefore(inputs: seq<Input>, id: Id, b: nat, i: nat, m: nat)
    requires Comes(inputs, id, b, i) && 0 < m <= i && Tracks(After(inputs, m - 1), id, None, [])
    ensures Tracks(After(inputs, m), id, None, [])
  {
    hide Tracks, Tick, Watched, Reportable;
    var input := inputs[m - 1];
    assert id in input.added <==> multiset(input.added)[id] > 0;
    assert id in input.incoming <==> multiset(input.incoming)[id] > 0;
    TickFor(After(inputs, m - 1), input, id, None, []);
  }

  lemma TickAfter(inputs: seq<Input>, id: Id, b: nat, i: nat, m: nat, place: Option<nat>)
    requires Comes(inputs, id, b, i) && i < m <= |inputs| && After(inputs, m - 1).current == (m - 1) % SLOTS
    requires place == if m - 1 > i && Alive(inputs, id, b, i, m - 1) then Some(b) else None
    requires Tracks(After(inputs, m - 1), id, place, Reports(inputs, id, b, i, m - 1))
    ensures Tracks(After(inputs, m), id, if Alive(inputs, id, b, i, m) then Some(b) else None,
                   Reports(inputs, id, b, i, m))
  {
    hide Tracks, Tick, Watched, Reportable, Alive, Reports;
    var t, input := After(inputs, m - 1), inputs[m - 1];
    assert id in input.added <==> multiset(input.added)[id] > 0;
    assert id in input.incoming <==> multiset(input.incoming)[id] > 0;
    assert multiset(input.added)[id] + multiset(input.incoming)[id] == if m - 1 == i then 1 else 0;
    TickFor(t, input, id, place, Reports(inputs, id, b, i, m - 1));
    AloneStep(inputs, id, b, i, m);
    Hand(b, i, m);
    hide Due;
  }

  /** Counting on around the wheel. */
  lemma Around(k: nat, c: nat)
    requires c <= SLOTS
    ensures (k % SLOTS + c) % SLOTS == (k + c) % SLOTS
  {
    var r := k % SLOTS + c;
    if r < SLOTS {
      ModUnique(k + c, SLOTS, k / SLOTS, r);
    } else {
      ModUnique(k + c, SLOTS, k / SLOTS + 1, r - SLOTS);
    }
  }

  lemma Hand(b: nat, i: nat, m: nat)
    requires i < m
    ensures Due(b, i, m - 1) <==> b == ((m - 1) % SLOTS + 1) % SLOTS
    ensures (i % SLOTS + 6) % SLOTS == (i + 6) % SLOTS
  {
    Around(i, 6);
    Around(m - 1, 1);
  }

  /** One whole tick. */
  lemma TickFor(t: Tracker, input: Input, id: Id, place: Option<nat>, reports: seq<LongPollEvent>)
    requires t.Valid() && Tracks(t, id, place, reports)
    requires multiset(input.added)[id] + multiset(input.incoming)[id] == 0
             || (multiset(input.added)[id] + multiset(input.incoming)[id] == 1 && place == None)
    ensures var at := if id in input.added then Some(0)
                      else if id in input.incoming then Some((t.current + 6) % SLOTS) else place;
            var due := at == Some((t.current + 1) % SLOTS);
            Tracks(Tick(t, input), id,
                   if due && !Watched(input.status(id)) then None else at,
                   if due && Reportable(input.status(id), input.now(id)) then
                     reports + [LongPollEvent(id, input.status(id), |reports|)]
                   else reports)
  {
    hide Watched, Reportable, Advance, Project, Placed, CountOf;
    ArrivalOne(t, input, id, place);
    var at := if id in input.added then Some(0)
              else if id in input.incoming then Some((t.current + 6) % SLOTS) else place;
    AdvanceOne(DrainChannel(Add(t, input.added), input.incoming), input, id, at, reports);
  }

  // ----- when, and what -----

  /** A sentinel from the channel is looked at five ticks later and then every sixty ticks. */
  lemma DueFromChannel(i: nat, j: nat)
    ensures Due((i + 6) % SLOTS, i, j) <==> j >= i + 5 && (j - i - 5) % SLOTS == 0
  {
  }

  /** A sentinel added directly is looked at by every sixtieth tick. */
  lemma DueAdded(i: nat, j: nat)
    ensures Due(0, i, j) <==> j >= i && (j + 1) % SLOTS == 0
  {
  }

  /** Reports are numbered 0, 1, 2 and so on, all of this sentinel while it was watched. */
  ghost predicate Numbered(r: seq<LongPollEvent>, id: Id) {
    forall k :: 0 <= k < |r| ==> r[k].id == id && r[k].sendCount == k && Watched(r[k].status)
  }

  lemma {:induction false} ReportsNumbered(inputs: seq<Input>, id: Id, b: nat, i: nat, m: nat)
    requires i <= m <= |inputs|
    ensures Numbered(Reports(inputs, id, b, i, m), id)
  {
    if m > i {
      ReportsNumbered(inputs, id, b, i, m - 1);
    }
  }

  /** It is alive as long as every look that was due found it pending, with a trace. */
  lemma {:induction false} AliveIs(inputs: seq<Input>, id: Id, b: nat, i: nat, m: nat)
    requires i <= m <= |inputs|
    ensures Alive(inputs, id, b, i, m) <==>
            forall j :: i <= j < m && Due(b, i, j) ==>
              inputs[j].status(id).Pending? && inputs[j].status(id).traces != []
  {
    if m > i {
      AliveIs(inputs, id, b, i, m - 1);
    }
  }

  /** Six seconds have passed since the first trace. */
  predicate SixSecondsOld(status: SentinelStatus, now: nat) {
    status.Pending? && status.traces != [] && now >= status.traces[0].time + 6_000_000_000
  }

  /** At tick `j` the sentinel is looked at, and is six seconds old. */
  predicate ReportedAt(inputs: seq<Input>, id: Id, b: nat, i: nat, j: nat)
    requires i <= j < |inputs|
  {
    Alive(inputs, id, b, i, j) && Due(b, i, j) && SixSecondsOld(inputs[j].status(id), inputs[j].now(id))
  }

  lemma OldEnough(status: SentinelStatus, now: nat)
    ensures Reportable(status, now) <==> SixSecondsOld(status, now)
  {
  }

  /** There is one report for each look that finds the sentinel six seconds old, in the order of
      the looks, with what it held then. */
  lemma {:induction false} ReportsAre(inputs: seq<Input>, id: Id, b: nat, i: nat, m: nat) returns (ticks: seq<nat>)
    requires i <= m <= |inputs|
    ensures |ticks| == |Reports(inputs, id, b, i, m)| && forall k, l :: 0 <= k < l < |ticks| ==> ticks[k] < ticks[l]
    ensures forall k :: 0 <= k < |ticks| ==>
              && i <= ticks[k] < m && ReportedAt(inputs, id, b, i, ticks[k])
              && Reports(inputs, id, b, i, m)[k] == LongPollEvent(id, inputs[ticks[k]].status(id), k)
    ensures forall j :: i <= j < m && ReportedAt(inputs, id, b, i, j) ==> j in ticks
  {
    hide Due, Alive, SixSecondsOld, Reportable;
    if m == i {
      ticks := [];
    } else {
      ticks := ReportsAre(inputs, id, b, i, m - 1);
      OldEnough(inputs[m - 1].status(id), inputs[m - 1].now(id));
      if ReportedAt(inputs, id, b, i, m - 1) {
        ticks := ticks + [m - 1];
        assert ticks[|ticks| - 1] == m - 1;
      }
    }
  }

  /** Once it is seen completed or cancelled, there are no more. */
  lemma {:induction false} NoMoreReports(inputs: seq<Input>, id: Id, b: nat, i: nat, m: nat, n: nat)
    requires i <= m <= n <= |inputs| && !Alive(inputs, id, b, i, m)
    ensures !Alive(inputs, id, b, i, n) && Reports(inputs, id, b, i, n) == Reports(inputs, id, b, i, m)
    decreases n - m
  {
    if n > m {
      NoMoreReports(inputs, id, b, i, m, n - 1);
    }
  }

  // ----- the tracker object -----

  lemma PutNone(t: Tracker, slot: nat)
    requires t.Valid() && slot < SLOTS
    ensures Put(t, slot, []) == t
  {
    assert t.buckets[slot] + [] == t.buckets[slot];
    assert t.buckets[slot := t.buckets[slot]] == t.buckets;
  }

  lemma PutMore(t: Tracker, slot: nat, ids: seq<Id>, i: nat)
    requires t.Valid() && slot < SLOTS && i < |ids|
    ensures Put(t, slot, ids[..i + 1]) == Put(Put(t, slot, ids[..i]), slot, [ids[i]])
  {
    assert ids[..i + 1] == ids[..i] + [ids[i]];
    assert t.buckets[slot] + (ids[..i] + [ids[i]]) == (t.buckets[slot] + ids[..i]) + [ids[i]];
  }

  class LongPollTracker {
    var buckets: seq<seq<Id>>
    var currentBucket: nat
    var sendCounts: map<Id, nat>
    /** What went out on `tx`. */
    var sent: seq<LongPollEvent>

    function State(): Tracker
      reads this
    {
      Tracker(buckets, currentBucket, sendCounts, sent)
    }

    constructor ()
      ensures State() == Init()
    {
      buckets := seq(SLOTS, _ => []);
      currentBucket, sendCounts, sent := 0, map[], [];
    }

    method AddSentinel(id: Id)
      requires State().Valid()
      modifies this`buckets
      ensures State() == Add(old(State()), [id])
    {
      buckets := buckets[0 := buckets[0] + [id]];
    }

    /** The first loop of `tick`: what is in the channel. */
    method DrainIncoming(incoming: seq<Id>)
      requires State().Valid()
      modifies this`buckets
      ensures State() == DrainChannel(old(State()), incoming)
    {
      PutNone(State(), (currentBucket + 6) % SLOTS);
      for i := 0 to |incoming|
        invariant State().Valid() && State() == DrainChannel(old(State()), incoming[..i])
      {
        PutMore(old(State()), (currentBucket + 6) % SLOTS, incoming, i);
        var target := (currentBucket + 6) % SLOTS;
        buckets := buckets[target := buckets[target] + [incoming[i]]];
      }
      assert incoming[..|incoming|] == incoming;
    }

    /** `tick`. A closed channel is noticed once it is empty; then the hand does not move. */
    method Tick(incoming: seq<Id>, disconnected: bool, input: Input) returns (goOn: bool)
      requires State().Valid()
      modifies this
      ensures goOn == !disconnected
      ensures State() == if disconnected then DrainChannel(old(State()), incoming)
                         else Advance(DrainChannel(old(State()), incoming), input)
    {
      hide Put;
      DrainIncoming(incoming);
      if disconnected {
        return false;
      }
      currentBucket := (currentBucket + 1) % SLOTS;
      var bucket := buckets[currentBucket];
      var active: seq<Id> := [];
      ghost var counts, reports := sendCounts, sent;
      for i := 0 to |bucket|
        modifies this`sendCounts, this`sent
        invariant Examined(active, sendCounts, sent) == Examine(bucket[..i], counts, reports, input)
      {
        assert bucket[..i + 1][..i] == bucket[..i];
        var id := bucket[i];
        match input.status(id) {
          case Pending(traces) =>
            if traces != [] {
              var age := if input.now(id) < traces[0].time then 0 else input.now(id) - traces[0].time;
              if age / NANOS_PER_SEC >= 6 {
                var count := if id in sendCounts then sendCounts[id] else 0;
                sent := sent + [LongPollEvent(id, Pending(traces), count)];
                sendCounts := sendCounts[id := count + 1];
                active := active + [id];
              } else {
                active := active + [id];
              }
            }
          case Completed =>
          case Cancelled =>
        }
      }
      assert bucket[..|bucket|] == bucket;
      buckets := buckets[currentBucket := active];
      goOn := true;
    }
  }
}
