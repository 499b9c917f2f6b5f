/** Attributing samples to polls (dial9-tokio-telemetry/src/telemetry/analysis.rs): two bisections
    over polls sorted by worker and start, against looking at every poll. */
module SampledPolls {
  import opened Wire
  import opened Wrappers
  import opened Sorting
  import opened Telemetry

  datatype Poll = Poll(worker: u64, start: u64, end: u64, task: u64, spawnLoc: u32)

  datatype PollSpan = PollSpan(poll: Poll, cpuSamples: nat, schedSamples: nat)

  // ----- the polls of a trace -----

  /** The polls that end in the events, in the order of their ends, given the polls under way. */
  function PollsFrom(started: map<u64, Poll>, events: seq<TelemetryEvent>): seq<Poll>
    decreases |events|
  {
    if events == [] then []
    else
      var e := events[0];
      if e.PollStarted? then
        PollsFrom(started[e.worker := Poll(e.worker, e.timestamp, 0, e.task, e.spawnLoc)], events[1..])
      else if e.PollEnded? && e.worker in started then
        [started[e.worker].(end := e.timestamp)] + PollsFrom(started - {e.worker}, events[1..])
      else PollsFrom(started, events[1..])
  }

  function PollsOf(events: seq<TelemetryEvent>): seq<Poll> {
    PollsFrom(map[], events)
  }

  // ----- which polls a trace has -----

  predicate IsPollEvent(e: TelemetryEvent, worker: u64) {
    (e.PollStarted? || e.PollEnded?) && e.worker == worker
  }

  /** Nothing of the worker's between the two events. */
  predicate QuietBetween(events: seq<TelemetryEvent>, i: nat, j: nat, worker: u64) {
    forall k :: i < k < j && k < |events| ==> !IsPollEvent(events[k], worker)
  }

  /** A poll: started at event `i`, ended at event `j`. */
  predicate IsPoll(events: seq<TelemetryEvent>, i: nat, j: nat) {
    && i < j < |events| && events[i].PollStarted? && events[j].PollEnded?
    && events[i].worker == events[j].worker && QuietBetween(events, i, j, events[i].worker)
  }

  function PollAt(events: seq<TelemetryEvent>, i: nat, j: nat): Poll
    requires IsPoll(events, i, j)
  {
    Poll(events[i].worker, events[i].timestamp, events[j].timestamp, events[i].task, events[i].spawnLoc)
  }

  /** The polls that end at event `n` or later, one for each pair, in the order of their ends. */
  ghost predicate ListsPolls(events: seq<TelemetryEvent>, polls: seq<Poll>, starts: seq<nat>, ends: seq<nat>, n: nat) {
    && |starts| == |ends| == |polls|
    && (forall k :: 0 <= k < |polls| ==>
          n <= ends[k] && IsPoll(events, starts[k], ends[k]) && polls[k] == PollAt(events, starts[k], ends[k]))
    && (forall a, b :: 0 <= a < b < |ends| ==> ends[a] < ends[b])
    && forall i: nat, j: nat :: n <= j && IsPoll(events, i, j) ==> Paired(starts, ends, i, j)
  }

  ghost predicate Paired(starts: seq<nat>, ends: seq<nat>, i: nat, j: nat) {
    exists k :: 0 <= k < |starts| && k < |ends| && starts[k] == i && ends[k] == j
  }

  lemma PairedMore(starts: seq<nat>, ends: seq<nat>, i: nat, j: nat, i1: nat, j1: nat)
    ensures Paired([i1] + starts, [j1] + ends, i1, j1)
    ensures Paired(starts, ends, i, j) ==> Paired([i1] + starts, [j1] + ends, i, j)
  {
    var starts1, ends1 := [i1] + starts, [j1] + ends;
    assert starts1[0] == i1 && ends1[0] == j1;
    if k :| 0 <= k < |starts| && k < |ends| && starts[k] == i && ends[k] == j {
      assert starts1[k + 1] == i && ends1[k + 1] == j;
    }
  }

  /** Before event `n` the worker has started a poll, at event `i`, and not ended it. */
  predicate Open(events: seq<TelemetryEvent>, n: nat, i: nat, worker: u64) {
    i < n <= |events| && events[i].PollStarted? && events[i].worker == worker && QuietBetween(events, i, n, worker)
  }

  ghost predicate Underway(started: map<u64, Poll>, events: seq<TelemetryEvent>, n: nat) {
    && (forall w :: w in started ==>
          exists i: nat :: Open(events, n, i, w)
                           && started[w] == Poll(w, events[i].timestamp, 0, events[i].task, events[i].spawnLoc))
    && forall i: nat, w :: Open(events, n, i, w) ==> w in started
  }

  lemma OpenOnce(events: seq<TelemetryEvent>, n: nat, i: nat, j: nat, w: u64)
    requires Open(events, n, i, w) && Open(events, n, j, w)
    ensures i == j
  {
    if i != j {
      assert IsPollEvent(events[i], w) && IsPollEvent(events[j], w);
    }
  }

  /** One event more. */
  lemma UnderwayStep(started: map<u64, Poll>, events: seq<TelemetryEvent>, n: nat)
    requires n < |events| && Underway(started, events, n)
    ensures var e := events[n];
            Underway(if e.PollStarted? then
                       started[e.worker := Poll(e.worker, e.timestamp, 0, e.task, e.spawnLoc)]
                     else if e.PollEnded? then started - {e.worker} else started, events, n + 1)
  {
    var e := events[n];
    var after := if e.PollStarted? then started[e.worker := Poll(e.worker, e.timestamp, 0, e.task, e.spawnLoc)]
                 else if e.PollEnded? then started - {e.worker} else started;
    forall i: nat, w: u64
      ensures Open(events, n + 1, i, w) <==>
              if IsPollEvent(e, w) then i == n && e.PollStarted? else Open(events, n, i, w)
    {
      assert IsPollEvent(e, w) && i < n ==> !QuietBetween(events, i, n + 1, w);
      if !IsPollEvent(e, w) && Open(events, n, i, w) {
        assert QuietBetween(events, i, n + 1, w);
      }
    }
    forall w | w in after
      ensures exists i: nat :: Open(events, n + 1, i, w)
                               && after[w] == Poll(w, events[i].timestamp, 0, events[i].task, events[i].spawnLoc)
    {
      if IsPollEvent(e, w) {
        assert Open(events, n + 1, n, w);
      } else {
        var i: nat :| Open(events, n, i, w)
                 && started[w] == Poll(w, events[i].timestamp, 0, events[i].task, events[i].spawnLoc);
        assert Open(events, n + 1, i, w);
      }
    }
    var m := n + 1;
    forall i: nat, w: u64 | Open(events, m, i, w)
      ensures w in after
    {
      assert IsPollEvent(e, w) || Open(events, n, i, w);
    }
  }

  /** A poll that ends at event `n` is the one that was under way. */
  lemma EndsAt(started: map<u64, Poll>, events: seq<TelemetryEvent>, n: nat) returns (i: nat)
    requires n < |events| && Underway(started, events, n) && events[n].PollEnded? && events[n].worker in started
    ensures IsPoll(events, i, n) && PollAt(events, i, n) == started[events[n].worker].(end := events[n].timestamp)
    ensures forall k: nat :: IsPoll(events, k, n) ==> k == i
  {
    var w := events[n].worker;
    i :| Open(events, n, i, w) && started[w] == Poll(w, events[i].timestamp, 0, events[i].task, events[i].spawnLoc);
    forall k: nat | IsPoll(events, k, n)
      ensures k == i
    {
      assert Open(events, n, k, w);
      OpenOnce(events, n, i, k, w);
    }
  }

  lemma {:induction false} PollsListed(started: map<u64, Poll>, events: seq<TelemetryEvent>, n: nat)
    returns (starts: seq<nat>, ends: seq<nat>)
    requires n <= |events| && Underway(started, events, n)
    ensures ListsPolls(events, PollsFrom(started, events[n..]), starts, ends, n)
    decreases |events| - n
  {
    hide Underway, IsPoll;
    if n == |events| {
      starts, ends := [], [];
      NoPollYet(events, n);
    } else {
      UnderwayStep(started, events, n);
      var e := events[n];
      assert events[n..][0] == e && events[n..][1..] == events[n + 1..];
      if e.PollStarted? {
        starts, ends :=
          PollsListed(started[e.worker := Poll(e.worker, e.timestamp, 0, e.task, e.spawnLoc)], events, n + 1);
        OnlyAtEnds(started, events, n);
      } else if e.PollEnded? && e.worker in started {
        var i := EndsAt(started, events, n);
        starts, ends := PollsListed(started - {e.worker}, events, n + 1);
        ListOneMore(events, PollsFrom(started - {e.worker}, events[n + 1..]), starts, ends, n, i);
        starts, ends := [i] + starts, [n] + ends;
      } else {
        if e.PollEnded? {
          assert started - {e.worker} == started;
        }
        starts, ends := PollsListed(started, events, n + 1);
        OnlyAtEnds(started, events, n);
      }
    }
  }

  lemma NoPollYet(events: seq<TelemetryEvent>, n: nat)
    requires n == |events|
    ensures forall i: nat, j: nat :: IsPoll(events, i, j) ==> j < n
  {
  }

  lemma OnlyAtEnds(started: map<u64, Poll>, events: seq<TelemetryEvent>, n: nat)
    requires n < |events| && Underway(started, events, n)
    requires !(events[n].PollEnded? && events[n].worker in started)
    ensures forall i: nat :: !IsPoll(events, i, n)
  {
    forall i: nat | IsPoll(events, i, n)
      ensures false
    {
      assert Open(events, n, i, events[n].worker);
    }
  }

  lemma ListOneMore(events: seq<TelemetryEvent>, polls: seq<Poll>, starts: seq<nat>, ends: seq<nat>, n: nat, i: nat)
    requires ListsPolls(events, polls, starts, ends, n + 1) && IsPoll(events, i, n)
    requires forall k: nat :: IsPoll(events, k, n) ==> k == i
    ensures ListsPolls(events, [PollAt(events, i, n)] + polls, [i] + starts, [n] + ends, n)
  {
    hide IsPoll, PollAt, Paired;
    var polls1, starts1, ends1 := [PollAt(events, i, n)] + polls, [i] + starts, [n] + ends;
    forall k | 0 <= k < |polls1|
      ensures n <= ends1[k] && IsPoll(events, starts1[k], ends1[k]) && polls1[k] == PollAt(events, starts1[k], ends1[k])
    {
      if k > 0 {
        assert polls1[k] == polls[k - 1] && starts1[k] == starts[k - 1] && ends1[k] == ends[k - 1];
      }
    }
    forall a, b | 0 <= a < b < |ends1|
      ensures ends1[a] < ends1[b]
    {
      assert ends1[b] == ends[b - 1] && (a > 0 ==> ends1[a] == ends[a - 1]);
    }
    forall i1: nat, j: nat | n <= j && IsPoll(events, i1, j)
      ensures Paired(starts1, ends1, i1, j)
    {
      PairedMore(starts, ends, i1, j, i, n);
    }
  }

  /** A trace has one poll for each start and the end that follows it on the same worker with
      nothing of that worker's in between, in the order of the ends, and no others. */
  lemma PollsExactly(events: seq<TelemetryEvent>) returns (starts: seq<nat>, ends: seq<nat>)
    ensures ListsPolls(events, PollsOf(events), starts, ends, 0)
  {
    assert events[0..] == events;
    starts, ends := PollsListed(map[], events, 0);
  }

  // ----- the naive way -----

  predicate Inside(p: Poll, e: TelemetryEvent) {
    e.CpuSampled? && e.worker == p.worker && p.start <= e.timestamp <= p.end
  }

  /** How many samples of a kind lie in the poll. */
  function SamplesIn(p: Poll, source: SampleSource, events: seq<TelemetryEvent>): nat {
    if events == [] then 0
    else SamplesIn(p, source, events[..|events| - 1])
         + if Inside(p, events[|events| - 1]) && events[|events| - 1].source == source then 1 else 0
  }

  // ----- the way by order -----

  predicate Before(p: Poll, q: Poll) {
    p.worker < q.worker || (p.worker == q.worker && p.start <= q.start)
  }

  ghost predicate InOrder(polls: seq<Poll>) {
    forall i, j :: 0 <= i < j < |polls| ==> Before(polls[i], polls[j])
  }

  /** The last of the first `n` polls that the worker had started by then. */
  function LastStarted(polls: seq<Poll>, worker: u64, ts: u64, n: nat): (r: Option<nat>)
    requires n <= |polls|
    ensures r.Some? ==> r.value < n && polls[r.value].worker == worker && polls[r.value].start <= ts
    ensures forall i :: (if r.Some? then r.value + 1 else 0) <= i < n ==>
              !(polls[i].worker == worker && polls[i].start <= ts)
  {
    if n == 0 then None
    else if polls[n - 1].worker == worker && polls[n - 1].start <= ts then Some(n - 1)
    else LastStarted(polls, worker, ts, n - 1)
  }

  /** The poll a sample is counted for. */
  function Owner(polls: seq<Poll>, e: TelemetryEvent): (r: Option<nat>)
    ensures r.Some? ==> r.value < |polls| && Inside(polls[r.value], e)
  {
    if !e.CpuSampled? then None
    else
      var last := LastStarted(polls, e.worker, e.timestamp, |polls|);
      if last.Some? && e.timestamp <= polls[last.value].end then last else None
  }

  /** Whatever the polls: the last that the worker had started by then, if the sample lies in it. */
  lemma OwnerIs(polls: seq<Poll>, e: TelemetryEvent, i: nat)
    requires i < |polls|
    ensures Owner(polls, e) == Some(i) <==>
            && Inside(polls[i], e)
            && forall j :: i < j < |polls| && polls[j].worker == e.worker ==> polls[j].start > e.timestamp
  {
    if e.CpuSampled? && Inside(polls[i], e) {
      assert polls[i].worker == e.worker && polls[i].start <= e.timestamp;
    }
  }

  function Counted(polls: seq<Poll>, i: nat, source: SampleSource, events: seq<TelemetryEvent>): nat {
    if events == [] then 0
    else Counted(polls, i, source, events[..|events| - 1])
         + if Owner(polls, events[|events| - 1]) == Some(i) && events[|events| - 1].source == source then 1 else 0
  }

  /** Polls do not end before they start, and no two of a worker share a moment, their ends
      included. */
  ghost predicate Disjoint(polls: seq<Poll>) {
    && (forall i :: 0 <= i < |polls| ==> polls[i].start <= polls[i].end)
    && forall i, j :: 0 <= i < j < |polls| && polls[i].worker == polls[j].worker ==>
      polls[i].end < polls[j].start || polls[j].end < polls[i].start
  }

  /** In order, and each poll over before the worker's next one starts. */
  ghost predicate Successive(polls: seq<Poll>) {
    forall i, j :: 0 <= i < j < |polls| && polls[i].worker == polls[j].worker ==> polls[i].end < polls[j].start
  }

  lemma DisjointSuccessive(polls: seq<Poll>)
    requires InOrder(polls) && Disjoint(polls)
    ensures Successive(polls)
  {
    forall i, j | 0 <= i < j < |polls| && polls[i].worker == polls[j].worker
      ensures polls[i].end < polls[j].start
    {
      assert Before(polls[i], polls[j]);
    }
  }

  ghost predicate OwnersAreInside(polls: seq<Poll>) {
    forall e, i: nat :: i < |polls| ==> (Owner(polls, e) == Some(i) <==> Inside(polls[i], e))
  }

  /** Exactly for polls that follow one another is every sample counted for the polls it lies in. */
  lemma OwnersExactly(polls: seq<Poll>)
    requires InOrder(polls)
    ensures OwnersAreInside(polls) <==> Successive(polls)
  {
    hide Owner, Inside;
    if Successive(polls) {
      forall e, i: nat | i < |polls|
        ensures Owner(polls, e) == Some(i) <==> Inside(polls[i], e)
      {
        OwnerIsInside(polls, e, i);
      }
    } else {
      var i, j :| 0 <= i < j < |polls| && polls[i].worker == polls[j].worker && polls[j].start <= polls[i].end;
      SharedMoment(polls, i, j);
    }
  }

  /** A sample at the moment the later poll starts lies in the earlier one and is not counted for it. */
  lemma SharedMoment(polls: seq<Poll>, i: nat, j: nat)
    requires InOrder(polls) && i < j < |polls| && polls[i].worker == polls[j].worker && polls[j].start <= polls[i].end
    ensures var e := CpuSampled(polls[j].start, polls[j].worker, 0, CpuProfile, 0, []);
            Inside(polls[i], e) && Owner(polls, e) != Some(i)
  {
    assert Before(polls[i], polls[j]);
  }

  lemma OwnerIsInside(polls: seq<Poll>, e: TelemetryEvent, i: nat)
    requires InOrder(polls) && Successive(polls) && i < |polls|
    ensures Owner(polls, e) == Some(i) <==> Inside(polls[i], e)
  {
    if Inside(polls[i], e) {
      assert LastStarted(polls, e.worker, e.timestamp, |polls|).Some?;
    }
  }

  /** So the counts are the samples inside. */
  lemma {:induction false} CountedIsInside(polls: seq<Poll>, i: nat, source: SampleSource, events: seq<TelemetryEvent>)
    requires InOrder(polls) && Successive(polls) && i < |polls|
    ensures Counted(polls, i, source, events) == SamplesIn(polls[i], source, events)
  {
    hide Owner, Inside;
    if events != [] {
      CountedIsInside(polls, i, source, events[..|events| - 1]);
      OwnerIsInside(polls, events[|events| - 1], i);
    }
  }

  // ----- nothing is counted twice -----

  function TotalCounted(polls: seq<Poll>, n: nat, events: seq<TelemetryEvent>): nat {
    if n == 0 then 0
    else TotalCounted(polls, n - 1, events)
         + Counted(polls, n - 1, CpuProfile, events) + Counted(polls, n - 1, SchedEvent, events)
  }

  function Owned(polls: seq<Poll>, events: seq<TelemetryEvent>): nat {
    if events == [] then 0
    else Owned(polls, events[..|events| - 1]) + if Owner(polls, events[|events| - 1]).Some? then 1 else 0
  }

  /** Samples that lie in some poll. */
  function InSomePoll(polls: seq<Poll>, events: seq<TelemetryEvent>): nat {
    if events == [] then 0
    else InSomePoll(polls, events[..|events| - 1])
         + if exists i | 0 <= i < |polls| :: Inside(polls[i], events[|events| - 1]) then 1 else 0
  }

  lemma {:induction false} TotalStep(polls: seq<Poll>, n: nat, events: seq<TelemetryEvent>)
    requires events != [] && n <= |polls|
    ensures var e := events[|events| - 1];
            TotalCounted(polls, n, events)
            == TotalCounted(polls, n, events[..|events| - 1])
               + if Owner(polls, e).Some? && Owner(polls, e).value < n then 1 else 0
  {
    hide Owner;
    if n > 0 {
      TotalStep(polls, n - 1, events);
    }
  }

  lemma {:induction false} TotalNone(polls: seq<Poll>, n: nat)
    ensures TotalCounted(polls, n, []) == 0
  {
    if n > 0 {
      TotalNone(polls, n - 1);
    }
  }

  /** The counts of all polls together are the samples that have an owner, each once. */
  lemma {:induction false} NoDoubleCount(polls: seq<Poll>, events: seq<TelemetryEvent>)
    ensures TotalCounted(polls, |polls|, events) == Owned(polls, events)
  {
    if events == [] {
      TotalNone(polls, |polls|);
    } else {
      TotalStep(polls, |polls|, events);
      NoDoubleCount(polls, events[..|events| - 1]);
    }
  }

  /** With successive polls that is every sample lying in some poll. */
  lemma TotalIsInSomePoll(polls: seq<Poll>, events: seq<TelemetryEvent>)
    requires InOrder(polls) && Successive(polls)
    ensures TotalCounted(polls, |polls|, events) == InSomePoll(polls, events)
  {
    NoDoubleCount(polls, events);
    OwnedIsInSome(polls, events);
  }

  lemma {:induction false} OwnedIsInSome(polls: seq<Poll>, events: seq<TelemetryEvent>)
    requires InOrder(polls) && Successive(polls)
    ensures Owned(polls, events) == InSomePoll(polls, events)
  {
    hide Owner, Inside;
    if events != [] {
      var e := events[|events| - 1];
      OwnedIsInSome(polls, events[..|events| - 1]);
      forall i: nat | i < |polls|
        ensures Owner(polls, e) == Some(i) <==> Inside(polls[i], e)
      {
        OwnerIsInside(polls, e, i);
      }
      if Owner(polls, e).Some? {
        assert Inside(polls[Owner(polls, e).value], e);
      }
    }
  }

  // ----- the detector -----

  function Polls(spans: seq<PollSpan>): seq<Poll> {
    seq(|spans|, i requires 0 <= i < |spans| => spans[i].poll)
  }

  function Fresh(polls: seq<Poll>): seq<PollSpan> {
    seq(|polls|, i requires 0 <= i < |polls| => PollSpan(polls[i], 0, 0))
  }

  function WithCounts(polls: seq<Poll>, events: seq<TelemetryEvent>): seq<PollSpan> {
    seq(|polls|, i requires 0 <= i < |polls| =>
      PollSpan(polls[i], Counted(polls, i, CpuProfile, events), Counted(polls, i, SchedEvent, events)))
  }

  function Sampled(spans: seq<PollSpan>): seq<PollSpan> {
    if spans == [] then []
    else Sampled(spans[..|spans| - 1])
         + if spans[|spans| - 1].cpuSamples > 0 || spans[|spans| - 1].schedSamples > 0 then [spans[|spans| - 1]] else []
  }

  /** First pass. */
  method BuildPolls(events: seq<TelemetryEvent>) returns (polls: seq<Poll>)
    ensures polls == PollsOf(events)
  {
    polls := [];
    var started: map<u64, Poll> := map[];
    assert events[0..] == events;
    for i := 0 to |events|
      invariant polls + PollsFrom(started, events[i..]) == PollsOf(events)
    {
      assert events[i..][1..] == events[i + 1..];
      match events[i] {
        case PollStarted(ts, worker, _, task, spawnLoc) =>
          started := started[worker := Poll(worker, ts, 0, task, spawnLoc)];
        case PollEnded(ts, worker) =>
          if worker in started {
            var poll := started[worker].(end := ts);
            assert polls + ([poll] + PollsFrom(started - {worker}, events[i + 1..]))
                   == polls + [poll] + PollsFrom(started - {worker}, events[i + 1..]);
            started := started - {worker};
            polls := polls + [poll];
          }
        case _ =>
      }
    }
    assert polls + [] == polls;
  }

  function InsertPoll(polls: seq<Poll>, p: Poll): (r: seq<Poll>)
    ensures multiset(r) == multiset(polls) + multiset{p}
  {
    if polls == [] then [p]
    else
      assert polls == [polls[0]] + polls[1..];
      if Before(p, polls[0]) then [p] + polls else [polls[0]] + InsertPoll(polls[1..], p)
  }

  lemma {:induction false} InsertInOrder(polls: seq<Poll>, p: Poll)
    requires InOrder(polls)
    ensures InOrder(InsertPoll(polls, p))
  {
    if polls != [] && !Before(p, polls[0]) {
      InsertInOrder(polls[1..], p);
      var r := InsertPoll(polls[1..], p);
      forall i | 0 <= i < |r|
        ensures Before(polls[0], r[i])
      {
        assert r[i] in multiset(r);
        assert r[i] in multiset(polls[1..]) || r[i] == p;
      }
    }
  }

  /** `sort_unstable_by_key`: some order by worker and start. */
  method SortPolls(polls: seq<Poll>) returns (sorted: seq<Poll>)
    ensures InOrder(sorted) && multiset(sorted) == multiset(polls)
  {
    sorted := [];
    for i := 0 to |polls|
      invariant InOrder(sorted) && multiset(sorted) == multiset(polls[..i])
    {
      assert polls[..i + 1] == polls[..i] + [polls[i]];
      InsertInOrder(sorted, polls[i]);
      sorted := InsertPoll(sorted, polls[i]);
    }
    assert polls[..|polls|] == polls;
  }

  /** The two bisections for the worker's polls, and the one for the start within them. */
  method FindOwner(spans: seq<PollSpan>, e: TelemetryEvent) returns (owner: Option<nat>)
    requires e.CpuSampled? && InOrder(Polls(spans))
    ensures owner == Owner(Polls(spans), e)
  {
    var worker, ts := e.worker, e.timestamp;
    SpansInOrder(spans);
    var startIdx := PartitionPoint(spans, (p: PollSpan) => p.poll.worker < worker);
    var endIdx := PartitionPoint(spans, (p: PollSpan) => p.poll.worker <= worker);
    assert endIdx == |spans| || !(spans[endIdx].poll.worker < worker);
    var mine := spans[startIdx..endIdx];
    forall i | 0 <= i < |spans|
      ensures startIdx <= i < endIdx <==> spans[i].poll.worker == worker
      ensures startIdx <= i < endIdx ==> mine[i - startIdx] == spans[i]
    {
    }
    var idx := PartitionPoint(mine, (p: PollSpan) => p.poll.start <= ts);
    LastIs(spans, worker, ts, startIdx, endIdx, idx);
    if idx > 0 && ts <= mine[idx - 1].poll.end {
      owner := Some(startIdx + idx - 1);
    } else {
      owner := None;
    }
  }

  lemma SpansInOrder(spans: seq<PollSpan>)
    requires InOrder(Polls(spans))
    ensures forall i, j :: 0 <= i < j < |spans| ==> Before(spans[i].poll, spans[j].poll)
  {
    forall i, j | 0 <= i < j < |spans|
      ensures Before(spans[i].poll, spans[j].poll)
    {
      assert Before(Polls(spans)[i], Polls(spans)[j]);
    }
  }

  /** What the three bisections find is the last poll that the worker had started. */
  lemma LastIs(spans: seq<PollSpan>, worker: u64, ts: u64, startIdx: nat, endIdx: nat, idx: nat)
    requires startIdx <= endIdx <= |spans| && startIdx + idx <= endIdx
    requires forall i :: 0 <= i < |spans| ==> (startIdx <= i < endIdx <==> spans[i].poll.worker == worker)
    requires forall i :: startIdx <= i < endIdx ==> (i < startIdx + idx <==> spans[i].poll.start <= ts)
    ensures LastStarted(Polls(spans), worker, ts, |spans|) == if idx > 0 then Some(startIdx + idx - 1) else None
  {
    var polls := Polls(spans);
    forall i | 0 <= i < |polls|
      ensures polls[i].worker == worker && polls[i].start <= ts <==> startIdx <= i < startIdx + idx
    {
      assert polls[i] == spans[i].poll;
    }
    var last := LastStarted(polls, worker, ts, |polls|);
    if idx > 0 {
      assert polls[startIdx + idx - 1].worker == worker && polls[startIdx + idx - 1].start <= ts;
    }
  }

  /** One more event: its owner's count goes up by one. */
  lemma CountsStep(polls: seq<Poll>, events: seq<TelemetryEvent>, n: nat)
    requires n < |events|
    ensures var e := events[n];
            forall i: nat, source :: i < |polls| ==>
              Counted(polls, i, source, events[..n + 1])
              == Counted(polls, i, source, events[..n])
                 + if Owner(polls, e) == Some(i) && e.source == source then 1 else 0
  {
    assert events[..n + 1][..n] == events[..n];
  }

  lemma NoCounts(polls: seq<Poll>, events: seq<TelemetryEvent>)
    ensures forall i: nat, source :: i < |polls| ==> Counted(polls, i, source, events[..0]) == 0
  {
  }

  /** The sampled polls with their counts, by worker and start. */
  method DetectSampledPolls(events: seq<TelemetryEvent>) returns (sampled: seq<PollSpan>)
    ensures exists polls :: InOrder(polls) && multiset(polls) == multiset(PollsOf(events))
                            && sampled == Sampled(WithCounts(polls, events))
    ensures Disjoint(PollsOf(events)) ==> Reports(sampled, events)
  {
    hide Owner, Counted, PollsOf, Before, Reports, Disjoint;
    var built := BuildPolls(events);
    var sorted := SortPolls(built);
    ghost var polls := sorted;
    var spans := seq(|sorted|, i requires 0 <= i < |sorted| => PollSpan(sorted[i], 0, 0));
    NoCounts(polls, events);
    for i := 0 to |events|
      invariant Polls(spans) == polls && spans == WithCounts(polls, events[..i])
    {
      var e := events[i];
      CountsStep(polls, events, i);
      if e.CpuSampled? {
        var owner := FindOwner(spans, e);
        if owner.Some? {
          var k := owner.value;
          match e.source {
            case CpuProfile => spans := spans[k := spans[k].(cpuSamples := spans[k].cpuSamples + 1)];
            case SchedEvent => spans := spans[k := spans[k].(schedSamples := spans[k].schedSamples + 1)];
          }
        }
      }
    }
    assert events[..|events|] == events;
    sampled := [];
    for i := 0 to |spans|
      invariant sampled == Sampled(spans[..i])
    {
      assert spans[..i + 1][..i] == spans[..i];
      if spans[i].cpuSamples > 0 || spans[i].schedSamples > 0 {
        sampled := sampled + [spans[i]];
      }
    }
    assert spans[..|spans|] == spans;
    if Disjoint(PollsOf(events)) {
      ReportsExactly(events, polls);
    }
  }

  // ----- traces whose polls are disjoint -----

  /** The poll events of each worker come in order, and nothing at the moment a poll has ended. */
  ghost predicate Timely(events: seq<TelemetryEvent>) {
    forall i, j, w :: 0 <= i < j < |events| && IsPollEvent(events[i], w) && IsPollEvent(events[j], w) ==>
      InTurn(events[i], events[j])
  }

  predicate InTurn(e: TelemetryEvent, f: TelemetryEvent) {
    e.timestamp <= f.timestamp && (e.PollEnded? ==> e.timestamp < f.timestamp)
  }

  /** Everything the worker still does, or is doing, is later than `b`. */
  ghost predicate Later(started: map<u64, Poll>, events: seq<TelemetryEvent>, w: u64, b: u64) {
    && (w in started ==> b < started[w].start)
    && forall i :: 0 <= i < |events| && IsPollEvent(events[i], w) ==> b < events[i].timestamp
  }

  ghost predicate StartedOk(started: map<u64, Poll>, events: seq<TelemetryEvent>) {
    forall w :: w in started ==>
      && started[w].worker == w
      && forall i :: 0 <= i < |events| && IsPollEvent(events[i], w) ==> started[w].start <= events[i].timestamp
  }

  lemma {:induction false} StartsLater(started: map<u64, Poll>, events: seq<TelemetryEvent>, w: u64, b: u64)
    requires Timely(events) && StartedOk(started, events) && Later(started, events, w, b)
    ensures forall p :: p in PollsFrom(started, events) && p.worker == w ==> b < p.start
    decreases |events|
  {
    if events != [] {
      StartStep(started, events);
      var e := events[0];
      if e.PollStarted? {
        StartsLater(started[e.worker := Poll(e.worker, e.timestamp, 0, e.task, e.spawnLoc)], events[1..], w, b);
      } else if e.PollEnded? && e.worker in started {
        StartsLater(started - {e.worker}, events[1..], w, b);
      } else {
        StartsLater(started, events[1..], w, b);
      }
    }
  }

  lemma StartStep(started: map<u64, Poll>, events: seq<TelemetryEvent>)
    requires Timely(events) && StartedOk(started, events) && events != []
    ensures Timely(events[1..])
    ensures var e := events[0];
            && (e.PollStarted? ==>
                  StartedOk(started[e.worker := Poll(e.worker, e.timestamp, 0, e.task, e.spawnLoc)], events[1..]))
            && (e.PollEnded? ==> StartedOk(started - {e.worker}, events[1..]))
            && StartedOk(started, events[1..])
  {
    forall i, j, w | 0 <= i < j < |events[1..]| && IsPollEvent(events[1..][i], w) && IsPollEvent(events[1..][j], w)
      ensures InTurn(events[1..][i], events[1..][j])
    {
      assert IsPollEvent(events[i + 1], w) && IsPollEvent(events[j + 1], w);
    }
    var e := events[0];
    assert forall i :: 0 <= i < |events[1..]| ==> events[1..][i] == events[i + 1];
    if e.PollStarted? {
      assert IsPollEvent(e, e.worker);
    }
  }

  lemma {:induction false} TimelyDisjoint(started: map<u64, Poll>, events: seq<TelemetryEvent>)
    requires Timely(events) && StartedOk(started, events)
    ensures Disjoint(PollsFrom(started, events))
    decreases |events|
  {
    if events != [] {
      StartStep(started, events);
      var e := events[0];
      if e.PollStarted? {
        TimelyDisjoint(started[e.worker := Poll(e.worker, e.timestamp, 0, e.task, e.spawnLoc)], events[1..]);
      } else if e.PollEnded? && e.worker in started {
        TimelyDisjoint(started - {e.worker}, events[1..]);
        assert IsPollEvent(e, e.worker);
        assert forall i :: 0 <= i < |events[1..]| ==> events[1..][i] == events[i + 1];
        StartsLater(started - {e.worker}, events[1..], e.worker, e.timestamp);
      } else {
        TimelyDisjoint(started, events[1..]);
      }
    }
  }

  lemma Twice(polls: seq<Poll>, p: Poll) returns (i: nat, j: nat)
    requires multiset(polls)[p] >= 2
    ensures i < j < |polls| && polls[i] == polls[j] == p
  {
    assert p in polls;
    i :| 0 <= i < |polls| && polls[i] == p;
    assert polls == polls[..i] + [p] + polls[i + 1..];
    assert p in multiset(polls[..i]) || p in multiset(polls[i + 1..]);
    if p in polls[..i] {
      j := i;
      i :| 0 <= i < j && polls[..j][i] == p;
    } else {
      var k :| 0 <= k < |polls[i + 1..]| && polls[i + 1..][k] == p;
      j := i + 1 + k;
    }
  }

  /** Disjointness does not depend on the order. */
  lemma DisjointAnyOrder(a: seq<Poll>, b: seq<Poll>)
    requires Disjoint(a) && multiset(a) == multiset(b)
    ensures Disjoint(b)
  {
    forall i | 0 <= i < |b|
      ensures b[i].start <= b[i].end
    {
      assert b[i] in multiset(b) && b[i] in a;
    }
    forall i, j | 0 <= i < j < |b| && b[i].worker == b[j].worker
      ensures b[i].end < b[j].start || b[j].end < b[i].start
    {
      assert b[i] in multiset(b) && b[j] in multiset(b);
      if b[i] == b[j] {
        assert b == b[..i] + [b[i]] + b[i + 1..j] + [b[j]] + b[j + 1..];
        var k, l := Twice(a, b[i]);
      } else {
        var k :| 0 <= k < |a| && a[k] == b[i];
        var l :| 0 <= l < |a| && a[l] == b[j];
        if k < l { } else { assert l < k; }
      }
    }
  }

  /** For a trace whose polls are disjoint, the detector's counts are those of the naive scan, and
      together they are the samples lying in some poll. */
  lemma SamplesAttributed(events: seq<TelemetryEvent>, polls: seq<Poll>)
    requires Disjoint(PollsOf(events)) && InOrder(polls) && multiset(polls) == multiset(PollsOf(events))
    ensures forall i: nat, source :: i < |polls| ==>
              Counted(polls, i, source, events) == SamplesIn(polls[i], source, events)
    ensures TotalCounted(polls, |polls|, events) == InSomePoll(polls, events)
  {
    DisjointAnyOrder(PollsOf(events), polls);
    DisjointSuccessive(polls);
    TotalIsInSomePoll(polls, events);
    forall i: nat, source | i < |polls|
      ensures Counted(polls, i, source, events) == SamplesIn(polls[i], source, events)
    {
      CountedIsInside(polls, i, source, events);
    }
  }

  // ----- what the detector reports -----

  /** The events that are samples of a kind inside the poll. */
  ghost function InsideAt(p: Poll, source: SampleSource, events: seq<TelemetryEvent>): set<nat> {
    set k: nat | k < |events| && Inside(p, events[k]) && events[k].source == source
  }

  lemma {:induction false} SamplesInCounts(p: Poll, source: SampleSource, events: seq<TelemetryEvent>)
    ensures SamplesIn(p, source, events) == |InsideAt(p, source, events)|
  {
    if events == [] {
      assert InsideAt(p, source, events) == {};
    } else {
      var front, n := events[..|events| - 1], |events| - 1;
      SamplesInCounts(p, source, front);
      forall k: nat
        ensures k in InsideAt(p, source, events) <==>
                k in InsideAt(p, source, front) || (k == n && Inside(p, events[n]) && events[n].source == source)
      {
      }
      assert InsideAt(p, source, events)
             == InsideAt(p, source, front)
                + if Inside(p, events[n]) && events[n].source == source then {n} else {};
    }
  }

  /** One report for each poll of the trace with a sample of either kind inside it, by worker and
      start, each with how many there are. */
  ghost predicate Reports(sampled: seq<PollSpan>, events: seq<TelemetryEvent>) {
    && InOrder(Polls(sampled))
    && (forall a, b :: 0 <= a < b < |sampled| ==> sampled[a].poll != sampled[b].poll)
    && (forall k :: 0 <= k < |sampled| ==>
          && sampled[k].cpuSamples == |InsideAt(sampled[k].poll, CpuProfile, events)|
          && sampled[k].schedSamples == |InsideAt(sampled[k].poll, SchedEvent, events)|)
    && forall p: Poll ::
         (exists k :: 0 <= k < |sampled| && sampled[k].poll == p) <==>
         p in PollsOf(events)
         && |InsideAt(p, CpuProfile, events)| + |InsideAt(p, SchedEvent, events)| > 0
  }

  predicate HasSamples(span: PollSpan) {
    span.cpuSamples > 0 || span.schedSamples > 0
  }

  lemma SampledLast(spans: seq<PollSpan>)
    requires spans != []
    ensures Sampled(spans)
            == Sampled(spans[..|spans| - 1]) + if HasSamples(spans[|spans| - 1]) then [spans[|spans| - 1]] else []
  {
  }

  /** The spans with samples, in their order. */
  lemma {:induction false} SampledSpans(spans: seq<PollSpan>) returns (at: seq<nat>)
    ensures |at| == |Sampled(spans)| && forall a, b :: 0 <= a < b < |at| ==> at[a] < at[b]
    ensures forall k :: 0 <= k < |at| ==>
              at[k] < |spans| && Sampled(spans)[k] == spans[at[k]] && HasSamples(spans[at[k]])
    ensures forall i: nat :: i < |spans| && HasSamples(spans[i]) ==> exists k :: 0 <= k < |at| && at[k] == i
  {
    if spans == [] {
      at := [];
    } else {
      var front, n := spans[..|spans| - 1], |spans| - 1;
      var before := SampledSpans(front);
      hide HasSamples;
      at := before + if HasSamples(spans[n]) then [n] else [];
      SampledLast(spans);
      hide Sampled;
      forall k | 0 <= k < |at|
        ensures at[k] < |spans| && Sampled(spans)[k] == spans[at[k]] && HasSamples(spans[at[k]])
      {
        if k < |before| {
          assert at[k] == before[k] && Sampled(spans)[k] == Sampled(front)[k] == front[at[k]];
        }
      }
      forall i: nat | i < |spans| && HasSamples(spans[i])
        ensures exists k :: 0 <= k < |at| && at[k] == i
      {
        if i == n {
          assert at[|before|] == n;
        } else {
          assert HasSamples(front[i]);
          var k :| 0 <= k < |before| && before[k] == i;
          assert at[k] == i;
        }
      }
    }
  }

  lemma ReportsExactly(events: seq<TelemetryEvent>, polls: seq<Poll>)
    requires Disjoint(PollsOf(events)) && InOrder(polls) && multiset(polls) == multiset(PollsOf(events))
    ensures Reports(Sampled(WithCounts(polls, events)), events)
  {
    hide PollsOf, Sampled, Counted, SamplesIn, TotalCounted, InSomePoll, InsideAt;
    var spans := WithCounts(polls, events);
    var sampled := Sampled(spans);
    var at := SampledSpans(spans);
    SamplesAttributed(events, polls);
    DisjointAnyOrder(PollsOf(events), polls);
    forall i: nat, source | i < |polls|
      ensures Counted(polls, i, source, events) == |InsideAt(polls[i], source, events)|
    {
      SamplesInCounts(polls[i], source, events);
    }
    forall k | 0 <= k < |sampled|
      ensures sampled[k].poll == polls[at[k]]
      ensures sampled[k].cpuSamples == |InsideAt(sampled[k].poll, CpuProfile, events)|
      ensures sampled[k].schedSamples == |InsideAt(sampled[k].poll, SchedEvent, events)|
    {
      assert sampled[k] == spans[at[k]];
    }
    forall a, b | 0 <= a < b < |sampled|
      ensures sampled[a].poll != sampled[b].poll && Before(Polls(sampled)[a], Polls(sampled)[b])
    {
      assert at[a] < at[b] && Before(polls[at[a]], polls[at[b]]);
    }
    forall p: Poll
      ensures (exists k :: 0 <= k < |sampled| && sampled[k].poll == p) <==>
              p in PollsOf(events)
              && |InsideAt(p, CpuProfile, events)| + |InsideAt(p, SchedEvent, events)| > 0
    {
      WhichReported(events, polls, spans, sampled, at, p);
    }
  }

  lemma WhichReported(events: seq<TelemetryEvent>, polls: seq<Poll>, spans: seq<PollSpan>, sampled: seq<PollSpan>,
                      at: seq<nat>, p: Poll)
    requires multiset(polls) == multiset(PollsOf(events)) && |spans| == |polls| && |at| == |sampled|
    requires forall i :: 0 <= i < |polls| ==>
               && spans[i].poll == polls[i]
               && spans[i].cpuSamples == |InsideAt(polls[i], CpuProfile, events)|
               && spans[i].schedSamples == |InsideAt(polls[i], SchedEvent, events)|
    requires forall k :: 0 <= k < |at| ==> at[k] < |spans| && sampled[k] == spans[at[k]] && HasSamples(spans[at[k]])
    requires forall i: nat :: i < |spans| && HasSamples(spans[i]) ==> exists k :: 0 <= k < |at| && at[k] == i
    ensures (exists k :: 0 <= k < |sampled| && sampled[k].poll == p) <==>
            p in PollsOf(events)
            && |InsideAt(p, CpuProfile, events)| + |InsideAt(p, SchedEvent, events)| > 0
  {
    hide PollsOf, InsideAt;
    assert p in PollsOf(events) <==> p in multiset(polls);
    if k :| 0 <= k < |sampled| && sampled[k].poll == p {
      assert polls[at[k]] == p;
    }
    if p in polls && |InsideAt(p, CpuProfile, events)| + |InsideAt(p, SchedEvent, events)| > 0 {
      var i :| 0 <= i < |polls| && polls[i] == p;
      assert HasSamples(spans[i]);
      var k :| 0 <= k < |at| && at[k] == i;
      assert sampled[k].poll == p;
    }
  }

  /** Poll events in order on each worker give disjoint polls. */
  lemma TimelyTrace(events: seq<TelemetryEvent>)
    requires Timely(events)
    ensures Disjoint(PollsOf(events))
  {
    TimelyDisjoint(map[], events);
  }

  /** Two polls that touch: a sample at that moment lies in both and is counted for the second. */
  lemma TouchingPolls()
    ensures var polls, e := [Poll(0, 0, 5, 1, 0), Poll(0, 5, 9, 2, 0)], CpuSampled(5, 0, 0, CpuProfile, 0, []);
            InOrder(polls) && Inside(polls[0], e) && Inside(polls[1], e) && Owner(polls, e) == Some(1)
  {
  }
}
