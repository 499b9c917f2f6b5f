/** Wake-to-poll delays (dial9-tokio-telemetry/src/telemetry/analysis.rs): an index of sorted
    wake times searched by bisection, against the latest wake found by a linear scan. */
module WakeDelays {
  import opened Wire
  import opened Wrappers
  import opened Sorting
  import opened Telemetry

  const MAX_REASONABLE_DELAY_NS: nat := 1_000_000_000

  datatype WakeDelay = WakeDelay(worker: u64, wake: nat, poll: u64, delay: nat, task: u64)

  /** The wake times of one task, in the order of the events. */
  function WakesOf(events: seq<TelemetryEvent>, task: u64): seq<nat> {
    if events == [] then []
    else
      (if events[0].Woken? && events[0].woken == task then [events[0].timestamp] else []) + WakesOf(events[1..], task)
  }

  /** The latest of the times that is not after `now`, by looking at each. */
  function Latest(times: seq<nat>, now: u64): Option<nat> {
    if times == [] then None
    else
      var rest := Latest(times[1..], now);
      if times[0] <= now && (rest.None? || rest.value < times[0]) then Some(times[0]) else rest
  }

  /** A poll's delay since the latest wake of its task, if it is worth reporting. */
  function DelayOf(events: seq<TelemetryEvent>, e: TelemetryEvent, threshold: nat): seq<WakeDelay> {
    if !e.PollStarted? then []
    else
      match Latest(WakesOf(events, e.task), e.timestamp)
      case None => []
      case Some(wake) =>
        if wake <= e.timestamp && threshold <= e.timestamp - wake < MAX_REASONABLE_DELAY_NS then
          [WakeDelay(e.worker, wake, e.timestamp, e.timestamp - wake, e.task)]
        else []
  }

  function DelaysOf(events: seq<TelemetryEvent>, polls: seq<TelemetryEvent>, threshold: nat): seq<WakeDelay>
    decreases |polls|
  {
    if polls == [] then []
    else DelaysOf(events, polls[..|polls| - 1], threshold) + DelayOf(events, polls[|polls| - 1], threshold)
  }

  function Lengths(delays: seq<WakeDelay>): seq<nat> {
    seq(|delays|, i requires 0 <= i < |delays| => delays[i].delay)
  }

  // ----- the latest wake -----

  ghost predicate IsLatest(times: seq<nat>, now: u64, latest: Option<nat>) {
    match latest
    case None => forall t :: t in times ==> t > now
    case Some(w) => w in times && w <= now && forall t :: t in times && t <= now ==> t <= w
  }

  lemma {:induction false} LatestIs(times: seq<nat>, now: u64)
    ensures IsLatest(times, now, Latest(times, now))
  {
    if times != [] {
      LatestIs(times[1..], now);
      assert times == [times[0]] + times[1..];
    }
  }

  lemma LatestUnique(times: seq<nat>, sorted: seq<nat>, now: u64, latest: Option<nat>)
    requires forall t :: t in times <==> t in sorted
    requires IsLatest(sorted, now, latest)
    ensures latest == Latest(times, now)
  {
    LatestIs(times, now);
  }

  // ----- which delays there are -----

  ghost predicate WokenAt(events: seq<TelemetryEvent>, task: u64, time: nat) {
    exists j :: 0 <= j < |events| && events[j].Woken? && events[j].woken == task && events[j].timestamp == time
  }

  /** The task's latest wake that is not after `now`. */
  ghost predicate LatestWake(events: seq<TelemetryEvent>, task: u64, now: u64, wake: nat) {
    && wake <= now && WokenAt(events, task, wake)
    && forall t: nat :: WokenAt(events, task, t) && t <= now ==> t <= wake
  }

  lemma {:induction false} WakesAre(events: seq<TelemetryEvent>, task: u64, time: nat)
    ensures time in WakesOf(events, task) <==> WokenAt(events, task, time)
  {
    if events != [] {
      WakesAre(events[1..], task, time);
      if WokenAt(events[1..], task, time) {
        var j :| 0 <= j < |events| - 1 && events[1..][j].Woken? && events[1..][j].woken == task
                 && events[1..][j].timestamp == time;
        assert events[j + 1].Woken?;
      }
      if WokenAt(events, task, time) {
        var j :| 0 <= j < |events| && events[j].Woken? && events[j].woken == task && events[j].timestamp == time;
        assert j > 0 ==> events[1..][j - 1] == events[j];
      }
    }
  }

  lemma LatestWakeIs(events: seq<TelemetryEvent>, task: u64, now: u64, wake: nat)
    ensures Latest(WakesOf(events, task), now) == Some(wake) <==> LatestWake(events, task, now, wake)
  {
    hide WakesOf, Latest, WokenAt;
    var times := WakesOf(events, task);
    forall t: nat
      ensures t in times <==> WokenAt(events, task, t)
    {
      WakesAre(events, task, t);
    }
    LatestIs(times, now);
  }

  /** The delay of a poll is reported: at least the threshold and below a second. */
  ghost predicate Delayed(events: seq<TelemetryEvent>, e: TelemetryEvent, threshold: nat, d: WakeDelay) {
    && e.PollStarted? && LatestWake(events, e.task, e.timestamp, d.wake)
    && d.worker == e.worker && d.poll == e.timestamp && d.task == e.task && d.wake + d.delay == d.poll
    && threshold <= d.delay < 1_000_000_000
  }

  lemma DelayIs(events: seq<TelemetryEvent>, e: TelemetryEvent, threshold: nat, d: WakeDelay)
    ensures DelayOf(events, e, threshold) == [d] <==> Delayed(events, e, threshold, d)
  {
    hide WakesOf, Latest, LatestWake;
    if e.PollStarted? {
      LatestWakeIs(events, e.task, e.timestamp, d.wake);
      var found := DelayOf(events, e, threshold);
      assert found == [d] ==> found[0] == d;
      assert Delayed(events, e, threshold, d) ==>
          d == WakeDelay(e.worker, d.wake, e.timestamp, e.timestamp - d.wake, e.task);
    }
  }

  /** One report for each poll that comes late, in the order of the polls. */
  ghost predicate Reported(events: seq<TelemetryEvent>, delays: seq<WakeDelay>, threshold: nat, polls: seq<nat>,
                           n: nat)
  {
    && |polls| == |delays| && (forall k, l :: 0 <= k < l < |polls| ==> polls[k] < polls[l])
    && (forall k :: 0 <= k < |polls| ==>
          polls[k] < n <= |events| && Delayed(events, events[polls[k]], threshold, delays[k]))
    && forall i, d :: 0 <= i < n <= |events| && Delayed(events, events[i], threshold, d) ==> i in polls
  }

  lemma {:induction false} DelaysReported(events: seq<TelemetryEvent>, threshold: nat, n: nat) returns (polls: seq<nat>)
    requires n <= |events|
    ensures Reported(events, DelaysOf(events, events[..n], threshold), threshold, polls, n)
  {
    hide DelayOf, Delayed;
    if n == 0 {
      polls := [];
    } else {
      polls := DelaysReported(events, threshold, n - 1);
      var e := events[n - 1];
      assert events[..n][..n - 1] == events[..n - 1];
      var found := DelayOf(events, e, threshold);
      AtMostOne(events, e, threshold);
      forall d
        ensures found == [d] <==> Delayed(events, e, threshold, d)
      {
        DelayIs(events, e, threshold, d);
      }
      ReportedMore(events, DelaysOf(events, events[..n - 1], threshold), threshold, polls, n - 1, found);
      polls := polls + if found != [] then [n - 1] else [];
    }
  }

  lemma ReportedMore(events: seq<TelemetryEvent>, delays: seq<WakeDelay>, threshold: nat, polls: seq<nat>, n: nat,
                     found: seq<WakeDelay>)
    requires n < |events| && Reported(events, delays, threshold, polls, n) && |found| <= 1
    requires forall d :: found == [d] <==> Delayed(events, events[n], threshold, d)
    ensures Reported(events, delays + found, threshold, polls + if found != [] then [n] else [], n + 1)
  {
    hide Delayed;
    var delays1, polls1 := delays + found, polls + if found != [] then [n] else [];
    assert found != [] ==> found == [found[0]];
    forall k | 0 <= k < |polls1|
      ensures polls1[k] < n + 1 && Delayed(events, events[polls1[k]], threshold, delays1[k])
    {
      if k < |polls| {
        assert polls1[k] == polls[k] && delays1[k] == delays[k];
      }
    }
    forall i, d | 0 <= i < n + 1 && Delayed(events, events[i], threshold, d)
      ensures i in polls1
    {
      if i == n {
        assert polls1[|polls|] == n;
      } else {
        assert i in polls;
      }
    }
  }

  lemma AtMostOne(events: seq<TelemetryEvent>, e: TelemetryEvent, threshold: nat)
    ensures |DelayOf(events, e, threshold)| <= 1
  {
    hide WakesOf, Latest;
  }

  /** What the detector reports: each poll whose delay since the latest wake of its task, found
      among all wakes, is at least the threshold and below a second. */
  lemma DelaysExactly(events: seq<TelemetryEvent>, threshold: nat) returns (polls: seq<nat>)
    ensures Reported(events, DelaysOf(events, events, threshold), threshold, polls, |events|)
  {
    assert events[..|events|] == events;
    polls := DelaysReported(events, threshold, |events|);
  }

  // ----- the index -----

  /** Every woken task has its wake times. */
  ghost predicate Indexes(m: map<u64, seq<nat>>, events: seq<TelemetryEvent>) {
    forall task: u64 ::
      && (task in m <==> WakesOf(events, task) != [])
      && (task in m ==> m[task] == WakesOf(events, task))
  }

  lemma {:induction false} WakesAppend(events: seq<TelemetryEvent>, e: TelemetryEvent, task: u64)
    ensures WakesOf(events + [e], task)
            == WakesOf(events, task) + if e.Woken? && e.woken == task then [e.timestamp] else []
  {
    if events == [] {
      assert (events + [e])[1..] == [];
    } else {
      assert (events + [e])[1..] == events[1..] + [e];
      WakesAppend(events[1..], e, task);
    }
  }

  method IndexWakes(events: seq<TelemetryEvent>) returns (m: map<u64, seq<nat>>)
    ensures Indexes(m, events)
  {
    m := map[];
    for i := 0 to |events|
      invariant Indexes(m, events[..i])
    {
      assert events[..i + 1] == events[..i] + [events[i]];
      forall task: u64
        ensures WakesOf(events[..i + 1], task) == WakesOf(events[..i], task)
                + if events[i].Woken? && events[i].woken == task then [events[i].timestamp] else []
      {
        WakesAppend(events[..i], events[i], task);
      }
      if events[i].Woken? {
        var task := events[i].woken;
        m := m[task := (if task in m then m[task] else []) + [events[i].timestamp]];
      }
    }
    assert events[..|events|] == events;
  }

  ghost predicate SortedIndex(m: map<u64, seq<nat>>, events: seq<TelemetryEvent>) {
    forall task: u64 ::
      && (task in m <==> WakesOf(events, task) != [])
      && (task in m ==> m[task] == Sort(WakesOf(events, task)))
  }

  method SortWakes(m: map<u64, seq<nat>>, events: seq<TelemetryEvent>) returns (sorted: map<u64, seq<nat>>)
    requires Indexes(m, events)
    ensures SortedIndex(sorted, events)
  {
    hide Sort, WakesOf;
    sorted := m;
    var todo := m.Keys;
    while todo != {}
      invariant todo <= m.Keys == sorted.Keys
      invariant forall task :: task in m ==>
                  sorted[task] == if task in todo then m[task] else Sort(m[task])
      decreases todo
    {
      var task: u64 :| task in todo;
      sorted := sorted[task := Sort(m[task])];
      todo := todo - {task};
    }
  }

  // ----- the detectors -----

  /** `partition_point` for the last wake at or before the poll. */
  method LastWake(wakes: seq<nat>, now: u64) returns (wake: Option<nat>)
    requires Ordered(wakes)
    ensures IsLatest(wakes, now, wake)
  {
    var idx := PartitionPoint(wakes, (t: nat) => t <= now);
    if idx > 0 {
      wake := Some(wakes[idx - 1]);
    } else {
      wake := None;
    }
  }

  method DetectWakeDelays(events: seq<TelemetryEvent>, threshold: nat) returns (delays: seq<WakeDelay>)
    ensures delays == DelaysOf(events, events, threshold)
  {
    hide WakesOf, Sort, Latest;
    var unsorted := IndexWakes(events);
    var wakesByTask := SortWakes(unsorted, events);
    delays := [];
    for i := 0 to |events|
      invariant delays == DelaysOf(events, events[..i], threshold)
    {
      var e := events[i];
      assert events[..i + 1][..i] == events[..i];
      if e.PollStarted? && e.task in wakesByTask {
        var wakes := wakesByTask[e.task];
        WakesSorted(events, e.task, wakes);
        var wake := LastWake(wakes, e.timestamp);
        LatestUnique(WakesOf(events, e.task), wakes, e.timestamp, wake);
        if wake.Some? {
          var delay := e.timestamp - wake.value;
          if delay >= threshold && delay < MAX_REASONABLE_DELAY_NS {
            delays := delays + [WakeDelay(e.worker, wake.value, e.timestamp, delay, e.task)];
          }
        }
      } else if e.PollStarted? {
        NeverWoken(events, e.task, e.timestamp);
      }
    }
    assert events[..|events|] == events;
  }

  lemma WakesSorted(events: seq<TelemetryEvent>, task: u64, wakes: seq<nat>)
    requires wakes == Sort(WakesOf(events, task))
    ensures Ordered(wakes) && forall t :: t in WakesOf(events, task) <==> t in wakes
  {
    hide WakesOf, Sort;
    SortOrdered(WakesOf(events, task));
    forall t: nat
      ensures t in WakesOf(events, task) <==> t in wakes
    {
      SameElements(WakesOf(events, task), t);
    }
  }

  lemma NeverWoken(events: seq<TelemetryEvent>, task: u64, now: u64)
    ensures WakesOf(events, task) == [] ==> Latest(WakesOf(events, task), now) == None
  {
  }

  lemma LengthsAre(delays: seq<WakeDelay>)
    ensures Lengths(delays) == seq(|delays|, i requires 0 <= i < |delays| => delays[i].delay)
  {
  }

  lemma NoLengths(events: seq<TelemetryEvent>)
    ensures Lengths(DelaysOf(events, events[..0], 1)) == []
  {
  }

  lemma LengthsStep(events: seq<TelemetryEvent>, i: nat)
    requires i < |events|
    ensures var found := DelayOf(events, events[i], 1);
            Lengths(DelaysOf(events, events[..i + 1], 1))
            == Lengths(DelaysOf(events, events[..i], 1)) + if found == [] then [] else [found[0].delay]
  {
    hide WakesOf, Latest;
    assert events[..i + 1][..i] == events[..i];
  }

  /** The lengths only, sorted. The detector with threshold 1 finds exactly these. */
  method ComputeWakeToPollDelays(events: seq<TelemetryEvent>) returns (delays: seq<nat>)
    ensures delays == Sort(Lengths(DelaysOf(events, events, 1)))
    ensures Ordered(delays) && forall d :: d in delays ==> 0 < d < MAX_REASONABLE_DELAY_NS
    ensures var found := DelaysOf(events, events, 1);
            multiset(delays) == multiset(seq(|found|, i requires 0 <= i < |found| => found[i].delay))
  {
    hide WakesOf, Sort, Latest, DelaysOf, Lengths;
    LengthsAre(DelaysOf(events, events, 1));
    var unsorted := IndexWakes(events);
    var wakesByTask := SortWakes(unsorted, events);
    delays := [];
    NoLengths(events);
    for i := 0 to |events|
      invariant delays == Lengths(DelaysOf(events, events[..i], 1))
      invariant forall d :: d in delays ==> 0 < d < MAX_REASONABLE_DELAY_NS
    {
      var e := events[i];
      LengthsStep(events, i);
      if e.PollStarted? && e.task in wakesByTask {
        var wakes := wakesByTask[e.task];
        WakesSorted(events, e.task, wakes);
        var idx := PartitionPoint(wakes, (t: nat) => t <= e.timestamp);
        LatestUnique(WakesOf(events, e.task), wakes, e.timestamp, if idx > 0 then Some(wakes[idx - 1]) else None);
        if idx > 0 {
          var delay := e.timestamp - wakes[idx - 1];
          if delay > 0 && delay < MAX_REASONABLE_DELAY_NS {
            delays := delays + [delay];
          }
        }
      } else if e.PollStarted? {
        NeverWoken(events, e.task, e.timestamp);
      }
    }
    assert events[..|events|] == events;
    ghost var unordered := delays;
    delays := Sort(delays);
    SortOrdered(unordered);
    forall d | d in delays
      ensures 0 < d < MAX_REASONABLE_DELAY_NS
    {
      SameElements(unordered, d);
    }
  }
}
