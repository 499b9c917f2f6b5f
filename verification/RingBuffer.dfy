/** The reader of a perf ring buffer (perf-self-profile/src/ring_buffer.rs) and the reassembly of
    its records (perf-self-profile/src/sampler.rs). The kernel is a producer that appends whole
    records where they fit; positions are not reduced modulo 2^64. */
module RingBuffer {
  import opened Wire
  import opened Wrappers

  const RECORD_HEADER_SIZE: nat := 8

  /** `perf_event_header.size`: the last two of the header's eight bytes. */
  function SizeField(header: Bytes): nat
    requires |header| >= RECORD_HEADER_SIZE
  {
    FromLE(header[6..8])
  }

  /** A record states its own length: bytes 6 and 7 of its header, low byte first. */
  predicate WellFormed(record: Bytes) {
    |record| >= RECORD_HEADER_SIZE && record[6] as int + 256 * (record[7] as int) == |record|
  }

  lemma SizeFieldIs(header: Bytes)
    requires |header| >= RECORD_HEADER_SIZE
    ensures SizeField(header) == header[6] as int + 256 * (header[7] as int)
  {
    assert FromLE(header[6..8][1..][1..]) == 0;
    assert FromLE(header[6..8][1..]) == header[7];
  }

  ghost predicate AllWellFormed(records: seq<Bytes>) {
    forall i :: 0 <= i < |records| ==> WellFormed(records[i])
  }

  function Concat(records: seq<Bytes>): Bytes {
    if records == [] then [] else records[0] + Concat(records[1..])
  }

  lemma {:induction false} ConcatAppend(a: seq<Bytes>, b: seq<Bytes>)
    ensures Concat(a + b) == Concat(a) + Concat(b)
  {
    if a == [] {
      assert a + b == b;
    } else {
      assert (a + b)[1..] == a[1..] + b;
      ConcatAppend(a[1..], b);
    }
  }

  datatype RecordBody = Contiguous(bytes: Bytes) | Split(first: Bytes, second: Bytes)

  datatype RawRecord = RawRecord(header: Bytes, body: RecordBody)

  /** What the sampler makes of a record: header and body in one piece. */
  function Assemble(r: RawRecord): Bytes {
    match r.body
    case Contiguous(bytes) => r.header + bytes
    case Split(first, second) => r.header + first + second
  }

  function AssembleAll(records: seq<RawRecord>): seq<Bytes> {
    seq(|records|, i requires 0 <= i < |records| => Assemble(records[i]))
  }

  // ----- positions in the circle -----

  /** Where byte `k` of the stream is kept. */
  function Slot(k: nat, n: nat): (r: nat)
    requires 0 < n
    ensures r < n
  {
    k % n
  }

  /** Stepping `i` on: straight, or once around. */
  lemma SlotStep(k: nat, i: nat, n: nat)
    requires 0 < n && i <= n
    ensures Slot(k + i, n) == if Slot(k, n) + i < n then Slot(k, n) + i else Slot(k, n) + i - n
  {
    var q, r := k / n, Slot(k, n);
    assert k == n * q + r;
    if r + i < n {
      ModUnique(k + i, n, q, r + i);
    } else {
      assert n * (q + 1) == n * q + n;
      ModUnique(k + i, n, q + 1, r + i - n);
    }
  }

  /** Bytes less than a full circle apart do not collide. */
  lemma SlotsDiffer(k: nat, l: nat, n: nat)
    requires 0 < n && k < l < k + n
    ensures Slot(k, n) != Slot(l, n)
  {
    hide Slot;
    SlotStep(k, l - k, n);
  }

  /** The stream from `from` to `to` lies in the circle. */
  ghost predicate Holds(data: seq<u8>, stream: Bytes, from: nat, to: nat) {
    && 0 < |data| && to <= |stream|
    && forall k: nat :: from <= k < to ==> data[Slot(k, |data|)] == stream[k]
  }

  lemma StoreByte(data: seq<u8>, stream: Bytes, from: nat, to: nat)
    requires Holds(data, stream, from, to) && to < |stream| && from <= to < from + |data|
    ensures Holds(data[Slot(to, |data|) := stream[to]], stream, from, to + 1)
  {
    hide Slot;
    forall k: nat | from <= k < to
      ensures Slot(k, |data|) != Slot(to, |data|)
    {
      SlotsDiffer(k, to, |data|);
    }
  }

  /** `len` bytes from slot `p` on: in one piece, or in two. */
  function PieceAt(data: seq<u8>, p: nat, len: nat): (r: Bytes)
    requires p < |data| && len <= |data|
    ensures |r| == len
  {
    if p + len <= |data| then data[p..p + len] else data[p..] + data[..len - (|data| - p)]
  }

  lemma PieceOfStream(data: seq<u8>, stream: Bytes, from: nat, to: nat, at: nat, len: nat)
    requires Holds(data, stream, from, to) && from <= at && at + len <= to && len <= |data|
    ensures PieceAt(data, Slot(at, |data|), len) == stream[at..at + len]
  {
    hide Slot;
    var piece := PieceAt(data, Slot(at, |data|), len);
    forall j: nat | j < len
      ensures piece[j] == stream[at..at + len][j]
    {
      SlotStep(at, j, |data|);
      assert data[Slot(at + j, |data|)] == stream[at + j];
    }
  }

  lemma SlotOfSlot(k: nat, i: nat, n: nat)
    requires 0 < n && i <= n
    ensures Slot(Slot(k, n) + i, n) == Slot(k + i, n)
  {
    hide Slot;
    SlotStep(k, i, n);
    SlotOfSmall(Slot(k, n), n);
    SlotStep(Slot(k, n), i, n);
  }

  lemma SlotOfSmall(k: nat, n: nat)
    requires k < 2 * n
    ensures Slot(k, n) == if k < n then k else k - n
  {
    ModUnique(k, n, if k < n then 0 else 1, if k < n then k else k - n);
  }

  /** The buffer holds the unread end of the stream, and that is a list of records. */
  ghost predicate Sound(data: seq<u8>, stream: Bytes, position: nat, head: nat, pending: seq<Bytes>) {
    && position <= head == |stream| && head <= position + |data|
    && Holds(data, stream, position, head)
    && AllWellFormed(pending) && stream[position..] == Concat(pending)
  }

  /** The next record is well formed and lies at the position; without it the rest is sound. */
  lemma NextRecord(data: seq<u8>, stream: Bytes, position: nat, head: nat, pending: seq<Bytes>)
    requires Sound(data, stream, position, head, pending)
    ensures pending == [] <==> position == head
    ensures pending != [] ==>
              && WellFormed(pending[0]) && position + |pending[0]| <= head
              && stream[position..position + |pending[0]|] == pending[0]
              && Sound(data, stream, position + |pending[0]|, head, pending[1..])
  {
    hide Slot, SizeField;
    if pending != [] {
      var first := pending[0];
      assert WellFormed(first);
      assert stream[position..][..|first|] == first;
      assert stream[position + |first|..] == stream[position..][|first|..] == Concat(pending[1..]);
    }
  }

  /** A record put together from what lies in the buffer. */
  lemma RecordWhole(data: seq<u8>, stream: Bytes, position: nat, head: nat, pending: seq<Bytes>)
    requires Sound(data, stream, position, head, pending) && pending != []
    ensures RECORD_HEADER_SIZE <= |pending[0]| <= |data|
    ensures var first, pos := pending[0], Slot(position, |data|);
            var header := PieceAt(data, pos, RECORD_HEADER_SIZE);
            && SizeField(header) == |first|
            && header + PieceAt(data, Slot(pos + RECORD_HEADER_SIZE, |data|), |first| - RECORD_HEADER_SIZE) == first
  {
    hide Slot, PieceAt, FromLE;
    NextRecord(data, stream, position, head, pending);
    var first := pending[0];
    PieceOfStream(data, stream, position, head, position, RECORD_HEADER_SIZE);
    PieceOfStream(data, stream, position, head, position + RECORD_HEADER_SIZE, |first| - RECORD_HEADER_SIZE);
    SlotOfSlot(position, RECORD_HEADER_SIZE, |data|);
    assert stream[position..position + 8] == first[..8];
    SizeFieldIs(first[..8]);
    assert stream[position + 8..position + |first|] == first[8..];
  }

  /** What the producer appends is one more pending record. */
  lemma OneMore(data: seq<u8>, stream: Bytes, position: nat, head: nat, pending: seq<Bytes>, record: Bytes)
    requires position <= head == |stream| && head + |record| <= position + |data| && WellFormed(record)
    requires Holds(data, stream + record, position, head + |record|)
    requires AllWellFormed(pending) && stream[position..] == Concat(pending)
    ensures Sound(data, stream + record, position, head + |record|, pending + [record])
  {
    hide Slot, WellFormed;
    ConcatAppend(pending, [record]);
    assert [record][1..] == [] && Concat([record]) == record;
    assert (stream + record)[position..] == stream[position..] + record;
  }

  // ----- what the producer adds -----

  /** The bytes that are free while `pending` is unread. */
  function Room(size: nat, pending: seq<Bytes>): nat {
    if |Concat(pending)| <= size then size - |Concat(pending)| else 0
  }

  /** The records that are kept when they are offered one after the other: each that still fits. */
  function Fitting(room: nat, records: seq<Bytes>): seq<Bytes> {
    if records == [] then []
    else if |records[0]| <= room then [records[0]] + Fitting(room - |records[0]|, records[1..])
    else Fitting(room, records[1..])
  }

  /** What a schedule adds to the buffer while it is read: before each look the records that fit
      behind the unread ones, after it one record less unread, and no further look once nothing
      is unread. */
  function AddedBy(size: nat, pending: seq<Bytes>, schedule: seq<seq<Bytes>>): seq<Bytes>
    decreases |schedule|
  {
    if schedule == [] then []
    else
      var more := Fitting(Room(size, pending), schedule[0]);
      var unread := pending + more;
      more + if unread == [] then [] else AddedBy(size, unread[1..], schedule[1..])
  }

  /** Every scheduled record, whether it fits or not. */
  function Scheduled(schedule: seq<seq<Bytes>>): seq<Bytes> {
    if schedule == [] then [] else schedule[0] + Scheduled(schedule[1..])
  }

  /** Before each look there is room for all records due, and while any are still to come the
      reader finds something unread. */
  predicate KeepsAhead(size: nat, pending: seq<Bytes>, schedule: seq<seq<Bytes>>)
    decreases |schedule|
  {
    schedule == [] ||
    (var unread := pending + schedule[0];
     && |Concat(unread)| <= size
     && if unread == [] then Scheduled(schedule[1..]) == [] else KeepsAhead(size, unread[1..], schedule[1..]))
  }

  lemma RoomLeft(data: seq<u8>, stream: Bytes, position: nat, head: nat, pending: seq<Bytes>)
    requires Sound(data, stream, position, head, pending)
    ensures Room(|data|, pending) == position + |data| - head
  {
  }

  lemma RoomAfter(size: nat, pending: seq<Bytes>, record: Bytes)
    requires |record| <= Room(size, pending)
    ensures Room(size, pending + [record]) == Room(size, pending) - |record|
  {
    ConcatAppend(pending, [record]);
    assert Concat([record]) == record + Concat([]);
  }

  /** One record more. */
  lemma FittingStep(size: nat, pending: seq<Bytes>, records: seq<Bytes>)
    requires records != []
    ensures var room, first := Room(size, pending), records[0];
            Fitting(room, records)
            == if |first| <= room then [first] + Fitting(Room(size, pending + [first]), records[1..])
               else Fitting(room, records[1..])
  {
    hide Room;
    if |records[0]| <= Room(size, pending) {
      RoomAfter(size, pending, records[0]);
    }
  }

  lemma Rejoin(a: seq<Bytes>, b: seq<Bytes>, c: seq<Bytes>)
    ensures a + (b + c) == (a + b) + c && a + [] == a
  {
  }

  lemma FittingNone(room: nat, kept: seq<Bytes>)
    ensures kept + Fitting(room, []) == kept
  {
  }

  lemma AddedStep(size: nat, pending: seq<Bytes>, schedule: seq<seq<Bytes>>)
    ensures schedule == [] ==> AddedBy(size, pending, schedule) == []
    ensures schedule != [] ==>
              var more := Fitting(Room(size, pending), schedule[0]);
              AddedBy(size, pending, schedule)
              == more + if pending + more == [] then [] else AddedBy(size, (pending + more)[1..], schedule[1..])
    ensures schedule == [] && pending != [] ==> AddedBy(size, pending[1..], schedule) == []
  {
  }

  /** All records are kept exactly when they fit together. */
  lemma {:induction false} FittingAll(room: nat, records: seq<Bytes>)
    ensures |Fitting(room, records)| <= |records|
    ensures Fitting(room, records) == records <==> |Concat(records)| <= room
    ensures |Concat(Fitting(room, records))| <= room
    decreases |records|
  {
    if records != [] {
      if |records[0]| <= room {
        FittingAll(room - |records[0]|, records[1..]);
        assert ([records[0]] + Fitting(room - |records[0]|, records[1..]))[1..]
               == Fitting(room - |records[0]|, records[1..]);
      } else {
        FittingAll(room, records[1..]);
      }
    }
  }

  /** Nothing is lost or left waiting, for whatever schedule, exactly when every record finds
      room and the reader does not catch up too early: then what was added is the schedule. */
  lemma {:induction false} AllAdded(size: nat, pending: seq<Bytes>, schedule: seq<seq<Bytes>>)
    requires |Concat(pending)| <= size
    ensures |AddedBy(size, pending, schedule)| <= |Scheduled(schedule)|
    ensures AddedBy(size, pending, schedule) == Scheduled(schedule) <==> KeepsAhead(size, pending, schedule)
    decreases |schedule|
  {
    hide Fitting, Concat;
    if schedule != [] {
      var more := Fitting(Room(size, pending), schedule[0]);
      var unread := pending + more;
      FittingAll(Room(size, pending), schedule[0]);
      ConcatAppend(pending, schedule[0]);
      ConcatAppend(pending, more);
      if unread != [] {
        ConcatAppend([unread[0]], unread[1..]);
        assert [unread[0]] + unread[1..] == unread;
        AllAdded(size, unread[1..], schedule[1..]);
        SplitEqual(more, AddedBy(size, unread[1..], schedule[1..]), schedule[0], Scheduled(schedule[1..]));
      } else {
        SplitEqual(more, [], schedule[0], Scheduled(schedule[1..]));
      }
    }
  }

  /** Two joins whose parts are no longer are equal only part by part. */
  lemma SplitEqual(a: seq<Bytes>, b: seq<Bytes>, c: seq<Bytes>, d: seq<Bytes>)
    requires |a| <= |c| && |b| <= |d|
    ensures a + b == c + d <==> a == c && b == d
  {
    if a + b == c + d {
      assert |a| == |c|;
      assert a == (a + b)[..|a|] && b == (a + b)[|a|..] && c == (c + d)[..|c|] && d == (c + d)[|c|..];
    }
  }

  // ----- the buffer and its reader -----

  class RingBuffer {
    const data: array<u8>
    var position: nat
    // the metadata page
    var dataHead: nat
    var dataTail: nat
    /** Every byte the producer has written, and the records not read yet. */
    ghost var stream: Bytes
    ghost var pending: seq<Bytes>

    ghost predicate Valid()
      reads this, data
    {
      dataTail == position && Sound(data[..], stream, position, dataHead, pending)
    }

    constructor (size: nat)
      requires 0 < size
      ensures Valid() && fresh(data) && data.Length == size && stream == [] && pending == []
    {
      data := new u8[size];
      position, dataHead, dataTail := 0, 0, 0;
      stream, pending := [], [];
    }

    method HasData() returns (r: bool)
      requires Valid()
      ensures r <==> pending != []
    {
      NextRecord(data[..], stream, position, dataHead, pending);
      r := dataHead != position;
    }

    /** The kernel's side: a record that does not fit is lost. */
    method Produce(record: Bytes) returns (kept: bool)
      requires Valid() && WellFormed(record)
      modifies data, this`dataHead, this`stream, this`pending
      ensures Valid() && kept == (old(dataHead) + |record| <= position + data.Length)
      ensures stream == old(stream) + if kept then record else []
      ensures pending == old(pending) + if kept then [record] else []
    {
      hide Slot, WellFormed;
      kept := dataHead + |record| <= position + data.Length;
      if kept {
        ghost var longer := stream + record;
        assert Holds(data[..], longer, position, dataHead);
        for i := 0 to |record|
          modifies data
          invariant Holds(data[..], longer, position, dataHead + i)
        {
          StoreByte(data[..], longer, position, dataHead + i);
          data[Slot(dataHead + i, data.Length)] := record[i];
        }
        OneMore(data[..], stream, position, dataHead, pending, record);
        stream := longer;
        pending := pending + [record];
        dataHead := dataHead + |record|;
      }
    }

    /** The header at `pos`, copied byte by byte when it wraps around. */
    method ReadHeader(pos: nat) returns (header: Bytes)
      requires pos < data.Length && RECORD_HEADER_SIZE <= data.Length
      ensures header == PieceAt(data[..], pos, RECORD_HEADER_SIZE)
    {
      if pos + RECORD_HEADER_SIZE <= data.Length {
        header := data[pos..pos + RECORD_HEADER_SIZE];
      } else {
        header := [];
        for i := 0 to RECORD_HEADER_SIZE
          invariant header == PieceAt(data[..], pos, RECORD_HEADER_SIZE)[..i]
        {
          SlotOfSmall(pos + i, data.Length);
          header := header + [data[Slot(pos + i, data.Length)]];
        }
      }
    }

    /** One pass of the loop: the record at `position`, its body whole or in two pieces. */
    method ReadRecord() returns (record: RawRecord)
      requires Valid() && pending != []
      modifies this`position, this`dataTail, this`pending
      ensures Valid() && pending == old(pending)[1..] && Assemble(record) == old(pending)[0]
      ensures position > old(position)
    {
      hide Slot, Sound, FromLE;
      RecordWhole(data[..], stream, position, dataHead, pending);
      NextRecord(data[..], stream, position, dataHead, pending);
      var pos := Slot(position, data.Length);
      var header := ReadHeader(pos);
      var recordSize := SizeField(header);
      var bodySize := recordSize - RECORD_HEADER_SIZE;
      var bodyStart := Slot(pos + RECORD_HEADER_SIZE, data.Length);
      if bodyStart + bodySize <= data.Length {
        record := RawRecord(header, Contiguous(data[bodyStart..bodyStart + bodySize]));
      } else {
        record := RawRecord(header, Split(data[bodyStart..], data[..bodySize - (data.Length - bodyStart)]));
        assert header + data[bodyStart..] + data[..bodySize - (data.Length - bodyStart)]
               == header + PieceAt(data[..], bodyStart, bodySize);
      }
      position := position + recordSize;
      dataTail := position;
      pending := pending[1..];
    }

    /** `for_each_record`. Before each look at the head the producer may add records; `schedule`
        says which. The callback gets exactly the pending records and then those of the schedule
        that found room, in order, and at the end nothing is unread. */
    method ForEachRecord(schedule: seq<seq<Bytes>>) returns (delivered: seq<RawRecord>)
      requires Valid() && forall i :: 0 <= i < |schedule| ==> AllWellFormed(schedule[i])
      modifies this, data
      ensures Valid() && position == dataHead && pending == []
      ensures var added := AddedBy(data.Length, old(pending), schedule);
              stream == old(stream) + Concat(added) && AssembleAll(delivered) == old(pending) + added
    {
      hide Sound, AssembleAll, AllWellFormed, AddedBy;
      delivered := [];
      var turn := 0;
      ghost var added := [];
      ghost var all := AddedBy(data.Length, pending, schedule);
      NoneYet(stream, pending);
      assert schedule[0..] == schedule && [] + all == all;
      while true
        invariant Valid() && turn <= |schedule|
        invariant stream == old(stream) + Concat(added)
        invariant AssembleAll(delivered) + pending == old(pending) + added
        invariant all == added + AddedBy(data.Length, pending, schedule[turn..])
        decreases |schedule| - turn, dataHead - position
      {
        AddedStep(data.Length, pending, schedule[turn..]);
        ghost var more := [];
        if turn < |schedule| {
          ghost var before := pending;
          more := Fitting(Room(data.Length, before), schedule[turn]);
          ProduceAll(schedule[turn]);
          AddMore(old(stream), added, more, AssembleAll(delivered), before, old(pending));
          assert schedule[turn..][1..] == schedule[turn + 1..];
          turn := turn + 1;
        }
        assert added + [] == added;
        added := added + more;
        NextRecord(data[..], stream, position, dataHead, pending);
        if dataHead == position {
          break;
        }
        ghost var unread := pending;
        var record := ReadRecord();
        Delivered(delivered, record, unread);
        delivered := delivered + [record];
      }
    }

    /** The producer adds what fits, record by record. */
    method ProduceAll(records: seq<Bytes>)
      requires Valid() && AllWellFormed(records)
      modifies data, this`dataHead, this`stream, this`pending
      ensures Valid()
      ensures var kept := Fitting(Room(data.Length, old(pending)), records);
              stream == old(stream) + Concat(kept) && pending == old(pending) + kept
    {
      hide Sound, WellFormed, Fitting, Room;
      ghost var kept := [];
      ghost var all := Fitting(Room(data.Length, pending), records);
      NoneYet(stream, pending);
      assert records[0..] == records && [] + all == all;
      for i := 0 to |records|
        invariant Valid() && stream == old(stream) + Concat(kept) && pending == old(pending) + kept
        invariant all == kept + Fitting(Room(data.Length, pending), records[i..])
      {
        assert WellFormed(records[i]);
        ghost var before := pending;
        RoomLeft(data[..], stream, position, dataHead, pending);
        FittingStep(data.Length, pending, records[i..]);
        Rejoin(kept, [records[i]], Fitting(Room(data.Length, pending + [records[i]]), records[i + 1..]));
        assert records[i..][1..] == records[i + 1..];
        var ok := Produce(records[i]);
        ghost var one := if ok then [records[i]] else [];
        AddMore(old(stream), kept, one, [], old(pending) + kept, old(pending));
        kept := kept + one;
        assert before + [] == before;
      }
      assert records[|records|..] == [];
      FittingNone(Room(data.Length, pending), kept);
    }
  }

  lemma NoneYet(stream: Bytes, pending: seq<Bytes>)
    ensures stream + Concat([]) == stream && pending + [] == pending
    ensures AssembleAll([]) + pending == pending
  {
  }

  lemma AddMore(stream: Bytes, added: seq<Bytes>, more: seq<Bytes>, delivered: seq<Bytes>, unread: seq<Bytes>,
                pending: seq<Bytes>)
    requires delivered + unread == pending + added
    ensures stream + Concat(added) + Concat(more) == stream + Concat(added + more)
    ensures delivered + (unread + more) == pending + (added + more)
  {
    ConcatAppend(added, more);
    assert delivered + (unread + more) == (delivered + unread) + more;
  }

  lemma Delivered(delivered: seq<RawRecord>, record: RawRecord, unread: seq<Bytes>)
    requires unread != [] && Assemble(record) == unread[0]
    ensures AssembleAll(delivered + [record]) + unread[1..] == AssembleAll(delivered) + unread
  {
  }
}
