/** The segmented request log: one file after the other, read back as one log. */
module RequestLog {
  import opened Text

  /** Which segment: its date and its index. */
  type Name = (string, nat)

  /** The log directory, by segment. */
  type Dir = map<Name, string>

  const MAX_BYTES: nat := 10 * 1024 * 1024
  const BATCH_MAX: nat := 256

  /** One record: the date in its timestamp, and its JSON text. */
  datatype Record = Record(date: string, json: string)

  function LineOf(r: Record): string {
    r.json + "\n"
  }

  /** The bytes of one character in UTF-8 (section 3 of RFC 3629). */
  function CharLength(c: char): nat {
    if c < '\U{80}' then 1 else if c < '\U{800}' then 2 else if c < '\U{10000}' then 3 else 4
  }

  /** The size of a text in a file. */
  function Utf8Length(s: string): nat {
    if s == "" then 0 else CharLength(s[0]) + Utf8Length(s[1..])
  }

  /** The bytes as a decoder reads them. */
  predicate Denotes(bytes: seq<nat>, n: nat) {
    if |bytes| == 0 then false
    else
      var b := bytes[0];
      && (forall i | 1 <= i < |bytes| :: 0x80 <= bytes[i] < 0xC0)
      && if b < 0x80 then |bytes| == 1 && n == b
         else if b < 0xE0 then b >= 0xC0 && |bytes| == 2 && n == (b - 0xC0) * 0x40 + (bytes[1] - 0x80)
         else if b < 0xF0 then
           |bytes| == 3 && n == (b - 0xE0) * 0x1000 + (bytes[1] - 0x80) * 0x40 + (bytes[2] - 0x80)
         else
           && b < 0xF8 && |bytes| == 4
           && n == (b - 0xF0) * 0x4_0000 + (bytes[1] - 0x80) * 0x1000 + (bytes[2] - 0x80) * 0x40 + (bytes[3] - 0x80)
  }

  /** The encoding itself: the first byte tells the length, the others carry six bits each. */
  function Utf8(c: char): (bytes: seq<nat>)
    ensures forall b | b in bytes :: b < 256
  {
    var n := c as nat;
    if n < 0x80 then [n]
    else if n < 0x800 then [0xC0 + n / 0x40, 0x80 + n % 0x40]
    else if n < 0x1_0000 then [0xE0 + n / 0x1000, 0x80 + n / 0x40 % 0x40, 0x80 + n % 0x40]
    else [0xF0 + n / 0x4_0000, 0x80 + n / 0x1000 % 0x40, 0x80 + n / 0x40 % 0x40, 0x80 + n % 0x40]
  }

  lemma Sextets(n: nat)
    ensures n == n / 0x40 * 0x40 + n % 0x40 && 0 <= n % 0x40 < 0x40
    ensures n / 0x40 / 0x40 == n / 0x1000 && n / 0x1000 / 0x40 == n / 0x4_0000
  {
  }

  /** The bytes of a character denote it. */
  lemma Utf8Denotes(c: char)
    ensures Denotes(Utf8(c), c as nat)
  {
    var n := c as nat;
    Sextets(n);
    Sextets(n / 0x40);
    Sextets(n / 0x1000);
  }

  function Utf8Bytes(s: string): seq<nat> {
    if s == "" then [] else Utf8(s[0]) + Utf8Bytes(s[1..])
  }

  /** The size is the number of bytes. */
  lemma {:induction false} SizeIsBytes(s: string)
    ensures Utf8Length(s) == |Utf8Bytes(s)|
  {
    if s != "" {
      SizeIsBytes(s[1..]);
    }
  }

  lemma {:induction false} Utf8Append(a: string, b: string)
    ensures Utf8Length(a + b) == Utf8Length(a) + Utf8Length(b)
  {
    hide CharLength;
    if a == "" {
      assert a + b == b;
    } else {
      assert (a + b)[1..] == a[1..] + b;
      Utf8Append(a[1..], b);
    }
  }

  /** The first index without a segment, from `i` on. */
  function FirstMissing(names: set<Name>, date: string, i: nat): nat
    decreases |names|
  {
    if (date, i) in names then FirstMissing(names - {(date, i)}, date, i + 1) else i
  }

  /** The last segment if the line still fits, else the next one. */
  function SegmentFor(dir: Dir, date: string, bytes: nat): nat {
    var n := FirstMissing(dir.Keys, date, 0);
    if n > 0 && (date, n - 1) in dir && Utf8Length(dir[(date, n - 1)]) + bytes <= MAX_BYTES then n - 1 else n
  }

  function Written(dir: Dir, r: Record): Dir {
    var name := (r.date, SegmentFor(dir, r.date, Utf8Length(LineOf(r))));
    dir[name := (if name in dir then dir[name] else "") + LineOf(r)]
  }

  function WriteAll(dir: Dir, records: seq<Record>): Dir {
    if records == [] then dir else Written(WriteAll(dir, records[..|records| - 1]), records[|records| - 1])
  }

  /** The lines of one date, in the order they were written. */
  function LinesFor(records: seq<Record>, date: string): seq<string> {
    if records == [] then []
    else
      var r := records[|records| - 1];
      LinesFor(records[..|records| - 1], date) + if r.date == date then [LineOf(r)] else []
  }

  // ---- how a date's segments stand ------------------------------------------------------------------

  function Flatten<T>(groups: seq<seq<T>>): seq<T> {
    if groups == [] then [] else Flatten(groups[..|groups| - 1]) + groups[|groups| - 1]
  }

  function Size(group: seq<string>): nat {
    Utf8Length(Concat(group))
  }

  /**
   * The date's segments are numbered without gaps from zero; segment `i` holds the lines of group
   * `i`; it fits the limit or holds a single line; and the next one was started only because its
   * first line did not fit.
   */
  ghost predicate Stored(dir: Dir, date: string, groups: seq<seq<string>>) {
    && (forall i: nat :: (date, i) in dir <==> i < |groups|)
    && (forall i | 0 <= i < |groups| :: dir[(date, i)] == Concat(groups[i]) && groups[i] != [])
    && (forall i | 0 <= i < |groups| :: Size(groups[i]) <= MAX_BYTES || |groups[i]| == 1)
    && (forall i | 0 <= i < |groups| - 1 :: Size(groups[i]) + Utf8Length(groups[i + 1][0]) > MAX_BYTES)
  }

  /** Gaps would stop the scan early; without them it finds the end. */
  lemma {:induction false} ScanFindsEnd(names: set<Name>, date: string, i: nat, n: nat)
    requires i <= n && forall j: nat | i <= j :: (date, j) in names <==> j < n
    ensures FirstMissing(names, date, i) == n
    decreases n - i
  {
    if i < n {
      ScanFindsEnd(names - {(date, i)}, date, i + 1, n);
    }
  }

  /** Where one more line goes. */
  function Grown(groups: seq<seq<string>>, line: string): seq<seq<string>> {
    var n := |groups|;
    if n > 0 && Size(groups[n - 1]) + Utf8Length(line) <= MAX_BYTES then groups[..n - 1] + [groups[n - 1] + [line]]
    else groups + [[line]]
  }

  lemma ConcatOne(group: seq<string>, line: string)
    ensures Concat(group + [line]) == Concat(group) + line
  {
    ConcatAppend(group, [line]);
    assert [line][1..] == [];
    assert line + "" == line;
  }

  lemma FlattenGrown(groups: seq<seq<string>>, line: string)
    ensures Flatten(Grown(groups, line)) == Flatten(groups) + [line]
  {
    var n, after := |groups|, Grown(groups, line);
    if n > 0 && Size(groups[n - 1]) + Utf8Length(line) <= MAX_BYTES {
      assert after[..n - 1] == groups[..n - 1] && after[n - 1] == groups[n - 1] + [line];
    } else {
      assert after[..n] == groups;
    }
  }

  lemma SegmentIs(dir: Dir, groups: seq<seq<string>>, r: Record)
    requires Stored(dir, r.date, groups)
    ensures var n := |groups|;
      SegmentFor(dir, r.date, Utf8Length(LineOf(r)))
      == if n > 0 && Size(groups[n - 1]) + Utf8Length(LineOf(r)) <= MAX_BYTES then n - 1 else n
  {
    ScanFindsEnd(dir.Keys, r.date, 0, |groups|);
  }

  /** Writing a record adds its line to its date's groups. */
  lemma WriteStores(dir: Dir, groups: seq<seq<string>>, r: Record)
    requires Stored(dir, r.date, groups)
    ensures Stored(Written(dir, r), r.date, Grown(groups, LineOf(r)))
  {
    hide SegmentFor, Concat, Utf8Length;
    var n, line := |groups|, LineOf(r);
    SegmentIs(dir, groups, r);
    var after, groups' := Written(dir, r), Grown(groups, line);
    if n > 0 && Size(groups[n - 1]) + Utf8Length(line) <= MAX_BYTES {
      ConcatOne(groups[n - 1], line);
      Utf8Append(Concat(groups[n - 1]), line);
    } else {
      ConcatOne([], line);
      assert [] + [line] == [line] && Concat([]) + line == line by { EmptyConcat(line); }
    }
  }

  lemma EmptyConcat(line: string)
    ensures Concat([]) + line == line
  {
    assert Concat([]) == "";
  }

  lemma OtherDatesStay(dir: Dir, date: string, groups: seq<seq<string>>, r: Record)
    requires Stored(dir, date, groups) && r.date != date
    ensures Stored(Written(dir, r), date, groups)
  {
    hide SegmentFor, Concat;
  }

  function Groups(lines: seq<string>): seq<seq<string>> {
    if lines == [] then [] else Grown(Groups(lines[..|lines| - 1]), lines[|lines| - 1])
  }

  lemma {:induction false} GroupsFlatten(lines: seq<string>)
    ensures Flatten(Groups(lines)) == lines
  {
    hide Flatten, Grown;
    if lines == [] {
      assert Flatten<string>([]) == [] by { NothingFlat(); }
    } else {
      GroupsFlatten(lines[..|lines| - 1]);
      FlattenGrown(Groups(lines[..|lines| - 1]), lines[|lines| - 1]);
      assert lines == lines[..|lines| - 1] + [lines[|lines| - 1]];
    }
  }

  lemma NothingFlat()
    ensures Flatten<string>([]) == []
  {
  }

  /** Any records, written one by one into a directory without segments for the date. */
  lemma {:induction false} RecordsAreStored(dir: Dir, records: seq<Record>, date: string)
    requires Stored(dir, date, [])
    ensures Stored(WriteAll(dir, records), date, Groups(LinesFor(records, date)))
  {
    hide Stored, Written, Grown;
    if records != [] {
      var before, r := records[..|records| - 1], records[|records| - 1];
      RecordsAreStored(dir, before, date);
      var lines := LinesFor(before, date);
      if r.date == date {
        assert (lines + [LineOf(r)])[..|lines|] == lines;
        WriteStores(WriteAll(dir, before), Groups(lines), r);
      } else {
        assert lines + [] == lines;
        OtherDatesStay(WriteAll(dir, before), date, Groups(lines), r);
      }
    }
  }

  /** The segments of a date, in index order. */
  function Segments(dir: Dir, date: string, n: nat): seq<string>
    requires forall i: nat | i < n :: (date, i) in dir
  {
    seq(n, i requires 0 <= i < n => dir[(date, i)])
  }

  lemma FlattenStep(groups: seq<seq<string>>, n: nat)
    requires 0 < n <= |groups|
    ensures Flatten(groups[..n]) == Flatten(groups[..n - 1]) + groups[n - 1]
  {
    assert groups[..n][..n - 1] == groups[..n - 1];
  }

  lemma SegmentsStep(dir: Dir, date: string, groups: seq<seq<string>>, n: nat)
    requires Stored(dir, date, groups) && 0 < n <= |groups|
    ensures Segments(dir, date, n) == Segments(dir, date, n - 1) + [Concat(groups[n - 1])]
  {
  }

  lemma NoSegments(dir: Dir, date: string, groups: seq<seq<string>>)
    ensures Segments(dir, date, 0) == [] && Flatten(groups[..0]) == []
  {
  }

  lemma {:induction false} SegmentsJoin(dir: Dir, date: string, groups: seq<seq<string>>, n: nat)
    requires Stored(dir, date, groups) && n <= |groups|
    ensures Concat(Segments(dir, date, n)) == Concat(Flatten(groups[..n]))
  {
    hide Concat, Segments, Flatten;
    if n == 0 {
      NoSegments(dir, date, groups);
    } else {
      SegmentsJoin(dir, date, groups, n - 1);
      SegmentsStep(dir, date, groups, n);
      ConcatOne(Segments(dir, date, n - 1), Concat(groups[n - 1]));
      FlattenStep(groups, n);
      ConcatAppend(Flatten(groups[..n - 1]), groups[n - 1]);
    }
  }

  lemma {:induction false} LinesAreLines(records: seq<Record>, date: string)
    requires forall r | r in records :: '\n' !in r.json
    ensures LinesOk(LinesFor(records, date)) && forall l | l in LinesFor(records, date) :: Terminated(l)
  {
    if records != [] {
      var before, r := records[..|records| - 1], records[|records| - 1];
      assert forall q | q in before :: q in records;
      LinesAreLines(before, date);
      assert LineOf(r)[..|LineOf(r)| - 1] == r.json;
      assert r in records;
      var lines := LinesFor(before, date);
      assert forall i | 0 <= i < |lines| :: lines[i] in lines;
    }
  }

  /**
   * One writer, no deletions: the segments of a date, put together in index order, read back as
   * exactly the lines of the records of that date, in the order they were written.
   */
  lemma LogReadsBack(dir: Dir, records: seq<Record>, date: string)
    requires Stored(dir, date, []) && forall r | r in records :: '\n' !in r.json
    ensures var after := WriteAll(dir, records);
      var n := |Groups(LinesFor(records, date))|;
      && Stored(after, date, Groups(LinesFor(records, date)))
      && Flatten(Groups(LinesFor(records, date))) == LinesFor(records, date)
      && Concat(Segments(after, date, n)) == Concat(LinesFor(records, date))
      && Lines(Concat(Segments(after, date, n))) == LinesFor(records, date)
  {
    hide WriteAll, Groups, LinesFor, Lines, Concat;
    var lines := LinesFor(records, date);
    RecordsAreStored(dir, records, date);
    GroupsFlatten(lines);
    SegmentsJoin(WriteAll(dir, records), date, Groups(lines), |Groups(lines)|);
    assert Groups(lines)[..|Groups(lines)|] == Groups(lines);
    LinesAreLines(records, date);
    LinesOfConcat(lines);
  }

  // ---- the writer as it runs -----------------------------------------------------------------------------

  class LogDir {
    var files: Dir

    constructor ()
      ensures files == map[]
    {
      files := map[];
    }

    /** Scans the segments in order until one is missing. */
    method RequestLogPath(date: string, bytes: nat) returns (index: nat)
      ensures index == SegmentFor(files, date, bytes)
    {
      index := 0;
      var latest: Option<nat> := None;
      ghost var left := files.Keys;
      while (date, index) in files
        invariant FirstMissing(left, date, index) == FirstMissing(files.Keys, date, 0)
        invariant left <= files.Keys && forall i: nat | i >= index :: (date, i) in files <==> (date, i) in left
        invariant index == 0 ==> latest == None
        invariant index > 0 ==> (date, index - 1) in files && latest == Some(Utf8Length(files[(date, index - 1)]))
        decreases |left|
      {
        latest := Some(Utf8Length(files[(date, index)]));
        left := left - {(date, index)};
        index := index + 1;
      }
      if latest.Some? && latest.value + bytes <= MAX_BYTES {
        index := index - 1;
      }
    }

    method WriteRecord(r: Record)
      modifies this
      ensures files == Written(old(files), r)
    {
      var index := RequestLogPath(r.date, Utf8Length(LineOf(r)));
      var name := (r.date, index);
      files := files[name := (if name in files then files[name] else "") + LineOf(r)];
    }
  }

  lemma WroteOne(start: Dir, records: seq<Record>, r: Record)
    ensures WriteAll(start, records + [r]) == Written(WriteAll(start, records), r)
  {
    hide Written;
    assert (records + [r])[..|records|] == records;
  }

  /** What the writer's loop meets: a record, a quiet interval, or the closed channel. */
  datatype Event = Received(record: Record) | TimedOut | Closed

  function Records(events: seq<Event>): seq<Record> {
    if events == [] then []
    else (if events[0].Received? then [events[0].record] else []) + Records(events[1..])
  }

  lemma {:induction false} RecordsAppend(events: seq<Event>, e: Event)
    ensures Records(events + [e]) == Records(events) + if e.Received? then [e.record] else []
  {
    if events == [] {
      assert [e][1..] == [] && events + [e] == [e];
    } else {
      RecordsAppend(events[1..], e);
      assert (events + [e])[1..] == events[1..] + [e];
    }
  }

  lemma RecordsStep(events: seq<Event>, n: nat)
    requires n < |events|
    ensures var so := Records(events[..n]);
      Records(events[..n + 1]) == if events[n].Received? then so + [events[n].record] else so
  {
    assert events[..n + 1] == events[..n] + [events[n]];
    RecordsAppend(events[..n], events[n]);
  }

  lemma NothingReceived(dir: Dir)
    ensures Records([]) == [] && WriteAll(dir, []) == dir
  {
  }

  function NonEmpty<T>(batch: seq<T>): seq<seq<T>> {
    if batch == [] then [] else [batch]
  }

  /** What the database gets for the events to come, given the records that still wait. */
  function Batches(events: seq<Event>, batch: seq<Record>): seq<seq<Record>> {
    if events == [] then NonEmpty(batch)
    else
      match events[0]
      case Received(record) =>
        var grown := batch + [record];
        if |grown| >= BATCH_MAX then [grown] + Batches(events[1..], []) else Batches(events[1..], grown)
      case _ => NonEmpty(batch) + Batches(events[1..], [])
  }

  /** Consecutive pieces of `n`, the last one with what is left. */
  function Chunks<T>(xs: seq<T>, n: nat): seq<seq<T>>
    requires n > 0
    decreases |xs|
  {
    if |xs| <= n then NonEmpty(xs) else [xs[..n]] + Chunks(xs[n..], n)
  }

  function Burst(records: seq<Record>): (events: seq<Event>)
    ensures |events| == |records| && forall i | 0 <= i < |records| :: events[i] == Received(records[i])
  {
    seq(|records|, i requires 0 <= i < |records| => Received(records[i]))
  }

  /**
   * Whatever records come in before a quiet interval or the end, the database gets them in pieces of 256, the
   * last one with what is left; then it goes on afresh.
   */
  lemma BatchesAreChunks(records: seq<Record>, e: Event, rest: seq<Event>)
    requires !e.Received?
    ensures Batches(Burst(records) + [e] + rest, []) == Chunks(records, 256) + Batches(rest, [])
  {
    BurstGoesOn([], records, e, rest);
    assert [] + records == records;
  }

  lemma {:induction false} BurstGoesOn(batch: seq<Record>, records: seq<Record>, e: Event, rest: seq<Event>)
    requires !e.Received? && |batch| < BATCH_MAX
    ensures Batches(Burst(records) + [e] + rest, batch) == Chunks(batch + records, BATCH_MAX) + Batches(rest, [])
    decreases |records|
  {
    hide Chunks;
    var events := Burst(records) + [e] + rest;
    if records == [] {
      assert events[0] == e && events[1..] == rest;
      assert batch + records == batch;
      ShortChunk(batch, BATCH_MAX);
    } else {
      var grown := batch + [records[0]];
      assert events[0] == Received(records[0]);
      assert events[1..] == Burst(records[1..]) + [e] + rest;
      assert batch + records == grown + records[1..];
      if |grown| >= BATCH_MAX {
        BurstGoesOn([], records[1..], e, rest);
        assert [] + records[1..] == records[1..];
        FullChunk(grown, records[1..]);
      } else {
        BurstGoesOn(grown, records[1..], e, rest);
      }
    }
  }

  lemma ShortChunk<T>(xs: seq<T>, n: nat)
    requires |xs| < n
    ensures Chunks(xs, n) == NonEmpty(xs)
  {
  }

  lemma FullChunk<T>(xs: seq<T>, rest: seq<T>)
    requires xs != []
    ensures Chunks(xs + rest, |xs|) == [xs] + Chunks(rest, |xs|)
  {
    if rest == [] {
      assert xs + rest == xs;
    } else {
      assert (xs + rest)[..|xs|] == xs && (xs + rest)[|xs|..] == rest;
    }
  }

  /** Nothing lost, doubled or moved. */
  lemma {:induction false} BatchesFlatten(events: seq<Event>, batch: seq<Record>)
    ensures Flatten(Batches(events, batch)) == batch + Records(events)
    decreases |events|
  {
    hide Flatten;
    FlattenNonEmpty(batch);
    if events != [] {
      match events[0]
      case Received(record) =>
        var grown := batch + [record];
        assert grown + Records(events[1..]) == batch + Records(events);
        if |grown| >= BATCH_MAX {
          BatchesFlatten(events[1..], []);
          FlattenNonEmpty(grown);
          FlattenAppend([grown], Batches(events[1..], []));
        } else {
          BatchesFlatten(events[1..], grown);
        }
      case _ =>
        BatchesFlatten(events[1..], []);
        FlattenAppend(NonEmpty(batch), Batches(events[1..], []));
    }
  }

  lemma FlattenNonEmpty<T>(batch: seq<T>)
    ensures Flatten(NonEmpty(batch)) == batch
  {
    if batch != [] {
      assert [batch][..0] == [];
    }
  }

  lemma {:induction false} FlattenAppend<T>(a: seq<seq<T>>, b: seq<seq<T>>)
    ensures Flatten(a + b) == Flatten(a) + Flatten(b)
    decreases |b|
  {
    if b == [] {
      assert a + b == a;
    } else {
      assert (a + b)[..|a + b| - 1] == a + b[..|b| - 1];
      FlattenAppend(a, b[..|b| - 1]);
    }
  }

  class Writer {
    const dir: LogDir
    var batch: seq<Record>
    /** The batches handed to the database, in order. */
    var flushed: seq<seq<Record>>

    constructor (dir: LogDir)
      ensures batch == [] && flushed == [] && this.dir == dir
    {
      this.dir := dir;
      batch, flushed := [], [];
    }

    method Flush()
      modifies this
      ensures batch == [] && flushed == old(flushed) + NonEmpty(old(batch))
    {
      if batch != [] {
        flushed := flushed + [batch];
        batch := [];
      }
    }

    /** Every record goes to its segment at once; the database gets them in batches. */
    method Run(events: seq<Event>)
      requires batch == [] && flushed == []
      requires forall i | 0 <= i < |events| :: events[i].Closed? <==> i == |events| - 1
      modifies this, dir
      ensures batch == [] && flushed == Batches(events, [])
      ensures Flatten(flushed) == Records(events)
      ensures dir.files == WriteAll(old(dir.files), Records(events))
    {
      hide Records, WriteAll, Flatten, Batches;
      var n := 0;
      NothingReceived(dir.files);
      assert events[..n] == [] && events[n..] == events;
      assert [] + Batches(events, []) == Batches(events, []);
      while n < |events|
        invariant n <= |events|
        invariant flushed + Batches(events[n..], batch) == Batches(events, [])
        invariant dir.files == WriteAll(old(dir.files), Records(events[..n]))
        invariant n > 0 && events[n - 1].Closed? ==> batch == []
        invariant events == [] ==> batch == []
      {
        RecordsStep(events, n);
        Step(events[n], events[n + 1..], Records(events[..n]), old(dir.files));
        assert events[n..] == [events[n]] + events[n + 1..];
        n := n + 1;
      }
      assert events[..n] == events && events[n..] == [];
      NoneLeft(batch, flushed);
      BatchesFlatten(events, []);
    }

    method Step(e: Event, ghost rest: seq<Event>, ghost so: seq<Record>, ghost start: Dir)
      requires dir.files == WriteAll(start, so)
      modifies this, dir
      ensures flushed + Batches(rest, batch) == old(flushed) + Batches([e] + rest, old(batch))
      ensures e.Closed? ==> batch == []
      ensures dir.files == WriteAll(start, if e.Received? then so + [e.record] else so)
    {
      hide WriteAll, Written;
      BatchesStep(e, rest, batch, flushed);
      match e
      case Received(record) =>
        WroteOne(start, so, record);
        dir.WriteRecord(record);
        batch := batch + [record];
        if |batch| >= BATCH_MAX {
          Flush();
        }
      case TimedOut =>
        Flush();
      case Closed =>
        Flush();
    }
  }

  lemma NoneLeft(batch: seq<Record>, flushed: seq<seq<Record>>)
    requires batch == []
    ensures flushed + Batches([], batch) == flushed
    ensures [] + Records([]) == []
  {
  }

  lemma BatchesStep(e: Event, rest: seq<Event>, batch: seq<Record>, flushed: seq<seq<Record>>)
    ensures var all := flushed + Batches([e] + rest, batch);
      if e.Received? then
        var grown := batch + [e.record];
        && (|grown| >= BATCH_MAX ==> all == flushed + [grown] + Batches(rest, []))
        && (|grown| < BATCH_MAX ==> all == flushed + Batches(rest, grown))
      else all == flushed + NonEmpty(batch) + Batches(rest, [])
  {
    assert ([e] + rest)[1..] == rest;
  }
}
