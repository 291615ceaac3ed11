/** cleanup.go, the stand-alone compactor: every segment of the recovery
    directory, the newest included, is replayed into one tally (the same
    rules as the broker's startup replay) and removed right after it is
    read; then every message with a positive count is written back as that
    many SET records into plain segments.

    Its rotation differs from writingRecovery: a segment is opened before
    anything is written, and a new one as soon as the current one has
    received RecoveryFileSize records, so the last segment may be empty.
    Failures to open, write or remove a file are only logged by the
    source; here they do not happen. The clock that names the new segments
    is past every stamp in the directory. */
module Cleanup {
  import opened Bytes
  import opened Percent
  import opened Records
  import opened Tally
  import opened Segments
  import opened Rotation
  import opened Journal
  import opened Compaction

  /** The state of the eager writer: the segments are laid out as
      `Segmented` says; the open one is the last opened, and it holds
      `written` records, fewer than the limit. */
  ghost predicate Eager(dir: Dir, current: Name, written: int, clock: nat, trace: Trace, fileSize: int)
  {
    Segmented(dir, trace.base, trace.start, clock, false, trace.created, trace.log, Limit(fileSize)) &&
    trace.created != [] && current == trace.created[|trace.created| - 1] &&
    current in dir && written == |dir[current]| < Limit(fileSize)
  }

  /** Whether the record just written fills the open segment. */
  predicate Fills(written: int, fileSize: int)
  {
    written + 1 >= fileSize
  }

  /** The directory after one record: appended to the open segment, then
      a new empty segment if that one is now full. */
  function EagerDir(dir: Dir, current: Name, written: int, clock: nat, fileSize: int, record: Str): Dir
    requires current in dir
  {
    var appended := dir[current := dir[current] + [QueryEscape(record)]];
    if Fills(written, fileSize) then appended[Name(false, clock) := []] else appended
  }

  /** The history after one record. */
  function EagerTrace(trace: Trace, written: int, clock: nat, fileSize: int, record: Str): Trace
  {
    trace.(created := if Fills(written, fileSize) then trace.created + [Name(false, clock)] else trace.created,
           log := trace.log + [record])
  }

  /** The open segment, its count and the clock after one record. */
  function EagerCurrent(current: Name, written: int, clock: nat, fileSize: int): Name
  {
    if Fills(written, fileSize) then Name(false, clock) else current
  }

  function EagerWritten(written: int, fileSize: int): int
  {
    if Fills(written, fileSize) then 0 else written + 1
  }

  function EagerClock(written: int, clock: nat, fileSize: int): nat
  {
    if Fills(written, fileSize) then clock + 1 else clock
  }

  /** One record keeps the layout, whether or not it fills the segment. */
  lemma EagerStep(dir: Dir, current: Name, written: int, clock: nat, trace: Trace, fileSize: int, record: Str)
    requires Eager(dir, current, written, clock, trace, fileSize)
    ensures Eager(EagerDir(dir, current, written, clock, fileSize, record), EagerCurrent(current, written, clock, fileSize),
                  EagerWritten(written, fileSize), EagerClock(written, clock, fileSize),
                  EagerTrace(trace, written, clock, fileSize, record), fileSize)
  {
    var limit := Limit(fileSize);
    AppendKeeps(dir, trace.base, trace.start, clock, false, trace.created, trace.log, limit, record);
    var appended := dir[current := dir[current] + [QueryEscape(record)]];
    if Fills(written, fileSize) {
      OpenEmptyKeeps(appended, trace.base, trace.start, clock, false, trace.created, trace.log + [record], limit);
    }
  }

  /** The output file of cleanup.go and its `recoveryFileSize` counter. */
  class EagerWriter {
    /** The recovery directory. */
    var dir: Dir
    /** The open segment. */
    var current: Name
    /** Records sent to the open segment. */
    var written: int
    /** The stamp the next segment gets. */
    var clock: nat
    /** config.RecoveryFileSize */
    const fileSize: int
    /** The directory this writer started from, the segments it opened and
        the records it wrote. */
    ghost var trace: Trace

    ghost predicate Valid()
      reads this
    {
      Eager(dir, current, written, clock, trace, fileSize)
    }

    /** `recoveryFileSize := 0` and the first output file, opened empty. */
    constructor(d: Dir, fileSize: int, clock: nat)
      requires forall n :: n in d ==> n.stamp < clock
      ensures Valid() && this.fileSize == fileSize
      ensures dir == d[Name(false, clock) := []] && current == Name(false, clock)
      ensures written == 0 && this.clock == clock + 1
      ensures trace == Trace(d, clock, [Name(false, clock)], [])
    {
      OpenEmptyKeeps(d, d, clock, clock, false, [], [], Limit(fileSize));
      dir := d[Name(false, clock) := []];
      current := Name(false, clock);
      written := 0;
      this.clock := clock + 1;
      this.fileSize := fileSize;
      trace := Trace(d, clock, [Name(false, clock)], []);
    }

    /** One record: append it, count it, and once the count reaches
        RecoveryFileSize open a new, empty segment. */
    method Write(record: Str)
      requires Valid()
      modifies this
      ensures Valid()
      ensures dir == EagerDir(old(dir), old(current), old(written), old(clock), fileSize, record)
      ensures current == EagerCurrent(old(current), old(written), old(clock), fileSize)
      ensures written == EagerWritten(old(written), fileSize)
      ensures clock == EagerClock(old(written), old(clock), fileSize)
      ensures trace == EagerTrace(old(trace), old(written), old(clock), fileSize, record)
    {
      EagerStep(dir, current, written, clock, trace, fileSize, record);
      ghost var next := EagerTrace(trace, written, clock, fileSize, record);
      var d := dir[current := dir[current] + [QueryEscape(record)]];
      var c, n, k := current, written + 1, clock;
      if n >= fileSize {
        c, n, k := Name(false, clock), 0, clock + 1;
        d := d[c := []];
      }
      dir, current, written, clock, trace := d, c, n, k, next;
    }
  }

  /** The innermost loop: the SET record of one message, `count` times. */
  method WriteCopies(w: EagerWriter, r: Record, count: int)
    requires w.Valid()
    modifies w
    ensures w.Valid() && w.trace.base == old(w.trace.base) && w.trace.start == old(w.trace.start)
    ensures w.trace.log == old(w.trace.log) + Copies(Text(r), count)
  {
    var recovery := GetRecovery(r.op, r.queue, r.message);
    var i := 0;
    while i < count
      invariant 0 <= i <= (if count > 0 then count else 0)
      invariant w.Valid() && w.trace.base == old(w.trace.base) && w.trace.start == old(w.trace.start)
      invariant w.trace.log == old(w.trace.log) + Copies(recovery, i)
    {
      ghost var before := w.trace.log;
      w.Write(recovery);
      CopiesSnoc(old(w.trace.log), before, recovery, i);
      i := i + 1;
    }
  }

  /** The middle loop: every message of one queue. */
  method WriteQueue(w: EagerWriter, q: Str, counts: Counts) returns (ghost lines: seq<Str>, ghost recs: seq<Record>)
    requires w.Valid()
    modifies w
    ensures w.Valid() && w.trace.base == old(w.trace.base) && w.trace.start == old(w.trace.start)
    ensures w.trace.log == old(w.trace.log) + lines && Carries(lines, recs)
    ensures QueueWritten(recs, q, counts, {})
  {
    lines, recs := [], [];
    var todo := counts.Keys;
    while todo != {}
      invariant todo <= counts.Keys
      invariant w.Valid() && w.trace.base == old(w.trace.base) && w.trace.start == old(w.trace.start)
      invariant w.trace.log == old(w.trace.log) + lines && Carries(lines, recs)
      invariant QueueWritten(recs, q, counts, todo)
      decreases |todo|
    {
      var message :| message in todo;
      var r := Record(SET, q, message);
      WriteCopies(w, r, counts[message]);
      Regroup(old(w.trace.log), lines, Copies(Text(r), counts[message]));
      CarriesCopies(lines, recs, r, counts[message]);
      QueueStep(recs, q, counts, todo, message);
      lines, recs := lines + Copies(Text(r), counts[message]), recs + Copies(r, counts[message]);
      todo := todo - {message};
    }
  }

  /** The outer loop: every queue of the tally. */
  method WriteTally(w: EagerWriter, t: Tally) returns (ghost lines: seq<Str>, ghost recs: seq<Record>)
    requires w.Valid()
    modifies w
    ensures w.Valid() && w.trace.base == old(w.trace.base) && w.trace.start == old(w.trace.start)
    ensures w.trace.log == old(w.trace.log) + lines && Carries(lines, recs)
    ensures TallyWritten(recs, t, {})
  {
    lines, recs := [], [];
    var todo := t.Keys;
    while todo != {}
      invariant todo <= t.Keys
      invariant w.Valid() && w.trace.base == old(w.trace.base) && w.trace.start == old(w.trace.start)
      invariant w.trace.log == old(w.trace.log) + lines && Carries(lines, recs)
      invariant TallyWritten(recs, t, todo)
      decreases |todo|
    {
      var q :| q in todo;
      var more, added := WriteQueue(w, q, t[q]);
      Regroup(old(w.trace.log), lines, more);
      CarriesConcat(lines, recs, more, added);
      TallyStep(recs, added, t, todo, q);
      lines, recs := lines + more, recs + added;
      todo := todo - {q};
    }
  }

  /** No segment the eager writer opened holds more than the limit, and
      every one of them is plain and stamped from its first clock on. */
  lemma EagerBounded(dir: Dir, current: Name, written: int, clock: nat, trace: Trace, fileSize: int)
    requires Eager(dir, current, written, clock, trace, fileSize)
    ensures forall n :: n in trace.created ==> n in dir && !n.compacted && n.stamp >= trace.start && |dir[n]| <= Limit(fileSize)
  {
    forall n | n in trace.created ensures n in dir && !n.compacted && n.stamp >= trace.start && |dir[n]| <= Limit(fileSize) {
      var i :| 0 <= i < |trace.created| && trace.created[i] == n;
    }
  }

  /** What the eager writer leaves once it started from an empty
      directory: only the segments it opened, none over the limit, and
      read back they give the records it wrote. */
  lemma EagerOutput(dir: Dir, current: Name, written: int, clock: nat, trace: Trace, fileSize: int, recs: seq<Record>)
    requires Eager(dir, current, written, clock, trace, fileSize)
    requires trace.base == map[] && Carries(trace.log, recs)
    ensures Log(dir) == EscapeAll(Texts(recs)) && dir != map[]
    ensures forall n :: n in dir ==> !n.compacted && n.stamp >= trace.start && |dir[n]| <= Limit(fileSize)
  {
    CarriesTexts(trace.log, recs);
    LogSmall(trace.base);
    SegmentedLog(dir, trace.base, trace.start, clock, trace.created, trace.log, Limit(fileSize));
    EagerBounded(dir, current, written, clock, trace, fileSize);
  }

  /** main of cleanup.go: replay and remove every segment in name order,
      then write the SET records of the positive counts. The tally, the
      records written and the directory left are the results. */
  method Compact(d: Dir, fileSize: int, clock: nat) returns (out: Dir, t: Tally, ghost recs: seq<Record>)
    requires forall n :: n in d ==> n.stamp < clock
    ensures t == Replay(map[], Log(d))
    ensures AllSets(recs) && TallyWritten(recs, t, {})
    ensures Log(out) == EscapeAll(Texts(recs))
    ensures out != map[]
    ensures forall n :: n in out ==> n !in d && !n.compacted && |out[n]| <= Limit(fileSize)
  {
    var rest;
    t, rest := ReplayAndRemove(d, Listing(d.Keys));
    assert rest == map[];
    var w := new EagerWriter(rest, fileSize, clock);
    ghost var lines;
    lines, recs := WriteTally(w, t);
    out := w.dir;
    WrittenSets(recs, t);
    EagerOutput(w.dir, w.current, w.written, w.clock, w.trace, fileSize, recs);
  }

  /** Replaying the rewritten log gives every queue and message the
      positive part of the count the original log gave it; counts at or
      below zero, and queues without a positive count, are gone. */
  lemma CompactKeepsPositive(d: Dir, out: Dir, t: Tally, recs: seq<Record>)
    requires t == Replay(map[], Log(d))
    requires AllSets(recs) && TallyWritten(recs, t, {})
    requires Log(out) == EscapeAll(Texts(recs))
    ensures forall q, m :: Count(Replay(map[], Log(out)), q, m) == PosCount(Replay(map[], Log(d)), q, m)
    ensures forall q :: q in Replay(map[], Log(out)) <==> exists m :: PosCount(Replay(map[], Log(d)), q, m) > 0
  {
    WrittenReplay(recs, t);
  }
}
