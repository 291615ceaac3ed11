/** writingRecovery of the current broker: records taken from the recovery
    channel are escaped and appended, one per line, to the current segment;
    a new segment is opened before the first record and whenever the
    current one has received RecoveryFileSize records. The compactor of the
    same file writes its output the same way, under "0"-prefixed names.

    The goroutine is modelled as a sequential step (`Write` per record,
    `Drain` for the whole channel); the clock that names segments is a
    counter that advances at each new segment. */
module Writer {
  import opened Common
  import opened Bytes
  import opened Percent
  import opened Channels
  import opened Segments
  import opened Rotation

  /** Moving the front of what is pending to the end of what is written. */
  lemma Shift(log: seq<Str>, pending: seq<Str>)
    requires pending != []
    ensures (log + [pending[0]]) + pending[1..] == log + pending
  {
    assert pending == [pending[0]] + pending[1..];
  }

  /** The lines of a plain writer's directory: the segments it started
      from, then its records, escaped, in order. */
  lemma WritingLog(dir: Dir, cursor: Cursor, trace: Trace, fileSize: int)
    requires Writing(dir, cursor, trace, fileSize, false)
    ensures Log(dir) == Log(trace.base) + EscapeAll(trace.log)
  {
    SegmentedLog(dir, trace.base, trace.start, cursor.clock, trace.created, trace.log, Limit(fileSize));
  }

  class SegmentWriter {
    /** The recovery directory. */
    var dir: Dir
    /** `file` and `recoveryFileSize` of the writer loop, and the clock. */
    var cursor: Cursor
    /** config.RecoveryFileSize */
    const fileSize: int
    /** Whether the segments get the compactor's "0" prefix. */
    const compacted: bool
    /** The directory this writer started from, the segments it opened and
        the records it wrote. */
    ghost var trace: Trace

    ghost predicate Valid()
      reads this
    {
      Writing(dir, cursor, trace, fileSize, compacted)
    }

    /** `var file *os.File = nil; recoveryFileSize := config.RecoveryFileSize`,
        with a clock that is past every stamp already in the directory. */
    constructor(d: Dir, fileSize: int, compacted: bool, clock: nat)
      requires forall n :: n in d ==> n.stamp < clock
      ensures Valid()
      ensures this.dir == d && this.fileSize == fileSize && this.compacted == compacted
      ensures cursor.clock == clock && !cursor.isOpen
      ensures trace == Trace(d, clock, [], [])
    {
      dir := d;
      cursor := Cursor(false, Name(compacted, clock), fileSize, clock);
      this.fileSize := fileSize;
      this.compacted := compacted;
      trace := Trace(d, clock, [], []);
    }

    /** One record: rotate if the current segment has received fileSize
        records (or none is open), then append the escaped record. */
    method Write(record: Str)
      requires Valid()
      modifies this
      ensures Valid()
      ensures dir == StepDir(old(dir), old(cursor), fileSize, compacted, record)
      ensures cursor == StepCursor(old(cursor), fileSize, compacted)
      ensures trace == StepTrace(old(trace), old(cursor), fileSize, compacted, record)
    {
      StepKeeps(dir, cursor, trace, fileSize, compacted, record);
      ghost var next := StepTrace(trace, cursor, fileSize, compacted, record);
      var line := QueryEscape(record);
      var d, c;
      if cursor.written >= fileSize {
        // recoveryFileSize >= config.RecoveryFileSize: open a new segment
        var name := Name(compacted, cursor.clock);
        d, c := dir[name := [line]], Cursor(true, name, 0, cursor.clock + 1);
      } else {
        d, c := dir[cursor.current := dir[cursor.current] + [line]], cursor;
      }
      c := c.(written := c.written + 1);
      assert d == StepDir(dir, cursor, fileSize, compacted, record);
      assert c == StepCursor(cursor, fileSize, compacted);
      dir, cursor, trace := d, c, next;
    }

    /** The writer loop over what the recovery channel holds: every record,
        oldest first, and the channel is left empty. */
    method Drain(ch: Chan) returns (rest: Chan)
      requires Valid()
      modifies this
      ensures Valid()
      ensures trace.base == old(trace.base) && trace.log == old(trace.log) + ch.items
      ensures rest.items == [] && rest.capacity == ch.capacity
    {
      rest := ch;
      while rest.CanReceive()
        invariant Valid() && trace.base == old(trace.base)
        invariant rest.capacity == ch.capacity
        invariant trace.log + rest.items == old(trace.log) + ch.items
        decreases |rest.items|
      {
        var record := rest.Front();
        ghost var pending, before := rest.items, trace.log;
        rest := rest.Receive();
        Write(record);
        Shift(before, pending);
      }
    }

    /** A writer of plain (uncompacted) segments only adds at the end of the
        log: replaying the directory reads what was there, then the records
        written, in the order they were written. */
    lemma LogAppends()
      requires Valid() && !compacted
      ensures Log(dir) == Log(trace.base) + EscapeAll(trace.log)
    {
      WritingLog(dir, cursor, trace, fileSize);
    }
  }
}
