/** The layout a segment writer leaves in the recovery directory: the
    segments it found are untouched, the ones it opened come after them in
    name order, hold the escaped records in arrival order, and every one but
    the last is full. Opening and appending keep that layout. */
module Rotation {
  import opened Bytes
  import opened Percent
  import opened Segments

  /** The lines written for a list of records, in order. */
  function EscapeAll(records: seq<Str>): (lines: seq<Str>)
    ensures |lines| == |records|
    decreases |records|
  {
    if records == [] then []
    else EscapeAll(records[..|records| - 1]) + [QueryEscape(records[|records| - 1])]
  }

  /** The segments that were there (`base`) are unchanged and older than
      `start`; every other segment is one the writer opened. */
  ghost predicate Kept(dir: Dir, base: Dir, start: nat, created: seq<Name>)
  {
    (forall n :: n in base ==> n in dir && dir[n] == base[n] && n.stamp < start) &&
    (forall n :: n in dir ==> n in base || n in created)
  }

  /** The segments the writer opened are fresh and named in order. */
  ghost predicate Fresh(dir: Dir, start: nat, clock: nat, compacted: bool, created: seq<Name>)
  {
    start <= clock &&
    (forall i :: 0 <= i < |created| ==>
       created[i] in dir && created[i].compacted == compacted && start <= created[i].stamp < clock) &&
    Sorted(created)
  }

  /** Every opened segment but the last is full. */
  ghost predicate Full(dir: Dir, created: seq<Name>, limit: nat)
    requires forall i :: 0 <= i < |created| ==> created[i] in dir
  {
    forall i :: 0 <= i < |created| - 1 ==> |dir[created[i]]| == limit
  }

  /** What a writer keeps true of the directory: the old segments are kept,
      the new ones are fresh, in order, hold the escaped `log`, and all but
      the last are full. */
  ghost predicate Segmented(dir: Dir, base: Dir, start: nat, clock: nat, compacted: bool,
                            created: seq<Name>, log: seq<Str>, limit: nat)
  {
    Kept(dir, base, start, created) &&
    Fresh(dir, start, clock, compacted, created) &&
    Flatten(dir, created) == EscapeAll(log) &&
    Full(dir, created, limit)
  }

  /** A fresh name: not in the directory, not among the opened segments,
      and after every one of them. */
  lemma FreshName(dir: Dir, base: Dir, start: nat, clock: nat, compacted: bool, created: seq<Name>)
    requires Kept(dir, base, start, created) && Fresh(dir, start, clock, compacted, created)
    ensures Name(compacted, clock) !in dir
    ensures forall i :: 0 <= i < |created| ==> Before(created[i], Name(compacted, clock))
  {
    forall n | n in dir ensures n.stamp < clock {
      if n !in base {
        var i :| 0 <= i < |created| && created[i] == n;
      }
    }
  }

  /** Opening a fresh segment keeps the old segments. */
  lemma OpenKept(dir: Dir, base: Dir, start: nat, created: seq<Name>, name: Name, d: Dir)
    requires Kept(dir, base, start, created) && name !in dir
    requires d.Keys == dir.Keys + {name}
    requires forall n :: n in dir ==> d[n] == dir[n]
    ensures Kept(d, base, start, created + [name])
  {
    forall n | n in d ensures n in base || n in created + [name] {
      if n != name {
        assert n in dir;
      }
    }
  }

  /** Opening a fresh segment keeps the opened ones fresh and in order. */
  lemma OpenFresh(dir: Dir, start: nat, clock: nat, compacted: bool, created: seq<Name>, d: Dir)
    requires Fresh(dir, start, clock, compacted, created)
    requires forall i :: 0 <= i < |created| ==> Before(created[i], Name(compacted, clock))
    requires d.Keys == dir.Keys + {Name(compacted, clock)}
    ensures Fresh(d, start, clock + 1, compacted, created + [Name(compacted, clock)])
  {
    var c := created + [Name(compacted, clock)];
    forall i | 0 <= i < |c| ensures c[i] in d && c[i].compacted == compacted && start <= c[i].stamp < clock + 1 {
      if i < |created| {
        assert c[i] == created[i];
      }
    }
    forall i, j | 0 <= i < j < |c| ensures Before(c[i], c[j]) {
      if j < |created| {
        assert c[i] == created[i] && c[j] == created[j];
      } else {
        assert c[i] == created[i];
      }
    }
  }

  /** The escaped records of a longer log. */
  lemma EscapeAllSnoc(log: seq<Str>, record: Str)
    ensures EscapeAll(log + [record]) == EscapeAll(log) + [QueryEscape(record)]
  {
    assert (log + [record])[..|log|] == log;
  }

  /** The segments opened so far, then the new one, hold the log, then the
      new record. */
  lemma OpenFlatten(dir: Dir, created: seq<Name>, log: seq<Str>, name: Name, record: Str)
    requires forall i :: 0 <= i < |created| ==> created[i] in dir && created[i] != name
    requires Flatten(dir, created) == EscapeAll(log)
    ensures Flatten(dir[name := [QueryEscape(record)]], created + [name]) == EscapeAll(log + [record])
  {
    var d := dir[name := [QueryEscape(record)]];
    var c := created + [name];
    FlattenFrame(dir, d, created);
    assert c[..|c| - 1] == created;
    EscapeAllSnoc(log, record);
  }

  /** The segment that was last is full when the next one opens, whatever
      the new one starts with. */
  lemma OpenFull(dir: Dir, created: seq<Name>, limit: nat, name: Name, first: seq<Str>)
    requires forall i :: 0 <= i < |created| ==> created[i] in dir && created[i] != name
    requires Full(dir, created, limit)
    requires created != [] ==> |dir[created[|created| - 1]]| == limit
    ensures forall i :: 0 <= i < |created| ==> (created + [name])[i] in dir[name := first]
    ensures Full(dir[name := first], created + [name], limit)
  {
    var c := created + [name];
    assert forall i :: 0 <= i < |created| ==> c[i] == created[i];
  }

  /** The segments opened so far, then a new empty one, hold the log. */
  lemma OpenEmptyFlatten(dir: Dir, created: seq<Name>, log: seq<Str>, name: Name)
    requires forall i :: 0 <= i < |created| ==> created[i] in dir && created[i] != name
    requires Flatten(dir, created) == EscapeAll(log)
    ensures Flatten(dir[name := []], created + [name]) == EscapeAll(log)
  {
    var d := dir[name := []];
    var c := created + [name];
    FlattenFrame(dir, d, created);
    assert c[..|c| - 1] == created;
  }

  /** Opening a fresh segment and writing one record to it. */
  lemma OpenKeeps(dir: Dir, base: Dir, start: nat, clock: nat, compacted: bool,
                  created: seq<Name>, log: seq<Str>, limit: nat, record: Str)
    requires Segmented(dir, base, start, clock, compacted, created, log, limit)
    requires created != [] ==> |dir[created[|created| - 1]]| == limit
    ensures var name := Name(compacted, clock);
      Segmented(dir[name := [QueryEscape(record)]], base, start, clock + 1, compacted,
                created + [name], log + [record], limit)
  {
    var name := Name(compacted, clock);
    var d := dir[name := [QueryEscape(record)]];
    var c := created + [name];
    FreshName(dir, base, start, clock, compacted, created);
    OpenKept(dir, base, start, created, name, d);
    OpenFresh(dir, start, clock, compacted, created, d);
    OpenFlatten(dir, created, log, name, record);
    OpenFull(dir, created, limit, name, [QueryEscape(record)]);
  }

  /** Opening a fresh segment with nothing in it yet. */
  lemma OpenEmptyKeeps(dir: Dir, base: Dir, start: nat, clock: nat, compacted: bool,
                       created: seq<Name>, log: seq<Str>, limit: nat)
    requires Segmented(dir, base, start, clock, compacted, created, log, limit)
    requires created != [] ==> |dir[created[|created| - 1]]| == limit
    ensures var name := Name(compacted, clock);
      Segmented(dir[name := []], base, start, clock + 1, compacted, created + [name], log, limit)
  {
    var name := Name(compacted, clock);
    var d := dir[name := []];
    FreshName(dir, base, start, clock, compacted, created);
    OpenKept(dir, base, start, created, name, d);
    OpenFresh(dir, start, clock, compacted, created, d);
    OpenEmptyFlatten(dir, created, log, name);
    OpenFull(dir, created, limit, name, []);
  }

  /** Appending to the last opened segment keeps the old segments and the order. */
  lemma AppendKeptFresh(dir: Dir, base: Dir, start: nat, clock: nat, compacted: bool,
                        created: seq<Name>, d: Dir)
    requires Kept(dir, base, start, created) && Fresh(dir, start, clock, compacted, created)
    requires created != []
    requires d.Keys == dir.Keys
    requires forall n :: n in dir && n != created[|created| - 1] ==> d[n] == dir[n]
    ensures Kept(d, base, start, created) && Fresh(d, start, clock, compacted, created)
  {
    assert created[|created| - 1] !in base;
  }

  /** The opened segments hold the log, then the new record, once it is
      appended to the last of them. */
  lemma AppendFlatten(dir: Dir, created: seq<Name>, log: seq<Str>, record: Str)
    requires Sorted(created) && created != []
    requires forall i :: 0 <= i < |created| ==> created[i] in dir
    requires Flatten(dir, created) == EscapeAll(log)
    ensures var last := created[|created| - 1];
      Flatten(dir[last := dir[last] + [QueryEscape(record)]], created) == EscapeAll(log + [record])
  {
    var k := |created| - 1;
    var last := created[k];
    var d := dir[last := dir[last] + [QueryEscape(record)]];
    assert last !in created[..k] by {
      forall i | 0 <= i < k ensures created[i] != last {
        assert Before(created[i], last);
      }
    }
    FlattenFrame(dir, d, created[..k]);
    EscapeAllSnoc(log, record);
  }

  /** Appending to the last segment leaves the others as full as they were. */
  lemma AppendFull(dir: Dir, created: seq<Name>, limit: nat, record: Str)
    requires Sorted(created) && created != []
    requires forall i :: 0 <= i < |created| ==> created[i] in dir
    requires Full(dir, created, limit)
    ensures var last := created[|created| - 1];
      Full(dir[last := dir[last] + [QueryEscape(record)]], created, limit)
  {
    var k := |created| - 1;
    var last := created[k];
    var d := dir[last := dir[last] + [QueryEscape(record)]];
    forall i | 0 <= i < k ensures |d[created[i]]| == limit {
      assert Before(created[i], last);
    }
  }

  /** Appending one record to the last segment. */
  lemma AppendKeeps(dir: Dir, base: Dir, start: nat, clock: nat, compacted: bool,
                    created: seq<Name>, log: seq<Str>, limit: nat, record: Str)
    requires Segmented(dir, base, start, clock, compacted, created, log, limit)
    requires created != []
    ensures var last := created[|created| - 1];
      Segmented(dir[last := dir[last] + [QueryEscape(record)]], base, start, clock, compacted,
                created, log + [record], limit)
  {
    var last := created[|created| - 1];
    var d := dir[last := dir[last] + [QueryEscape(record)]];
    AppendKeptFresh(dir, base, start, clock, compacted, created, d);
    AppendFlatten(dir, created, log, record);
    AppendFull(dir, created, limit, record);
  }

  /** Plain segments only add at the end of the log: replaying the
      directory reads the old segments, then the records written, in the
      order they were written. */
  lemma SegmentedLog(dir: Dir, base: Dir, start: nat, clock: nat,
                     created: seq<Name>, log: seq<Str>, limit: nat)
    requires Segmented(dir, base, start, clock, false, created, log, limit)
    ensures Log(dir) == Log(base) + EscapeAll(log)
  {
    var b, c := base.Keys, set n | n in created;
    assert dir.Keys == b + c;
    forall x, y | x in b && y in c ensures Before(x, y) {
      var i :| 0 <= i < |created| && created[i] == y;
    }
    ListingAppend(b, c);
    SortedCard(created);
    SortedUnique(Listing(c), created);
    var l := Listing(b);
    FlattenConcat(dir, l, created);
    FlattenFrame(dir, base, l);
  }

    /** Compacted segments come first: when every kept segment is a plain
      one, replaying the directory reads the records written, then the old
      segments. */
  lemma CompactedLog(dir: Dir, base: Dir, start: nat, clock: nat,
                     created: seq<Name>, log: seq<Str>, limit: nat)
    requires Segmented(dir, base, start, clock, true, created, log, limit)
    requires forall n :: n in base ==> !n.compacted
    ensures Log(dir) == EscapeAll(log) + Log(base)
  {
    var b, c := base.Keys, set n | n in created;
    assert dir.Keys == c + b;
    forall x, y | x in c && y in b ensures Before(x, y) {
      var i :| 0 <= i < |created| && created[i] == x;
    }
    ListingAppend(c, b);
    SortedCard(created);
    SortedUnique(Listing(c), created);
    var l := Listing(b);
    FlattenConcat(dir, created, l);
    FlattenFrame(dir, base, l);
  }

/** The most records a segment receives: RecoveryFileSize, or one when
      that setting is not positive (a new segment for every record). */
  function Limit(fileSize: int): (n: nat)
    ensures n >= 1 && (fileSize >= 1 ==> n == fileSize)
  {
    if fileSize >= 1 then fileSize else 1
  }

  /** What the writer loop keeps between records: the open segment (`file`)
      if any, the count of records sent to it (`recoveryFileSize`), and the
      clock that names the next segment. */
  datatype Cursor = Cursor(isOpen: bool, current: Name, written: int, clock: nat)

  /** The history behind a writer: the directory it started from, the
      first stamp it could use, the segments it opened and the records it
      wrote, in order. */
  datatype Trace = Trace(base: Dir, start: nat, created: seq<Name>, log: seq<Str>)

  /** The state of a writer: the segments are as `Segmented` says, the last
      one is the open one, and `written` counts what it holds. */
  ghost predicate Writing(dir: Dir, c: Cursor, t: Trace, fileSize: int, compacted: bool)
  {
    Segmented(dir, t.base, t.start, c.clock, compacted, t.created, t.log, Limit(fileSize)) &&
    (c.isOpen <==> t.created != []) &&
    (c.isOpen ==> c.current == t.created[|t.created| - 1] && c.written == |dir[c.current]| &&
                  1 <= c.written <= Limit(fileSize)) &&
    (!c.isOpen ==> c.written >= fileSize)
  }

  /** Whether the next record opens a new segment. */
  predicate Rotates(c: Cursor, fileSize: int)
  {
    c.written >= fileSize
  }

  /** One record: a new segment, named by the clock, when the current one
      has received fileSize records (or none is open); then the escaped
      record appended to the current segment. */
  function StepDir(dir: Dir, c: Cursor, fileSize: int, compacted: bool, record: Str): Dir
  {
    if Rotates(c, fileSize) then dir[Name(compacted, c.clock) := [QueryEscape(record)]]
    else if c.current in dir then dir[c.current := dir[c.current] + [QueryEscape(record)]]
    else dir
  }

  function StepCursor(c: Cursor, fileSize: int, compacted: bool): Cursor
  {
    if Rotates(c, fileSize) then Cursor(true, Name(compacted, c.clock), 1, c.clock + 1)
    else c.(written := c.written + 1)
  }

  /** The history after one record. */
  function StepTrace(t: Trace, c: Cursor, fileSize: int, compacted: bool, record: Str): Trace
  {
    t.(created := if Rotates(c, fileSize) then t.created + [Name(compacted, c.clock)] else t.created,
       log := t.log + [record])
  }

  /** A record that opens a new segment keeps the layout. */
  lemma OpenStep(dir: Dir, c: Cursor, t: Trace, fileSize: int, compacted: bool, record: Str)
    requires Writing(dir, c, t, fileSize, compacted) && Rotates(c, fileSize)
    ensures Writing(dir[Name(compacted, c.clock) := [QueryEscape(record)]], Cursor(true, Name(compacted, c.clock), 1, c.clock + 1),
                    t.(created := t.created + [Name(compacted, c.clock)], log := t.log + [record]), fileSize, compacted)
  {
    OpenKeeps(dir, t.base, t.start, c.clock, compacted, t.created, t.log, Limit(fileSize), record);
  }

  /** A record that goes to the open segment keeps the layout. */
  lemma AppendStep(dir: Dir, c: Cursor, t: Trace, fileSize: int, compacted: bool, record: Str)
    requires Writing(dir, c, t, fileSize, compacted) && !Rotates(c, fileSize)
    ensures c.isOpen && c.current in dir
    ensures Writing(dir[c.current := dir[c.current] + [QueryEscape(record)]], c.(written := c.written + 1),
                    t.(log := t.log + [record]), fileSize, compacted)
  {
    AppendKeeps(dir, t.base, t.start, c.clock, compacted, t.created, t.log, Limit(fileSize), record);
  }

  /** Writing one record keeps the layout: the record is the last line of
      the log, no segment exceeds the limit, the old segments are intact. */
  lemma StepKeeps(dir: Dir, c: Cursor, t: Trace, fileSize: int, compacted: bool, record: Str)
    requires Writing(dir, c, t, fileSize, compacted)
    ensures !Rotates(c, fileSize) ==> c.current in dir
    ensures Writing(StepDir(dir, c, fileSize, compacted, record), StepCursor(c, fileSize, compacted),
                    StepTrace(t, c, fileSize, compacted, record), fileSize, compacted)
  {
    if Rotates(c, fileSize) {
      OpenStep(dir, c, t, fileSize, compacted, record);
    } else {
      AppendStep(dir, c, t, fileSize, compacted, record);
      assert t.(created := t.created, log := t.log + [record]) == t.(log := t.log + [record]);
    }
  }

  /** No segment a writer opened is empty or holds more than the limit. */
  lemma WritingBounded(dir: Dir, c: Cursor, t: Trace, fileSize: int, compacted: bool)
    requires Writing(dir, c, t, fileSize, compacted)
    ensures forall n :: n in t.created ==> n in dir && 1 <= |dir[n]| <= Limit(fileSize)
  {
    forall n | n in t.created ensures n in dir && 1 <= |dir[n]| <= Limit(fileSize) {
      var i :| 0 <= i < |t.created| && t.created[i] == n;
    }
  }
}
