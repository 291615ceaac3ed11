/** cleanupRecovery (main.go, run as `lmq config.json cleanup`): the
    segments but the newest are replayed into one tally and removed, then
    every message with a positive count is written back as that many SET
    records, through the same rotation as writingRecovery, under
    "0"-prefixed names that sort ahead of every plain segment. The newest
    segment, which a running broker may still be appending to, is neither
    read nor removed.

    Failures to remove a file are only logged by the source; here removal
    always succeeds. The clock that names the new segments is past every
    stamp in the directory. */
module Compaction {
  import opened Bytes
  import opened Records
  import opened Tally
  import opened Segments
  import opened Rotation
  import opened Journal
  import opened Writer

  /** `for i := 0; i < count; i++`: `count` copies of `x`, none when the
      count is zero or below. */
  function Copies<T>(x: T, count: int): (s: seq<T>)
    ensures |s| == if count > 0 then count else 0
    ensures forall i :: 0 <= i < |s| ==> s[i] == x
    decreases count
  {
    if count <= 0 then [] else Copies(x, count - 1) + [x]
  }

  /** A run of copies holds its record as often as the count is positive,
      and nothing else. */
  lemma {:induction false} CopiesMultiset(r: Record, count: int)
    ensures forall y :: multiset(Copies(r, count))[y] == if y == r && count > 0 then count else 0
    decreases count
  {
    if count > 0 {
      CopiesMultiset(r, count - 1);
      assert multiset(Copies(r, count)) == multiset(Copies(r, count - 1)) + multiset{r};
    }
  }

  /** One more copy at the end of a log that ends with copies. */
  lemma CopiesSnoc(log: seq<Str>, before: seq<Str>, x: Str, i: nat)
    requires before == log + Copies(x, i)
    ensures before + [x] == log + Copies(x, i + 1)
  {
  }

  lemma Regroup<T>(a: seq<T>, b: seq<T>, c: seq<T>)
    ensures (a + b) + c == a + (b + c)
  {
  }

  /** Carrying texts extends by runs of copies. */
  lemma CarriesCopies(lines: seq<Str>, recs: seq<Record>, r: Record, count: int)
    requires Carries(lines, recs)
    ensures Carries(lines + Copies(Text(r), count), recs + Copies(r, count))
  {
    var l, s := lines + Copies(Text(r), count), recs + Copies(r, count);
    forall i | 0 <= i < |s| ensures l[i] == Text(s[i]) {
      if i >= |recs| {
        assert l[i] == Copies(Text(r), count)[i - |lines|];
        assert s[i] == Copies(r, count)[i - |recs|];
      }
    }
  }

  /** One more segment read: its lines come after those of the ones
      before it. */
  lemma FlattenPrefix(d: Dir, names: seq<Name>, k: nat)
    requires k < |names| && forall n :: n in names ==> n in d
    ensures Flatten(d, names[..k + 1]) == Flatten(d, names[..k]) + d[names[k]]
    ensures forall n :: n in names[..k + 1] <==> n in names[..k] || n == names[k]
  {
    assert names[..k + 1][..k] == names[..k] && names[..k + 1] == names[..k] + [names[k]];
  }

  /** The loop over the segments to read: each is replayed into the tally,
      file after file, then removed. */
  method ReplayAndRemove(d: Dir, names: seq<Name>) returns (t: Tally, rest: Dir)
    requires forall n :: n in names ==> n in d
    ensures t == Replay(map[], Flatten(d, names))
    ensures forall n :: n in rest <==> n in d && n !in names
    ensures forall n :: n in rest ==> rest[n] == d[n]
  {
    t, rest := map[], d;
    var k := 0;
    while k < |names|
      invariant 0 <= k <= |names|
      invariant t == Replay(map[], Flatten(d, names[..k]))
      invariant forall n :: n in rest <==> n in d && n !in names[..k]
      invariant forall n :: n in rest ==> rest[n] == d[n]
    {
      FlattenPrefix(d, names, k);
      ReplayConcat(map[], Flatten(d, names[..k]), d[names[k]]);
      t := ScanLines(t, d[names[k]]);
      // os.Remove once the file is read
      rest := rest - {names[k]};
      k := k + 1;
    }
    assert names[..k] == names;
  }

  /** The innermost loop: the SET record of one message, `count` times. */
  method WriteCopies(w: SegmentWriter, r: Record, count: int)
    requires w.Valid()
    modifies w
    ensures w.Valid() && w.trace.base == old(w.trace.base) && w.trace.start == old(w.trace.start)
    ensures w.trace.log == old(w.trace.log) + Copies(Text(r), count)
  {
    var recovery := GetRecovery(r.op, r.queue, r.message);
    var i := 0;
    while i < count
      invariant 0 <= i <= (if count > 0 then count else 0)
      invariant w.Valid() && w.trace.base == old(w.trace.base) && w.trace.start == old(w.trace.start)
      invariant w.trace.log == old(w.trace.log) + Copies(recovery, i)
    {
      ghost var before := w.trace.log;
      w.Write(recovery);
      CopiesSnoc(old(w.trace.log), before, recovery, i);
      i := i + 1;
    }
  }

  /** The records written for one queue so far: each message that is done
      as often as its count is positive. */
  ghost predicate QueueWritten(recs: seq<Record>, q: Str, counts: Counts, todo: set<Str>)
  {
    forall r :: multiset(recs)[r] == if r.op == SET && r.queue == q && r.message !in todo then Pos(counts, r.message) else 0
  }

  lemma QueueStep(recs: seq<Record>, q: Str, counts: Counts, todo: set<Str>, message: Str)
    requires QueueWritten(recs, q, counts, todo) && message in todo && message in counts
    ensures QueueWritten(recs + Copies(Record(SET, q, message), counts[message]), q, counts, todo - {message})
  {
    CopiesMultiset(Record(SET, q, message), counts[message]);
  }

  /** The middle loop: every message of one queue. */
  method WriteQueue(w: SegmentWriter, q: Str, counts: Counts) returns (ghost lines: seq<Str>, ghost recs: seq<Record>)
    requires w.Valid()
    modifies w
    ensures w.Valid() && w.trace.base == old(w.trace.base) && w.trace.start == old(w.trace.start)
    ensures w.trace.log == old(w.trace.log) + lines && Carries(lines, recs)
    ensures QueueWritten(recs, q, counts, {})
  {
    lines, recs := [], [];
    var todo := counts.Keys;
    while todo != {}
      invariant todo <= counts.Keys
      invariant w.Valid() && w.trace.base == old(w.trace.base) && w.trace.start == old(w.trace.start)
      invariant w.trace.log == old(w.trace.log) + lines && Carries(lines, recs)
      invariant QueueWritten(recs, q, counts, todo)
      decreases |todo|
    {
      var message :| message in todo;
      var r := Record(SET, q, message);
      WriteCopies(w, r, counts[message]);
      Regroup(old(w.trace.log), lines, Copies(Text(r), counts[message]));
      CarriesCopies(lines, recs, r, counts[message]);
      QueueStep(recs, q, counts, todo, message);
      lines, recs := lines + Copies(Text(r), counts[message]), recs + Copies(r, counts[message]);
      todo := todo - {message};
    }
  }

  /** The records written for the whole tally so far: each message of each
      queue that is done as often as its count is positive. */
  ghost predicate TallyWritten(recs: seq<Record>, t: Tally, todo: set<Str>)
  {
    forall r :: multiset(recs)[r] == if r.op == SET && r.queue !in todo then PosCount(t, r.queue, r.message) else 0
  }

  lemma TallyStep(recs: seq<Record>, more: seq<Record>, t: Tally, todo: set<Str>, q: Str)
    requires TallyWritten(recs, t, todo) && q in todo && q in t
    requires QueueWritten(more, q, t[q], {})
    ensures TallyWritten(recs + more, t, todo - {q})
  {
    forall r ensures multiset(recs + more)[r] == if r.op == SET && r.queue !in todo - {q} then PosCount(t, r.queue, r.message) else 0 {
      assert multiset(recs + more)[r] == multiset(recs)[r] + multiset(more)[r];
    }
  }

  /** Only SETs of queues of the tally are written, so they all read back
      when the tally's queue names hold no space. */
  lemma WrittenSets(recs: seq<Record>, t: Tally)
    requires TallyWritten(recs, t, {}) && SpacelessKeys(t)
    ensures AllSets(recs)
  {
    MethodsSpaceless();
    forall i | 0 <= i < |recs| ensures recs[i].op == SET && WellFormed(recs[i]) {
      assert recs[i] in multiset(recs);
    }
  }

  /** The outer loop: every queue of the tally. */
  method WriteTally(w: SegmentWriter, t: Tally) returns (ghost lines: seq<Str>, ghost recs: seq<Record>)
    requires w.Valid()
    modifies w
    ensures w.Valid() && w.trace.base == old(w.trace.base) && w.trace.start == old(w.trace.start)
    ensures w.trace.log == old(w.trace.log) + lines && Carries(lines, recs)
    ensures TallyWritten(recs, t, {})
  {
    lines, recs := [], [];
    var todo := t.Keys;
    while todo != {}
      invariant todo <= t.Keys
      invariant w.Valid() && w.trace.base == old(w.trace.base) && w.trace.start == old(w.trace.start)
      invariant w.trace.log == old(w.trace.log) + lines && Carries(lines, recs)
      invariant TallyWritten(recs, t, todo)
      decreases |todo|
    {
      var q :| q in todo;
      var more, added := WriteQueue(w, q, t[q]);
      Regroup(old(w.trace.log), lines, more);
      CarriesConcat(lines, recs, more, added);
      TallyStep(recs, added, t, todo, q);
      lines, recs := lines + more, recs + added;
      todo := todo - {q};
    }
  }

  /** The segments cleanupRecovery reads: all but the newest, in order. */
  function Older(d: Dir): (s: seq<Name>)
    ensures forall n :: n in s ==> n in d
  {
    var l := Listing(d.Keys);
    if l == [] then [] else l[..|l| - 1]
  }

  /** The newest segment, the one cleanupRecovery leaves alone. */
  function Newest(d: Dir): (n: Name)
    requires d != map[]
    ensures n in d && n !in Older(d)
    ensures Listing(d.Keys) == Older(d) + [n]
  {
    var l := Listing(d.Keys);
    assert l != [] by {
      var x :| x in d;
      assert x in l;
    }
    var k := |l| - 1;
    assert l == l[..k] + [l[k]];
    assert l[k] !in l[..k] by {
      forall i | 0 <= i < k ensures l[..k][i] != l[k] {
        assert Before(l[i], l[k]);
      }
    }
    l[k]
  }

  /** What is left of the old segments: the newest alone, or nothing in an
      empty directory. */
  lemma KeptLog(base: Dir, d: Dir)
    requires forall n :: n in base <==> n in d && n !in Older(d)
    requires forall n :: n in base ==> base[n] == d[n]
    ensures d == map[] ==> Log(base) == []
    ensures d != map[] ==> base.Keys == {Newest(d)} && Log(base) == d[Newest(d)]
  {
    LogSmall(base);
    if d == map[] {
      assert base == map[];
    } else {
      NewestAlone(base, d);
    }
  }

  /** Only the newest segment is not among the older ones. */
  lemma NewestAlone(base: Dir, d: Dir)
    requires d != map[]
    requires forall n :: n in base <==> n in d && n !in Older(d)
    ensures base.Keys == {Newest(d)}
  {
    var n := Newest(d);
    forall x | x in d ensures x in Older(d) || x == n {
      assert x in Listing(d.Keys);
    }
  }

  /** The segments a compacting writer leaves: the old ones it was given,
      untouched, and new compacted ones, neither empty nor over the limit. */
  lemma NewSegments(dir: Dir, c: Cursor, trace: Trace, fileSize: int, d: Dir)
    requires Writing(dir, c, trace, fileSize, true)
    requires forall n :: n in d ==> n.stamp < trace.start
    requires forall n :: n in trace.base <==> n in d && n !in Older(d)
    requires forall n :: n in trace.base ==> trace.base[n] == d[n]
    ensures forall n :: n in d ==> (n in dir <==> n !in Older(d)) && (n in dir ==> dir[n] == d[n])
    ensures forall n :: n in dir && n !in d ==> n.compacted && 1 <= |dir[n]| <= Limit(fileSize)
  {
    WritingBounded(dir, c, trace, fileSize, true);
    forall n | n in trace.created ensures n.compacted && n.stamp >= trace.start {
      var i :| 0 <= i < |trace.created| && trace.created[i] == n;
    }
  }

  /** What a compaction leaves, read back: the SET records written, then
      the newest segment when it is a plain one. */
  lemma CompactedOutput(dir: Dir, c: Cursor, trace: Trace, fileSize: int, recs: seq<Record>, d: Dir)
    requires Writing(dir, c, trace, fileSize, true) && Carries(trace.log, recs)
    requires forall n :: n in trace.base <==> n in d && n !in Older(d)
    requires forall n :: n in trace.base ==> trace.base[n] == d[n]
    ensures d == map[] ==> Log(dir) == EscapeAll(Texts(recs))
    ensures d != map[] && !Newest(d).compacted ==> Log(dir) == EscapeAll(Texts(recs)) + d[Newest(d)]
  {
    CarriesTexts(trace.log, recs);
    KeptLog(trace.base, d);
    if d == map[] || !Newest(d).compacted {
      CompactedLog(dir, trace.base, trace.start, c.clock, trace.created, trace.log, Limit(fileSize));
    }
  }

  /** cleanupRecovery: list and sort the segments; replay and remove all
      but the newest; then write the SET records of the positive counts
      through a writer that opens "0"-prefixed segments. The tally, the
      records written and the directory left are the results. */
  method CleanupRecovery(d: Dir, fileSize: int, clock: nat) returns (out: Dir, t: Tally, ghost recs: seq<Record>)
    requires forall n :: n in d ==> n.stamp < clock
    ensures t == Replay(map[], Flatten(d, Older(d)))
    ensures AllSets(recs) && TallyWritten(recs, t, {})
    ensures forall n :: n in d ==> (n in out <==> n !in Older(d)) && (n in out ==> out[n] == d[n])
    ensures forall n :: n in out && n !in d ==> n.compacted && 1 <= |out[n]| <= Limit(fileSize)
    ensures d == map[] ==> Log(out) == EscapeAll(Texts(recs))
    ensures d != map[] && !Newest(d).compacted ==> Log(out) == EscapeAll(Texts(recs)) + d[Newest(d)]
  {
    // the sorted listing, for i := 0; i < len(filenames)-1; i++
    var rest;
    t, rest := ReplayAndRemove(d, Older(d));
    var w := new SegmentWriter(rest, fileSize, true, clock);
    ghost var lines;
    lines, recs := WriteTally(w, t);
    out := w.dir;
    WrittenSets(recs, t);
    NewSegments(w.dir, w.cursor, w.trace, fileSize, d);
    CompactedOutput(w.dir, w.cursor, w.trace, fileSize, recs, d);
  }

  /** The written records name exactly the queues with a positive count. */
  lemma WrittenQueues(recs: seq<Record>, t: Tally, q: Str)
    requires AllSets(recs) && TallyWritten(recs, t, {})
    ensures (exists i :: 0 <= i < |recs| && recs[i].queue == q) <==> exists m :: PosCount(t, q, m) > 0
  {
    if exists i :: 0 <= i < |recs| && recs[i].queue == q {
      var i :| 0 <= i < |recs| && recs[i].queue == q;
      var r := recs[i];
      assert r in multiset(recs);
      assert PosCount(t, q, r.message) > 0;
    }
    if exists m :: PosCount(t, q, m) > 0 {
      var m :| PosCount(t, q, m) > 0;
      var r := Record(SET, q, m);
      assert multiset(recs)[r] > 0;
      assert r in recs;
      var i :| 0 <= i < |recs| && recs[i] == r;
      assert recs[i].queue == q;
    }
  }

  /** Replaying the records written gives each queue and message the
      positive part of its count in the tally: nothing for counts at or
      below zero, and no entry at all for a queue without a positive
      count. */
  lemma WrittenReplay(recs: seq<Record>, t: Tally)
    requires AllSets(recs) && TallyWritten(recs, t, {})
    ensures forall q, m :: Count(Replay(map[], EscapeAll(Texts(recs))), q, m) == PosCount(t, q, m)
    ensures forall q :: q in Replay(map[], EscapeAll(Texts(recs))) <==> exists m :: PosCount(t, q, m) > 0
  {
    assert AllWellFormed(recs);
    ReplayTexts(map[], recs);
    forall q ensures q in ApplyAll(map[], recs) <==> exists m :: PosCount(t, q, m) > 0 {
      ApplySetsQueues(map[], recs, q);
      WrittenQueues(recs, t, q);
    }
    forall q, m ensures Count(ApplyAll(map[], recs), q, m) == PosCount(t, q, m) {
      ApplySets(map[], recs, q, m);
      assert multiset(recs)[Record(SET, q, m)] == PosCount(t, q, m);
    }
  }

  /** The directory, read back: the older segments, then the newest. */
  lemma LogOlderNewest(d: Dir)
    requires d != map[]
    ensures Log(d) == Flatten(d, Older(d)) + d[Newest(d)]
  {
    var o, n := Older(d), Newest(d);
    assert (o + [n])[..|o|] == o;
  }

  /** When what it read has no count below zero and the newest segment is
      a plain one, a compaction changes no count of the replayed
      directory. */
  lemma CompactionKeepsCounts(d: Dir, out: Dir, t: Tally, recs: seq<Record>)
    requires d != map[] && !Newest(d).compacted
    requires t == Replay(map[], Flatten(d, Older(d))) && NonNegative(t)
    requires AllSets(recs) && TallyWritten(recs, t, {})
    requires Log(out) == EscapeAll(Texts(recs)) + d[Newest(d)]
    ensures Equiv(Replay(map[], Log(out)), Replay(map[], Log(d)))
  {
    var newest := d[Newest(d)];
    var written := EscapeAll(Texts(recs));
    LogOlderNewest(d);
    ReplayConcat(map[], Flatten(d, Older(d)), newest);
    ReplayConcat(map[], written, newest);
    WrittenReplay(recs, t);
    assert Equiv(Replay(map[], written), t);
    ReplayEquiv(Replay(map[], written), t, newest);
  }

  /** Without that condition a compaction can change a count: a GET
      replayed before its SET leaves -1, which is written back as nothing,
      so a later SET in the newest segment counts 1 instead of 0. */
  lemma NegativeCountLost(q: Str, m: Str)
    ensures var read := Apply(map[], Record(GET, q, m));
      PosCount(read, q, m) == 0 &&
      Count(Apply(read, Record(SET, q, m)), q, m) == 0 &&
      Count(Apply(map[], Record(SET, q, m)), q, m) == 1
  {
    MethodsDiffer();
  }

  /** Counts are not all a compaction can lose: a SET then a GET leaves the
      queue's entry with a zero count, so the replay still has the (empty)
      queue and a refill recreates it, but nothing is written back for it,
      and the rewritten segments have no such queue. */
  lemma EmptyQueueLost(q: Str, m: Str, recs: seq<Record>)
    requires AllSets(recs)
    requires TallyWritten(recs, ApplyAll(map[], [Record(SET, q, m), Record(GET, q, m)]), {})
    ensures q in ApplyAll(map[], [Record(SET, q, m), Record(GET, q, m)])
    ensures q !in Replay(map[], EscapeAll(Texts(recs)))
  {
    var added, taken := Record(SET, q, m), Record(GET, q, m);
    var read := ApplyAll(map[], [added, taken]);
    assert [added, taken][1..] == [taken] && [taken][1..] == [];
    var once := Apply(map[], added);
    assert read == ApplyAll(once, [taken]);
    assert ApplyAll(once, [taken]) == ApplyAll(Apply(once, taken), []);
    forall m' ensures PosCount(read, q, m') == 0 {
      assert Count(read, q, m') == 0;
    }
    WrittenReplay(recs, read);
  }
}
