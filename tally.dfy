/** The replay tally of the current broker: for each queue, for each message,
    how many more times it was set than got. Replaying a log line by line
    builds it; a refill or a compaction then turns it back into messages. */
module Tally {
  import opened Common
  import opened Bytes
  import opened Percent
  import opened Records

  type Counts = map<Str, int>
  type Tally = map<Str, Counts>

  /** The count of `m` in queue `q`; a missing entry reads as 0, as the
      `count, isMessageExist := ...; if !isMessageExist { count = 0 }` lookup does. */
  function Count(t: Tally, q: Str, m: Str): int
  {
    if q in t && m in t[q] then t[q][m] else 0
  }

  /** How many copies of `m` a refill or a compaction makes: counts at or
      below zero make none. */
  function PosCount(t: Tally, q: Str, m: Str): nat
  {
    if Count(t, q, m) > 0 then Count(t, q, m) else 0
  }

  /** A tally with no count below zero. */
  ghost predicate NonNegative(t: Tally)
  {
    forall q, m :: Count(t, q, m) >= 0
  }

  /** The positive part of a count, as the refill loop `for i := 0; i <
      count; i++` uses it. */
  function Pos(counts: Counts, m: Str): nat
  {
    if m in counts && counts[m] > 0 then counts[m] else 0
  }

  /** Every queue in the tally has a name that can be logged. */
  ghost predicate SpacelessKeys(t: Tally)
  {
    forall q :: q in t ==> ' ' !in q
  }

  /** The effect of one decoded record. Its queue gets an (empty) entry
      whatever the method; then SET adds one, GET takes one away (the count
      may go below zero), DEL drops the queue with all its counts, and any
      other method changes nothing more. No other queue is touched. */
  function Apply(t: Tally, r: Record): (u: Tally)
    ensures forall q :: q != r.queue ==> (q in u <==> q in t) && (q in t ==> u[q] == t[q])
    ensures r.queue in u <==> r.op != DEL
    ensures forall m :: Count(u, r.queue, m) ==
              (if r.op == DEL then 0
               else if r.op == SET && m == r.message then Count(t, r.queue, m) + 1
               else if r.op == GET && m == r.message then Count(t, r.queue, m) - 1
               else Count(t, r.queue, m))
  {
    var entry := if r.queue in t then t[r.queue] else map[];
    var count := if r.message in entry then entry[r.message] else 0;
    if r.op == SET then t[r.queue := entry[r.message := count + 1]]
    else if r.op == GET then t[r.queue := entry[r.message := count - 1]]
    else if r.op == DEL then t - {r.queue}
    else t[r.queue := entry]
  }

  /** One log line: skipped when it does not decode. */
  function Step(t: Tally, line: Str): Tally
  {
    match DecodeLine(line)
    case None => t
    case Some(r) => Apply(t, r)
  }

  /** Replaying lines in order. Decoded queue names never hold a space, so a
      tally that starts without such names never gets one. */
  function Replay(t: Tally, lines: seq<Str>): (u: Tally)
    ensures SpacelessKeys(t) ==> SpacelessKeys(u)
    decreases |lines|
  {
    if lines == [] then t else Replay(Step(t, lines[0]), lines[1..])
  }

  /** Replaying two logs one after the other is replaying their concatenation. */
  lemma {:induction false} ReplayConcat(t: Tally, a: seq<Str>, b: seq<Str>)
    ensures Replay(t, a + b) == Replay(Replay(t, a), b)
    decreases |a|
  {
    if a == [] {
      assert a + b == b;
    } else {
      assert (a + b)[0] == a[0] && (a + b)[1..] == a[1..] + b;
      ReplayConcat(Step(t, a[0]), a[1..], b);
    }
  }

  /** Two tallies that give every (queue, message) the same count. */
  ghost predicate Equiv(t1: Tally, t2: Tally)
  {
    forall q, m :: Count(t1, q, m) == Count(t2, q, m)
  }

  /** One record does the same to two tallies with equal counts. */
  lemma ApplyEquiv(t1: Tally, t2: Tally, r: Record)
    requires Equiv(t1, t2)
    ensures Equiv(Apply(t1, r), Apply(t2, r))
  {
    var u1, u2 := Apply(t1, r), Apply(t2, r);
    forall q, m ensures Count(u1, q, m) == Count(u2, q, m) {
      assert Count(t1, q, m) == Count(t2, q, m);
      if q != r.queue {
        assert Count(u1, q, m) == Count(t1, q, m) && Count(u2, q, m) == Count(t2, q, m);
      }
    }
  }

  /** Replay only ever looks at counts: tallies with equal counts stay equal
      under any further log. */
  lemma {:induction false} ReplayEquiv(t1: Tally, t2: Tally, lines: seq<Str>)
    requires Equiv(t1, t2)
    ensures Equiv(Replay(t1, lines), Replay(t2, lines))
    decreases |lines|
  {
    if lines != [] {
      match DecodeLine(lines[0])
      case None =>
        ReplayEquiv(t1, t2, lines[1..]);
      case Some(r) =>
        ApplyEquiv(t1, t2, r);
        ReplayEquiv(Apply(t1, r), Apply(t2, r), lines[1..]);
    }
  }

  /** Applying decoded records in order. */
  function ApplyAll(t: Tally, recs: seq<Record>): Tally
    decreases |recs|
  {
    if recs == [] then t else ApplyAll(Apply(t, recs[0]), recs[1..])
  }

  ghost predicate AllWellFormed(recs: seq<Record>)
  {
    forall i :: 0 <= i < |recs| ==> WellFormed(recs[i])
  }

  /** The line written for a well-formed record replays as that record. */
  lemma StepEncoded(t: Tally, r: Record)
    requires WellFormed(r)
    ensures Step(t, EncodeLine(r)) == Apply(t, r)
  {
    DecodeEncodeLine(r);
  }

  /** A SET followed by a GET of the same message cancels out (the queue
      keeps an entry). */
  lemma SetThenGet(t: Tally, q: Str, m: Str)
    ensures Equiv(ApplyAll(t, [Record(SET, q, m), Record(GET, q, m)]), t)
    ensures q in ApplyAll(t, [Record(SET, q, m), Record(GET, q, m)])
  {
    var recs := [Record(SET, q, m), Record(GET, q, m)];
    assert recs[1..] == [Record(GET, q, m)];
    var s := Apply(t, recs[0]);
    var u := Apply(s, recs[1]);
    assert ApplyAll(s, recs[1..]) == ApplyAll(u, recs[1..][1..]);
    assert recs[1..][1..] == [];
    assert ApplyAll(t, recs) == u;
    forall q', m' ensures Count(u, q', m') == Count(t, q', m') {
      if q' != q {
        assert Count(s, q', m') == Count(t, q', m');
      }
    }
  }

  /** A DEL forgets everything the queue had: tallies that differ only in
      that queue are the same after it, whatever follows. */
  lemma DelForgets(t1: Tally, t2: Tally, q: Str, rest: seq<Record>)
    requires forall p :: p != q ==> (p in t1 <==> p in t2) && (p in t1 ==> t1[p] == t2[p])
    ensures ApplyAll(t1, [Record(DEL, q, [])] + rest) == ApplyAll(t2, [Record(DEL, q, [])] + rest)
  {
    var recs := [Record(DEL, q, [])] + rest;
    assert recs[0] == Record(DEL, q, []) && recs[1..] == rest;
    var u1, u2 := Apply(t1, recs[0]), Apply(t2, recs[0]);
    assert u1 == u2;
  }

  /** A record with an unknown method changes no count but leaves its queue
      in the tally. */
  lemma UnknownMethod(t: Tally, r: Record)
    requires r.op != SET && r.op != GET && r.op != DEL
    ensures Equiv(ApplyAll(t, [r]), t)
    ensures r.queue in ApplyAll(t, [r])
  {
    var u := Apply(t, r);
    assert ApplyAll(t, [r]) == u;
    forall q', m' ensures Count(u, q', m') == Count(t, q', m') {
      if q' != r.queue {
        assert Count(u, q', m') == Count(t, q', m');
      }
    }
  }

  /** Records that are all well-formed SETs. */
  ghost predicate AllSets(recs: seq<Record>)
  {
    forall i :: 0 <= i < |recs| ==> recs[i].op == SET && WellFormed(recs[i])
  }

  /** Applying only SETs adds, to each count, the number of SETs of that
      message: the order of the SETs does not matter. */
  lemma {:induction false} ApplySets(t: Tally, recs: seq<Record>, q: Str, m: Str)
    requires AllSets(recs)
    ensures Count(ApplyAll(t, recs), q, m) == Count(t, q, m) + multiset(recs)[Record(SET, q, m)]
    decreases |recs|
  {
    if recs != [] {
      var r := recs[0];
      assert AllSets(recs[1..]) by {
        forall i | 0 <= i < |recs| - 1 ensures recs[1..][i].op == SET && WellFormed(recs[1..][i]) {
          assert recs[1..][i] == recs[i + 1];
        }
      }
      ApplySets(Apply(t, r), recs[1..], q, m);
      assert recs == [r] + recs[1..];
      assert multiset(recs) == multiset{r} + multiset(recs[1..]);
      if r.queue != q {
        assert Count(Apply(t, r), q, m) == Count(t, q, m);
      }
    }
  }

  /** Applying only SETs creates the entries of their queues and drops none:
      a queue is there afterwards exactly when it was before or some SET
      names it. */
  lemma {:induction false} ApplySetsQueues(t: Tally, recs: seq<Record>, q: Str)
    requires AllSets(recs)
    ensures q in ApplyAll(t, recs) <==> q in t || exists i :: 0 <= i < |recs| && recs[i].queue == q
    decreases |recs|
  {
    if recs != [] {
      var r, rest := recs[0], recs[1..];
      assert AllSets(rest) by {
        forall i | 0 <= i < |rest| ensures rest[i].op == SET && WellFormed(rest[i]) {
          assert rest[i] == recs[i + 1];
        }
      }
      ApplySetsQueues(Apply(t, r), rest, q);
      if exists i :: 0 <= i < |rest| && rest[i].queue == q {
        var i :| 0 <= i < |rest| && rest[i].queue == q;
        assert recs[i + 1].queue == q;
      }
      if exists i :: 0 <= i < |recs| && recs[i].queue == q {
        var i :| 0 <= i < |recs| && recs[i].queue == q;
        if i > 0 {
          assert rest[i - 1].queue == q;
        }
      }
    }
  }

  /** What Step does, in the order the replay loop finds it out. */
  lemma StepCases(t: Tally, line: Str)
    ensures QueryUnescape(line).None? ==> Step(t, line) == t
    ensures QueryUnescape(line).Some? && |SplitN(QueryUnescape(line).value, ' ', 3)| < 3 ==> Step(t, line) == t
    ensures QueryUnescape(line).Some? && |SplitN(QueryUnescape(line).value, ' ', 3)| >= 3 ==>
      var parts := SplitN(QueryUnescape(line).value, ' ', 3);
      Step(t, line) == Apply(t, Record(parts[0], parts[1], parts[2]))
  {
  }

  /** Apply on a queue entry and a count as the replay loop computes them. */
  lemma ApplyUnfold(t: Tally, r: Record, entry: Counts, count: int)
    requires entry == if r.queue in t then t[r.queue] else map[]
    requires count == if r.message in entry then entry[r.message] else 0
    ensures r.op == SET ==> Apply(t, r) == t[r.queue := entry[r.message := count + 1]]
    ensures r.op == GET ==> Apply(t, r) == t[r.queue := entry[r.message := count - 1]]
    ensures r.op == DEL ==> Apply(t, r) == t - {r.queue}
    ensures r.op != SET && r.op != GET && r.op != DEL ==> Apply(t, r) == t[r.queue := entry]
  {
  }

  /** The replay loop of initialRecovery and cleanupRecovery over the lines
      of one file: unescape, split into three fields, make sure the queue has
      an entry, then count by method; a line that fails a step is skipped. */
  method ScanLines(t0: Tally, lines: seq<Str>) returns (t: Tally)
    ensures t == Replay(t0, lines)
  {
    t := t0;
    var i := 0;
    while i < |lines|
      invariant 0 <= i <= |lines|
      invariant Replay(t, lines[i..]) == Replay(t0, lines)
    {
      assert lines[i..][0] == lines[i] && lines[i..][1..] == lines[i + 1..];
      StepCases(t, lines[i]);
      ghost var next := Step(t, lines[i]);
      assert Replay(next, lines[i + 1..]) == Replay(t0, lines);
      var line := QueryUnescape(lines[i]);
      i := i + 1;
      if line.None? {
        assert t == next;
        continue;
      }
      var parts := SplitN(line.value, ' ', 3);
      if |parts| < 3 {
        assert t == next;
        continue;
      }
      var op, queue, message := parts[0], parts[1], parts[2];
      assert next == Apply(t, Record(op, queue, message));
      // the queue's entry, created empty when missing, and the message's count
      var entry := if queue in t then t[queue] else map[];
      var count := if message in entry then entry[message] else 0;
      ApplyUnfold(t, Record(op, queue, message), entry, count);
      if op == SET {
        t := t[queue := entry[message := count + 1]];
        assert t == next;
      } else if op == GET {
        t := t[queue := entry[message := count - 1]];
        assert t == next;
      } else if op == DEL {
        t := t - {queue};
        assert t == next;
      } else {
        t := t[queue := entry];
        assert t == next;
      }
    }
  }
}
