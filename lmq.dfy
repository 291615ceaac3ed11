/** LMQ.go, the older broker: fixed-size queues (MessageChannelSize, no
    growth), every stored message tagged `uid@` with the stamp of its set,
    and one recovery file of base64 lines that is replayed with set
    semantics at startup and then removed, while the writer only ever
    appends to it.

    Transport is left out as in the current broker: a handler takes its
    path parameters already extracted (the message without the leading
    '/') and answers with a `Status`; the stamp of a set is a parameter. A
    panic of a handler is answered 500 by the router, and is modelled as
    `Internal`. */
module Lmq {
  import opened Common
  import opened Bytes
  import Base64
  import opened Records
  import Tally
  import opened Channels
  import opened Payload
  import opened Journal
  import Server
  import Compaction

  // ---------------------------------------------------------------------
  // uid tagging

  /** `uid + "@" + message`, the uid being strconv.FormatInt of the stamp. */
  function Tag(now: nat, message: Str): Str
  {
    Decimal(now) + ['@'] + message
  }

  /** The split of getHandler at the first '@' gives back the uid and the
      message set, even when the message holds '@' itself: the uid, a
      decimal, holds none. */
  lemma UidRoundTrip(now: nat, message: Str)
    ensures Cut(Tag(now, message), '@') == Some((Decimal(now), message))
  {
    var uid := Decimal(now);
    assert '@' !in uid by {
      forall i | 0 <= i < |uid| ensures uid[i] != '@' {
        assert '0' <= uid[i] <= '9';
      }
    }
    CutOf(uid, '@', message);
  }

  // ---------------------------------------------------------------------
  // Recovery lines: base64 of the record text

  /** The line writingRecovery appends for a record text. */
  function EncodeLine64(text: Str): (line: Str)
    ensures ' ' !in line && '\n' !in line
  {
    Base64.EncodeIsOneLine(text);
    Base64.Encode(text)
  }

  /** The lines written for record texts, one per text, in order. */
  function Lines64(texts: seq<Str>): (lines: seq<Str>)
    ensures |lines| == |texts|
  {
    seq(|texts|, i requires 0 <= i < |texts| => EncodeLine64(texts[i]))
  }

  /** What the replay loop makes of one line: None when it is not valid
      base64 or has fewer than three fields (the line is skipped). */
  function DecodeLine64(line: Str): Option<Record>
  {
    match Base64.DecodeString(line)
    case None => None
    case Some(text) => ParseRecord(text)
  }

  /** Every well-formed record read back from its line is the record
      written. */
  lemma DecodeEncodeLine64(r: Record)
    requires WellFormed(r)
    ensures DecodeLine64(EncodeLine64(Text(r))) == Some(r)
  {
    Base64.DecodeStringEncode(Text(r));
    TextSpaces(r);
    var p := ParseRecord(Text(r));
    TextInjective(p.value, r);
  }

  // ---------------------------------------------------------------------
  // Replay with set semantics

  /** `queuesMap` of initialRecovery: for each queue, the messages it
      holds, each once. */
  type Sets = map<Str, set<Str>>

  /** The messages of a queue; a missing queue holds none. */
  function Members(s: Sets, q: Str): set<Str>
  {
    if q in s then s[q] else {}
  }

  /** The effect of one decoded record. Its queue gets an (empty) entry
      whatever the method; then SET adds the message (a second SET of it
      changes nothing), GET removes it if there, DEL drops the queue, and
      any other method changes nothing more. No other queue is touched. */
  function SetApply(s: Sets, r: Record): (u: Sets)
    ensures forall q :: q != r.queue ==> (q in u <==> q in s) && (q in s ==> u[q] == s[q])
    ensures r.queue in u <==> r.op != DEL
    ensures forall m :: m in Members(u, r.queue) <==>
              r.op != DEL && (if m == r.message then r.op == SET || (r.op != GET && m in Members(s, r.queue))
                              else m in Members(s, r.queue))
  {
    var entry := Members(s, r.queue);
    if r.op == SET then s[r.queue := entry + {r.message}]
    else if r.op == GET then s[r.queue := entry - {r.message}]
    else if r.op == DEL then s - {r.queue}
    else s[r.queue := entry]
  }

  /** One log line: skipped when it does not decode. */
  function SetStep(s: Sets, line: Str): Sets
  {
    match DecodeLine64(line)
    case None => s
    case Some(r) => SetApply(s, r)
  }

  /** Replaying lines in order. */
  function SetReplay(s: Sets, lines: seq<Str>): Sets
    decreases |lines|
  {
    if lines == [] then s else SetReplay(SetStep(s, lines[0]), lines[1..])
  }

  /** Applying decoded records in order. */
  function SetApplyAll(s: Sets, recs: seq<Record>): Sets
    decreases |recs|
  {
    if recs == [] then s else SetApplyAll(SetApply(s, recs[0]), recs[1..])
  }

  /** A message set twice is held once: the second SET changes nothing. */
  lemma SetTwice(s: Sets, q: Str, m: Str)
    ensures SetApply(SetApply(s, Record(SET, q, m)), Record(SET, q, m)) == SetApply(s, Record(SET, q, m))
  {
    var u := SetApply(s, Record(SET, q, m));
    assert Members(u, q) + {m} == Members(u, q);
  }

  /** Unlike the counts of the current broker, sets do not remember how
      often a message was set: two SETs and one GET leave the message in
      the count tally and out of the set tally. */
  lemma SetsForgetMultiplicity(q: Str, m: Str)
    ensures var recs := [Record(SET, q, m), Record(SET, q, m), Record(GET, q, m)];
      m !in Members(SetApplyAll(map[], recs), q) && Tally.Count(Tally.ApplyAll(map[], recs), q, m) == 1
  {
    MethodsDiffer();
    var r1, r2 := Record(SET, q, m), Record(GET, q, m);
    var recs := [r1, r1, r2];
    assert recs[1..] == [r1, r2] && recs[1..][1..] == [r2] && recs[1..][1..][1..] == [];
    var s1 := SetApply(map[], r1);
    var s2 := SetApply(s1, r1);
    var s3 := SetApply(s2, r2);
    assert SetApplyAll(s3, []) == s3;
    assert SetApplyAll(s2, [r2]) == s3;
    assert SetApplyAll(s1, [r1, r2]) == s3;
    assert m !in Members(s3, q);
    var t1 := Tally.Apply(map[], r1);
    var t2 := Tally.Apply(t1, r1);
    var t3 := Tally.Apply(t2, r2);
    assert Tally.ApplyAll(t3, []) == t3;
    assert Tally.ApplyAll(t2, [r2]) == t3;
    assert Tally.ApplyAll(t1, [r1, r2]) == t3;
    assert Tally.Count(t3, q, m) == 1;
  }

  /** Replaying the lines written for well-formed records applies exactly
      those records, in order. */
  lemma {:induction false} SetReplayLines(s: Sets, texts: seq<Str>, recs: seq<Record>)
    requires Carries(texts, recs) && Tally.AllWellFormed(recs)
    ensures SetReplay(s, Lines64(texts)) == SetApplyAll(s, recs)
    decreases |recs|
  {
    if recs != [] {
      var lines := Lines64(texts);
      assert lines[1..] == Lines64(texts[1..]);
      DecodeEncodeLine64(recs[0]);
      assert Carries(texts[1..], recs[1..]) && Tally.AllWellFormed(recs[1..]) by {
        forall i | 0 <= i < |recs| - 1 ensures texts[1..][i] == Text(recs[1..][i]) && WellFormed(recs[1..][i]) {
          assert texts[1..][i] == texts[i + 1] && recs[1..][i] == recs[i + 1];
        }
      }
      SetReplayLines(SetApply(s, recs[0]), texts[1..], recs[1..]);
    }
  }

  /** Replaying two logs one after the other is replaying their
      concatenation. */
  lemma {:induction false} SetReplayConcat(s: Sets, a: seq<Str>, b: seq<Str>)
    ensures SetReplay(s, a + b) == SetReplay(SetReplay(s, a), b)
    decreases |a|
  {
    if a == [] {
      assert a + b == b;
    } else {
      assert (a + b)[0] == a[0] && (a + b)[1..] == a[1..] + b;
      SetReplayConcat(SetStep(s, a[0]), a[1..], b);
    }
  }

  /** What the file holds once the writer has appended the texts of
      `recs`: replaying it applies `recs` to what replaying it before gave. */
  lemma ReplayAfterAppend(before: seq<Str>, texts: seq<Str>, recs: seq<Record>)
    requires Carries(texts, recs) && Tally.AllWellFormed(recs)
    ensures SetReplay(map[], before + Lines64(texts)) == SetApplyAll(SetReplay(map[], before), recs)
  {
    SetReplayConcat(map[], before, Lines64(texts));
    SetReplayLines(SetReplay(map[], before), texts, recs);
  }

  /** SetApply on a queue entry as the replay loop computes it. */
  lemma SetApplyUnfold(s: Sets, r: Record, entry: set<Str>)
    requires entry == Members(s, r.queue)
    ensures r.op == SET ==> SetApply(s, r) == s[r.queue := entry + {r.message}]
    ensures r.op == GET ==> SetApply(s, r) == s[r.queue := entry - {r.message}]
    ensures r.op == DEL ==> SetApply(s, r) == s - {r.queue}
    ensures r.op != SET && r.op != GET && r.op != DEL ==> SetApply(s, r) == s[r.queue := entry]
  {
  }

  /** The scan loop of initialRecovery: decode (CR and LF skipped), split into three fields,
      make sure the queue has an entry, then act by method; a line that
      fails a step is skipped. */
  method ScanLines64(lines: seq<Str>) returns (s: Sets)
    ensures s == SetReplay(map[], lines)
  {
    s := map[];
    var i := 0;
    while i < |lines|
      invariant 0 <= i <= |lines|
      invariant SetReplay(s, lines[i..]) == SetReplay(map[], lines)
    {
      assert lines[i..][0] == lines[i] && lines[i..][1..] == lines[i + 1..];
      ghost var next := SetStep(s, lines[i]);
      var text := Base64.DecodeString(lines[i]);
      i := i + 1;
      if text.None? {
        continue;
      }
      var parts := SplitN(text.value, ' ', 3);
      if |parts| < 3 {
        assert ParseRecord(text.value).None?;
        continue;
      }
      var op, queue, message := parts[0], parts[1], parts[2];
      assert next == SetApply(s, Record(op, queue, message));
      var entry := if queue in s then s[queue] else {};
      SetApplyUnfold(s, Record(op, queue, message), entry);
      if op == SET {
        s := s[queue := entry + {message}];
      } else if op == GET {
        s := s[queue := entry - {message}];
      } else if op == DEL {
        s := s - {queue};
      } else {
        s := s[queue := entry];
      }
    }
  }

  // ---------------------------------------------------------------------
  // Refill

  /** A queue refilled from a set of messages: each message at most once,
      only messages of the set, and a message is left out only when the
      queue is full. */
  ghost predicate Filled(items: seq<Str>, messages: set<Str>, size: nat)
  {
    (forall i, j :: 0 <= i < j < |items| ==> items[i] != items[j]) &&
    (forall i :: 0 <= i < |items| ==> items[i] in messages) &&
    (|items| < size ==> forall m :: m in messages ==> m in items)
  }

  /** One more message of the set: queued when the queue has room. */
  lemma FilledStep(items: seq<Str>, done: set<Str>, size: nat, m: Str)
    requires Filled(items, done, size) && m !in done && |items| <= size
    ensures |items| < size ==> Filled(items + [m], done + {m}, size)
    ensures |items| >= size ==> Filled(items, done + {m}, size)
  {
    if |items| < size {
      var u := items + [m];
      forall i, j | 0 <= i < j < |u| ensures u[i] != u[j] {
        if j == |items| {
          assert u[i] == items[i] && items[i] in done;
        } else {
          assert u[i] == items[i] && u[j] == items[j];
        }
      }
      assert forall i :: 0 <= i < |items| ==> u[i] == items[i];
    }
  }

  /** The SETs logged again for one queue: each of a message it holds;
      unless the recovery channel has filled up (`full`), one for each. */
  ghost predicate QueueRelogged(q: Str, items: seq<Str>, added: seq<Record>, full: bool)
  {
    (forall i :: 0 <= i < |added| ==> added[i].op == SET && added[i].queue == q && added[i].message in items) &&
    (!full ==> forall m :: m in items ==> Record(SET, q, m) in added)
  }

  /** A message queued, and its SET logged when `sent`. */
  lemma QueueReloggedStep(q: Str, items: seq<Str>, added: seq<Record>, full: bool, m: Str, sent: bool)
    requires QueueRelogged(q, items, added, full)
    ensures QueueRelogged(q, items + [m], if sent then added + [Record(SET, q, m)] else added, full || !sent)
  {
    var a := if sent then added + [Record(SET, q, m)] else added;
    forall i | 0 <= i < |a| ensures a[i].op == SET && a[i].queue == q && a[i].message in items + [m] {
      if i < |added| {
        assert a[i] == added[i];
      }
    }
    if sent && !full {
      forall x | x in items + [m] ensures Record(SET, q, x) in a {
        if x != m {
          assert Record(SET, q, x) in added;
        }
      }
    }
  }

  /** Every record is the SET of a message a queue holds. */
  ghost predicate Relogged(queues: map<Str, Chan>, recs: seq<Record>)
  {
    forall i :: 0 <= i < |recs| ==>
      recs[i].op == SET && recs[i].queue in queues && recs[i].message in queues[recs[i].queue].items
  }

  /** Every message the queues hold has its SET among the records. */
  ghost predicate AllRelogged(queues: map<Str, Chan>, recs: seq<Record>)
  {
    forall q, m :: q in queues && m in queues[q].items ==> Record(SET, q, m) in recs
  }

  /** Adding a queue the records do not name keeps them relogged. */
  lemma ReloggedNew(queues: map<Str, Chan>, recs: seq<Record>, q: Str, ch: Chan, more: seq<Record>)
    requires Relogged(queues, recs) && q !in queues
    requires forall i :: 0 <= i < |more| ==> more[i].op == SET && more[i].queue == q && more[i].message in ch.items
    ensures Relogged(queues[q := ch], recs + more)
  {
    var u := queues[q := ch];
    forall i | 0 <= i < |recs + more|
      ensures (recs + more)[i].op == SET && (recs + more)[i].queue in u && (recs + more)[i].message in u[(recs + more)[i].queue].items
    {
      if i < |recs| {
        assert (recs + more)[i] == recs[i];
      } else {
        assert (recs + more)[i] == more[i - |recs|];
      }
    }
  }

  /** Adding a queue whose messages all have their SET keeps every message
      relogged. */
  lemma AllReloggedNew(queues: map<Str, Chan>, recs: seq<Record>, q: Str, ch: Chan, more: seq<Record>)
    requires AllRelogged(queues, recs)
    requires forall m :: m in ch.items ==> Record(SET, q, m) in more
    ensures AllRelogged(queues[q := ch], recs + more)
  {
  }

  /** What the loop over one queue's set keeps: `done` are the messages
      looked at so far. */
  ghost predicate Refilling(q: Str, size: nat, recovery: Chan, done: set<Str>,
                            ch: Chan, rec: Chan, texts: seq<Str>, added: seq<Record>)
  {
    ch.Valid() && ch.capacity == size && Filled(ch.items, done, size) &&
    rec.Valid() && rec.capacity == recovery.capacity &&
    rec.items == recovery.items + texts && Carries(texts, added) &&
    QueueRelogged(q, ch.items, added, !rec.CanSend()) &&
    (rec.CanSend() ==> recovery.CanSend())
  }

  /** One message looked at: queued if the queue has room, and then its SET
      sent if the recovery channel has room. */
  lemma RefillStep(q: Str, size: nat, recovery: Chan, done: set<Str>,
                   ch: Chan, rec: Chan, texts: seq<Str>, added: seq<Record>, m: Str)
    requires Refilling(q, size, recovery, done, ch, rec, texts, added) && m !in done
    ensures var r := Record(SET, q, m);
      if !ch.CanSend() then Refilling(q, size, recovery, done + {m}, ch, rec, texts, added)
      else if !rec.CanSend() then Refilling(q, size, recovery, done + {m}, ch.Send(m), rec, texts, added)
      else Refilling(q, size, recovery, done + {m}, ch.Send(m), rec.Send(Text(r)), texts + [Text(r)], added + [r])
  {
    FilledStep(ch.items, done, size, m);
    var sent := rec.CanSend();
    QueueReloggedStep(q, ch.items, added, !sent, m, sent);
    var r := Record(SET, q, m);
    if ch.CanSend() && sent {
      CarriesConcat(texts, added, [Text(r)], [r]);
    }
  }

  /** The loop over one queue's set in initialRecovery: a new channel of
      `size`, then each message, in map order, queued if there is room
      (dropped otherwise), and its SET sent to the recovery channel if that
      has room (dropped otherwise). `texts` are the texts sent. */
  method Refill(q: Str, messages: set<Str>, size: nat, recovery: Chan)
    returns (ch: Chan, rec: Chan, ghost texts: seq<Str>, ghost added: seq<Record>)
    requires recovery.Valid()
    ensures ch.Valid() && ch.capacity == size && Filled(ch.items, messages, size)
    ensures rec.Valid() && rec.capacity == recovery.capacity
    ensures rec.items == recovery.items + texts && Carries(texts, added)
    ensures QueueRelogged(q, ch.items, added, !rec.CanSend())
    ensures rec.CanSend() ==> recovery.CanSend()
  {
    ch, rec, texts, added := Make(size), recovery, [], [];
    var todo := messages;
    ghost var done: set<Str> := {};
    while todo != {}
      invariant todo <= messages && done == messages - todo
      invariant Refilling(q, size, recovery, done, ch, rec, texts, added)
      decreases |todo|
    {
      var m :| m in todo;
      RefillStep(q, size, recovery, done, ch, rec, texts, added, m);
      if ch.CanSend() {
        ch := ch.Send(m);
        if rec.CanSend() {
          var r := Record(SET, q, m);
          rec := rec.Send(GetRecovery(SET, q, m));
          texts, added := texts + [Text(r)], added + [r];
        }
      }
      todo := todo - {m};
      done := done + {m};
    }
  }

  /** The queues refilled so far (`done`) from the replayed sets, and the
      SETs logged again for them; unless the recovery channel has filled
      up (`full`), every message queued has its SET logged. */
  ghost predicate Restored(queues: map<Str, Chan>, s: Sets, size: nat, added: seq<Record>, done: set<Str>, full: bool)
  {
    done <= s.Keys && queues.Keys == done &&
    (forall q :: q in queues ==> queues[q].capacity == size && Filled(queues[q].items, s[q], size)) &&
    Relogged(queues, added) && (!full ==> AllRelogged(queues, added))
  }

  /** One more queue refilled keeps the refill as `Restored` says. */
  lemma RestoredStep(queues: map<Str, Chan>, s: Sets, size: nat, added: seq<Record>, done: set<Str>, full: bool,
                     q: Str, ch: Chan, more: seq<Record>, full': bool)
    requires Restored(queues, s, size, added, done, full) && q in s && q !in done
    requires ch.capacity == size && Filled(ch.items, s[q], size)
    requires QueueRelogged(q, ch.items, more, full') && (!full' ==> !full)
    ensures Restored(queues[q := ch], s, size, added + more, done + {q}, full')
  {
    ReloggedNew(queues, added, q, ch, more);
    if !full' {
      AllReloggedNew(queues, added, q, ch, more);
    }
  }

  class Broker {
    /** `queues`: queue name to channel. */
    var queues: map<Str, Chan>
    /** `recoveryCh`: the records waiting for the writer. */
    var recovery: Chan
    /** The recovery file at RecoveryFilePath: its lines, or None when it
        does not exist. */
    var file: Option<seq<Str>>
    /** config.MessageChannelSize: the capacity of every queue. */
    const messageSize: nat
    /** The records in the recovery channel. */
    ghost var pending: seq<Record>

    ghost predicate Valid()
      reads this
    {
      recovery.Valid() && Carries(recovery.items, pending) &&
      forall q :: q in queues ==> queues[q].Valid() && queues[q].capacity == messageSize
    }

    /** `queues := make(map[string]chan string)` and `recoveryCh :=
        make(chan string, config.RecoveryChannelSize)`, over the recovery
        file as it is on disk. */
    constructor(messageSize: nat, recoverySize: nat, file: Option<seq<Str>>)
      ensures Valid()
      ensures this.messageSize == messageSize && queues == map[] && recovery == Make(recoverySize)
      ensures this.file == file && pending == []
    {
      this.messageSize := messageSize;
      queues := map[];
      recovery := Make(recoverySize);
      this.file := file;
      pending := [];
    }

    /** The non-blocking send of a record to the recovery channel. */
    method SendRecovery(r: Record) returns (sent: bool)
      requires Carries(recovery.items, pending) && recovery.Valid()
      modifies this
      ensures sent == old(recovery).CanSend()
      ensures recovery == Server.Offer(old(recovery), Text(r)) && Carries(recovery.items, pending)
      ensures pending == if sent then old(pending) + [r] else old(pending)
      ensures queues == old(queues) && file == old(file)
    {
      sent := recovery.CanSend();
      if sent {
        recovery := recovery.Send(Text(r));
        pending := pending + [r];
      }
    }

    /** setHandler: create the queue if missing, before the message is
        looked at; reject an empty message (400) and a file reference to a
        missing file (406); tag the message with its uid and queue it. A
        full queue answers 500 and nothing is logged; a full recovery
        channel answers 500, but the message stays queued. */
    method Set(q: Str, message: Str, lookup: Lookup, now: nat) returns (status: Status)
      requires Valid()
      modifies this
      ensures Valid() && file == old(file)
      ensures q in queues && queues == old(queues)[q := queues[q]]
      ensures var ch := Server.Opened(old(queues), q, messageSize);
        if message == [] || AdmitOlder(message, lookup).Some? then
          queues[q] == ch && recovery == old(recovery) && pending == old(pending) &&
          status == (if message == [] then BadRequest else NotAcceptable)
        else if !ch.CanSend() then
          queues[q] == ch && recovery == old(recovery) && pending == old(pending) && status == Internal
        else
          queues[q] == ch.Send(Tag(now, message)) &&
          recovery == Server.Offer(old(recovery), GetRecovery(SET, q, Tag(now, message))) &&
          pending == (if old(recovery).CanSend() then old(pending) + [Record(SET, q, Tag(now, message))] else old(pending)) &&
          (status == Ok <==> old(recovery).CanSend()) && (status == Ok || status == Internal)
    {
      var ch := Server.Opened(queues, q, messageSize);
      queues := queues[q := ch];
      if message == [] {
        return BadRequest;
      }
      var refused := AdmitOlder(message, lookup);
      if refused.Some? {
        return refused.value;
      }
      var tagged := Decimal(now) + ['@'] + message;
      if !ch.CanSend() {
        return Internal;
      }
      queues := queues[q := ch.Send(tagged)];
      var sent := SendRecovery(Record(SET, q, tagged));
      status := if sent then Ok else Internal;
    }

    /** getHandler: 404 for a missing queue, 410 for an empty one;
        otherwise the oldest message is taken and its GET logged, then
        split at its first '@' into the uid and the message. A full
        recovery channel answers 500 and the message is lost; so does a
        message without '@', whose GET stays logged. */
    method Get(q: Str) returns (status: Status, uid: Str, message: Str)
      requires Valid()
      modifies this
      ensures Valid()
      ensures q !in old(queues) ==> status == NotFound && uid == [] && message == [] && unchanged(this)
      ensures q in old(queues) && !old(queues)[q].CanReceive() ==>
        status == Gone && uid == [] && message == [] && unchanged(this)
      ensures q in old(queues) && old(queues)[q].CanReceive() ==>
        var stored := old(queues)[q].Front();
        queues == old(queues)[q := old(queues)[q].Receive()] && file == old(file) &&
        recovery == Server.Offer(old(recovery), GetRecovery(GET, q, stored)) &&
        pending == (if old(recovery).CanSend() then old(pending) + [Record(GET, q, stored)] else old(pending)) &&
        (status == Ok <==> old(recovery).CanSend() && '@' in stored) && (status == Ok || status == Internal) &&
        (status == Ok ==> Cut(stored, '@') == Some((uid, message))) &&
        (status != Ok ==> uid == [] && message == [])
    {
      if q !in queues {
        return NotFound, [], [];
      }
      var ch := queues[q];
      if !ch.CanReceive() {
        return Gone, [], [];
      }
      var stored := ch.Front();
      queues := queues[q := ch.Receive()];
      var sent := SendRecovery(Record(GET, q, stored));
      if !sent {
        return Internal, [], [];
      }
      var parts := Cut(stored, '@');
      if parts.None? {
        // messageParts[1] is out of range: the handler panics
        return Internal, [], [];
      }
      status, uid, message := Ok, parts.value.0, parts.value.1;
    }

    /** skipHandler: 404 for a missing queue, 400 when the number does not
        parse (`number` is what strconv.Atoi gives, None on error);
        otherwise the queue turns `n` times. Nothing is logged. */
    method Skip(q: Str, number: Option<int>) returns (status: Status)
      requires Valid()
      modifies this
      ensures Valid()
      ensures recovery == old(recovery) && pending == old(pending) && file == old(file)
      ensures q !in old(queues) ==> status == NotFound && queues == old(queues)
      ensures q in old(queues) && number.None? ==> status == BadRequest && queues == old(queues)
      ensures q in old(queues) && number.Some? ==>
        status == Ok &&
        queues == old(queues)[q := Chan(Rotate(old(queues)[q].items, number.value), old(queues)[q].capacity)]
    {
      if q !in queues {
        return NotFound;
      }
      if number.None? {
        return BadRequest;
      }
      var ch := Channels.Skip(queues[q], number.value);
      RotateKeeps(queues[q].items, number.value);
      queues := queues[q := ch];
      status := Ok;
    }

    /** deleteHandler: 404 for a missing queue; otherwise the queue is
        dropped and `DEL q ` logged. A full recovery channel answers 500,
        but the queue stays dropped. */
    method Delete(q: Str) returns (status: Status)
      requires Valid()
      modifies this
      ensures Valid()
      ensures q !in old(queues) ==> status == NotFound && unchanged(this)
      ensures q in old(queues) ==>
        queues == old(queues) - {q} && file == old(file) &&
        recovery == Server.Offer(old(recovery), GetRecovery(DEL, q, [])) &&
        pending == (if old(recovery).CanSend() then old(pending) + [Record(DEL, q, [])] else old(pending)) &&
        (status == Ok <==> old(recovery).CanSend()) && (status == Ok || status == Internal)
    {
      if q !in queues {
        return NotFound;
      }
      queues := queues - {q};
      var sent := SendRecovery(Record(DEL, q, []));
      status := if sent then Ok else Internal;
    }

    /** The refill of one queue in initialRecovery: a new channel of
        MessageChannelSize, then each message of the set, in map order,
        queued if there is room (dropped otherwise), and its SET logged if
        the recovery channel has room (dropped otherwise). */
    method RefillQueue(q: Str, messages: set<Str>) returns (ghost added: seq<Record>)
      requires Valid()
      modifies this
      ensures Valid() && file == old(file)
      ensures q in queues && queues == old(queues)[q := queues[q]]
      ensures queues[q].capacity == messageSize && Filled(queues[q].items, messages, messageSize)
      ensures pending == old(pending) + added
      ensures QueueRelogged(q, queues[q].items, added, !recovery.CanSend())
      ensures recovery.CanSend() ==> old(recovery).CanSend()
    {
      var ch, rec;
      ghost var texts;
      ch, rec, texts, added := Refill(q, messages, messageSize, recovery);
      CarriesConcat(recovery.items, pending, texts, added);
      queues, recovery, pending := queues[q := ch], rec, pending + added;
    }

    /** The refill loop of initialRecovery: every queue of the replayed
        sets, in map order. */
    method RefillAll(s: Sets) returns (ghost added: seq<Record>)
      requires Valid() && queues == map[]
      modifies this
      ensures Valid() && file == old(file)
      ensures Restored(queues, s, messageSize, added, s.Keys, !recovery.CanSend())
      ensures pending == old(pending) + added
    {
      added := [];
      var todo := s.Keys;
      ghost var done: set<Str> := {};
      while todo != {}
        invariant todo <= s.Keys && done == s.Keys - todo
        invariant Valid() && file == old(file)
        invariant Restored(queues, s, messageSize, added, done, !recovery.CanSend())
        invariant pending == old(pending) + added
        decreases |todo|
      {
        var q :| q in todo;
        ghost var before, recs, full, logged := queues, added, !recovery.CanSend(), pending;
        ghost var more := RefillQueue(q, s[q]);
        RestoredStep(before, s, messageSize, recs, done, full, q, queues[q], more, !recovery.CanSend());
        Compaction.Regroup(old(pending), recs, more);
        added := added + more;
        todo := todo - {q};
        done := done + {q};
      }
    }

    /** initialRecovery, on the empty registry before the writer starts:
        nothing happens when the file cannot be opened; otherwise its
        lines are replayed into sets, every queue of the replay is refilled
        from its set, and the file is removed. The SETs logged again wait
        in the recovery channel, as far as it has room. */
    method Recover() returns (ghost added: seq<Record>)
      requires Valid() && queues == map[]
      modifies this
      ensures Valid()
      ensures old(file).None? ==> unchanged(this) && added == []
      ensures old(file).Some? ==>
        var s := SetReplay(map[], old(file).value);
        file.None? && pending == old(pending) + added &&
        Restored(queues, s, messageSize, added, s.Keys, !recovery.CanSend())
    {
      added := [];
      if file.None? {
        // os.OpenFile failed
        return;
      }
      var s := ScanLines64(file.value);
      added := RefillAll(s);
      // os.Remove(config.RecoveryFilePath)
      file := None;
    }

    /** writingRecovery taking everything in the recovery channel, in
        order: each text is appended to the file as a base64 line (the file
        is created if missing, never rotated). ReplayAfterAppend says what
        replaying the file then gives. */
    method Flush()
      requires Valid()
      modifies this
      ensures Valid() && queues == old(queues)
      ensures recovery == Make(old(recovery).capacity) && pending == []
      ensures file == Some(old(file).GetOr([]) + Lines64(old(recovery).items))
    {
      var lines := file.GetOr([]);
      ghost var k := 0;
      while recovery.CanReceive()
        invariant 0 <= k <= |old(recovery).items|
        invariant recovery.items == old(recovery).items[k..] && recovery.capacity == old(recovery).capacity
        invariant lines == old(file).GetOr([]) + Lines64(old(recovery).items[..k])
        invariant queues == old(queues)
        decreases |recovery.items|
      {
        var text := recovery.Front();
        recovery := recovery.Receive();
        assert old(recovery).items[..k + 1] == old(recovery).items[..k] + [text];
        lines := lines + [Base64.Encode(text)];
        k := k + 1;
      }
      assert old(recovery).items[..k] == old(recovery).items;
      file := Some(lines);
      pending := [];
    }
  }
}
