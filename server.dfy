/** The current broker (main.go): a registry of named queues, each a
    buffered channel that grows when full, and a recovery channel of 1000
    pending records that a writer drains into the segment directory.

    Each handler is a method of `Broker`. Transport is left out: a handler
    takes its path parameters already extracted (the message without the
    leading '/' of the catch-all route) and answers with a `Status`.

    The broker also keeps, as ghost state, the counts that replaying the
    directory found at start-up, then every record a handler has issued
    since, would give (`tally`), and whether every one of those records
    reached the recovery channel (`exact`). While `exact` holds, the queues
    hold exactly what `tally` counts; it turns false for good the first
    time the full recovery channel drops a record. */
module Server {
  import opened Common
  import opened Bytes
  import opened Records
  import opened Tally
  import opened Channels
  import opened Segments
  import opened Rotation
  import opened Payload
  import opened Journal
  import opened Writer

  /** make(chan string, 1000) in main. */
  const RecoveryChannelSize: nat := 1000

  /** `select { case ch <- x: ... default: ... }`: x is queued when there is
      room, and dropped otherwise. */
  function Offer(c: Chan, x: Str): (r: Chan)
    ensures r.capacity == c.capacity
    ensures r.items == if c.CanSend() then c.items + [x] else c.items
  {
    if c.CanSend() then c.Send(x) else c
  }

  /** The queue setHandler works on: the existing one, or a new channel of
      QueueInitSize. */
  function Opened(queues: map<Str, Chan>, q: Str, size: nat): Chan
  {
    if q in queues then queues[q] else Make(size)
  }

  /** How many copies of `m` queue `q` holds; a missing queue holds none. */
  function Held(queues: map<Str, Chan>, q: Str, m: Str): nat
  {
    if q in queues then multiset(queues[q].items)[m] else 0
  }

  /** The queues hold, message by message, what the tally counts. */
  ghost predicate Mirrors(queues: map<Str, Chan>, t: Tally)
  {
    forall q, m {:trigger Held(queues, q, m)} :: Held(queues, q, m) == Count(t, q, m)
  }

  /** A message that set accepts: not empty, and let through by the
      file/mysql check. */
  predicate Admitted(message: Str, lookup: Lookup)
  {
    message != [] && AdmitCurrent(message, lookup).None?
  }

  /** Queuing a message and logging its SET keep the mirror. */
  lemma MirrorSet(queues: map<Str, Chan>, t: Tally, q: Str, message: Str, c: Chan)
    requires c.items == Opened(queues, q, 0).items + [message]
    ensures Mirrors(queues, t) ==> Mirrors(queues[q := c], Apply(t, Record(SET, q, message)))
  {
    if Mirrors(queues, t) {
      var u := Apply(t, Record(SET, q, message));
      MethodsDiffer();
      forall p, m ensures Held(queues[q := c], p, m) == Count(u, p, m) {
        assert Held(queues, p, m) == Count(t, p, m);
        if p == q {
          assert Held(queues, q, m) == multiset(Opened(queues, q, 0).items)[m];
        } else {
          assert Count(u, p, m) == Count(t, p, m);
        }
      }
    }
  }

  /** Taking the front message and logging its GET keep the mirror. */
  lemma MirrorGet(queues: map<Str, Chan>, t: Tally, q: Str)
    requires q in queues && queues[q].CanReceive()
    ensures Mirrors(queues, t) ==> Mirrors(queues[q := queues[q].Receive()], Apply(t, Record(GET, q, queues[q].Front())))
  {
    if Mirrors(queues, t) {
      var s := queues[q].items;
      var u := Apply(t, Record(GET, q, s[0]));
      MethodsDiffer();
      assert s == [s[0]] + s[1..];
      forall p, m ensures Held(queues[q := queues[q].Receive()], p, m) == Count(u, p, m) {
        assert Held(queues, p, m) == Count(t, p, m);
        if p != q {
          assert Count(u, p, m) == Count(t, p, m);
        }
      }
    }
  }

  /** Dropping a queue and logging its DEL keep the mirror. */
  lemma MirrorDel(queues: map<Str, Chan>, t: Tally, q: Str)
    ensures Mirrors(queues, t) ==> Mirrors(queues - {q}, Apply(t, Record(DEL, q, [])))
  {
    if Mirrors(queues, t) {
      var u := Apply(t, Record(DEL, q, []));
      forall p, m ensures Held(queues - {q}, p, m) == Count(u, p, m) {
        assert Held(queues, p, m) == Count(t, p, m);
        if p != q {
          assert Count(u, p, m) == Count(t, p, m);
        }
      }
    }
  }

  /** Replacing a queue by one with the same messages, in any order, keeps
      the mirror. */
  lemma MirrorSame(queues: map<Str, Chan>, t: Tally, q: Str, c: Chan)
    requires multiset(c.items) == multiset(Opened(queues, q, 0).items)
    ensures Mirrors(queues, t) ==> Mirrors(queues[q := c], t)
  {
    if Mirrors(queues, t) {
      forall p, m ensures Held(queues[q := c], p, m) == Count(t, p, m) {
        assert Held(queues, p, m) == Count(t, p, m);
      }
    }
  }

  /** The refill of one queue in initialRecovery: a new channel of
      QueueInitSize, then, message after message in map order, as many
      sends as the count says, each after growing the channel if it is
      full. Every message ends up in the queue exactly as often as its
      positive count. */
  method RefillQueue(counts: Counts, size: nat) returns (ch: Chan)
    requires size >= 1
    ensures ch.Valid() && ch.capacity >= 1
    ensures forall m :: multiset(ch.items)[m] == Pos(counts, m)
  {
    ch := Make(size);
    var todo := counts.Keys;
    while todo != {}
      invariant ch.Valid() && ch.capacity >= 1
      invariant todo <= counts.Keys
      invariant forall m :: multiset(ch.items)[m] == if m in todo then 0 else Pos(counts, m)
      decreases |todo|
    {
      var message :| message in todo;
      var count := counts[message];
      var i := 0;
      while i < count
        invariant ch.Valid() && ch.capacity >= 1
        invariant 0 <= i <= Pos(counts, message)
        invariant forall m :: multiset(ch.items)[m] == if m == message then i else if m in todo then 0 else Pos(counts, m)
      {
        ch := IncreaseQueueSize(ch, size);
        // the grown channel has room, so the select never takes its default
        assert ch.CanSend();
        ch := ch.Send(message);
        i := i + 1;
      }
      assert i == Pos(counts, message);
      todo := todo - {message};
    }
  }

  /** One more queue refilled: it holds its positive counts, and it is no
      longer to do. */
  lemma RefillStep(queues: map<Str, Chan>, t: Tally, todo: set<Str>, q: Str, ch: Chan)
    requires q in todo && q in t
    requires forall p, m :: Held(queues, p, m) == if p in todo then 0 else PosCount(t, p, m)
    requires forall m :: multiset(ch.items)[m] == Pos(t[q], m)
    ensures forall p, m :: Held(queues[q := ch], p, m) == if p in todo - {q} then 0 else PosCount(t, p, m)
  {
    forall p, m ensures Held(queues[q := ch], p, m) == if p in todo - {q} then 0 else PosCount(t, p, m) {
      if p == q {
        assert Held(queues[q := ch], p, m) == multiset(ch.items)[m];
      } else {
        assert Held(queues[q := ch], p, m) == Held(queues, p, m);
      }
    }
  }

  /** The refill loop of initialRecovery over the whole tally: one queue
      per tally entry, each refilled by RefillQueue. */
  method Refill(t: Tally, size: nat) returns (queues: map<Str, Chan>)
    requires size >= 1
    ensures queues.Keys == t.Keys
    ensures forall q :: q in queues ==> queues[q].Valid() && queues[q].capacity >= 1
    ensures forall q, m :: Held(queues, q, m) == PosCount(t, q, m)
  {
    queues := map[];
    var todo := t.Keys;
    while todo != {}
      invariant todo <= t.Keys && queues.Keys == t.Keys - todo
      invariant forall q :: q in queues ==> queues[q].Valid() && queues[q].capacity >= 1
      invariant forall q, m :: Held(queues, q, m) == if q in todo then 0 else PosCount(t, q, m)
      decreases |todo|
    {
      var q :| q in todo;
      var ch := RefillQueue(t[q], size);
      RefillStep(queues, t, todo, q, ch);
      queues := queues[q := ch];
      todo := todo - {q};
    }
  }

  class Broker {
    /** `queues`: queue name to channel. */
    var queues: map<Str, Chan>
    /** `recoveryCh`: the records waiting for the writer. */
    var recovery: Chan
    /** config.QueueInitSize: the first capacity of a queue and the step
        it grows by. */
    const initSize: nat
    /** The records in the recovery channel. */
    ghost var pending: seq<Record>
    /** What replaying the directory found at start-up, then every record
        a handler has issued since, would count. A record the recovery
        channel dropped is counted all the same: the queues did change. */
    ghost var tally: Tally
    /** Whether start-up replay found no negative count and no issued
        record has been dropped since. It implies that the queues hold
        exactly what `tally` counts; the converse need not hold. */
    ghost var exact: bool

    ghost predicate Valid()
      reads this
    {
      initSize >= 1 && recovery.capacity == RecoveryChannelSize && recovery.Valid() &&
      Carries(recovery.items, pending) &&
      (forall q :: q in queues ==> queues[q].Valid() && queues[q].capacity >= 1) &&
      (exact ==> Mirrors(queues, tally))
    }

    /** `queues := make(map[string]chan string)` and `recoveryCh :=
        make(chan string, 1000)`: no queue, nothing logged yet. */
    constructor(initSize: nat)
      requires initSize >= 1
      ensures Valid()
      ensures this.initSize == initSize && queues == map[] && recovery == Make(RecoveryChannelSize)
      ensures pending == [] && tally == map[] && exact
    {
      this.initSize := initSize;
      queues := map[];
      recovery := Make(RecoveryChannelSize);
      pending := [];
      tally := map[];
      exact := true;
    }

    /** The non-blocking send of a record to the recovery channel. `r` is
        the record whose text is sent. */
    method SendRecovery(r: Record) returns (sent: bool)
      requires Carries(recovery.items, pending) && recovery.Valid()
      modifies this
      ensures sent == old(recovery).CanSend()
      ensures recovery == Offer(old(recovery), Text(r)) && Carries(recovery.items, pending)
      ensures pending == if sent then old(pending) + [r] else old(pending)
      ensures tally == Apply(old(tally), r)
      ensures exact == (old(exact) && sent)
      ensures queues == old(queues)
    {
      sent := recovery.CanSend();
      if sent {
        recovery := recovery.Send(Text(r));
        pending := pending + [r];
      } else {
        exact := false;
      }
      tally := Apply(tally, r);
    }

    /** setHandler: create the queue if missing and grow it if full, both
        before the message is looked at; reject an empty message (400) and
        a reference the store refuses; queue the message, then log its SET.
        A full recovery channel answers 500, but the message stays queued. */
    method Set(q: Str, message: Str, lookup: Lookup) returns (status: Status)
      requires Valid()
      modifies this
      ensures Valid()
      ensures q in queues && queues == old(queues)[q := queues[q]]
      ensures !Admitted(message, lookup) ==>
        queues[q] == Grown(Opened(old(queues), q, initSize), initSize) &&
        recovery == old(recovery) && pending == old(pending) && tally == old(tally) && exact == old(exact) &&
        status == (if message == [] then BadRequest else AdmitCurrent(message, lookup).value)
      ensures Admitted(message, lookup) ==>
        queues[q] == Grown(Opened(old(queues), q, initSize), initSize).Send(message) &&
        recovery == Offer(old(recovery), GetRecovery(SET, q, message)) &&
        pending == (if old(recovery).CanSend() then old(pending) + [Record(SET, q, message)] else old(pending)) &&
        tally == Apply(old(tally), Record(SET, q, message)) &&
        (status == Ok <==> old(recovery).CanSend()) && (status == Ok || status == Internal) &&
        exact == (old(exact) && old(recovery).CanSend())
    {
      var ch := Open(q);
      if message == [] {
        return BadRequest;
      }
      var refused := AdmitCurrent(message, lookup);
      if refused.Some? {
        return refused.value;
      }
      status := Push(q, message);
    }

    /** The first half of setHandler: the queue is created if missing, then
        grown if full. Nothing is logged. */
    method Open(q: Str) returns (ch: Chan)
      requires Valid()
      modifies this
      ensures Valid()
      ensures ch == Grown(Opened(old(queues), q, initSize), initSize) && ch.CanSend()
      ensures queues == old(queues)[q := ch]
      ensures recovery == old(recovery) && pending == old(pending) && tally == old(tally) && exact == old(exact)
    {
      ch := Opened(queues, q, initSize);
      ch := IncreaseQueueSize(ch, initSize);
      assert ch == Grown(Opened(queues, q, initSize), initSize);
      MirrorSame(queues, tally, q, ch);
      queues := queues[q := ch];
    }

    /** The second half of setHandler, once the message is accepted: it is
        queued (the queue has room), then its SET is logged. */
    method Push(q: Str, message: Str) returns (status: Status)
      requires Valid() && q in queues && queues[q].CanSend()
      modifies this
      ensures Valid()
      ensures queues == old(queues)[q := old(queues)[q].Send(message)]
      ensures recovery == Offer(old(recovery), GetRecovery(SET, q, message))
      ensures pending == if old(recovery).CanSend() then old(pending) + [Record(SET, q, message)] else old(pending)
      ensures tally == Apply(old(tally), Record(SET, q, message))
      ensures (status == Ok <==> old(recovery).CanSend()) && (status == Ok || status == Internal)
      ensures exact == (old(exact) && old(recovery).CanSend())
    {
      var ch := queues[q].Send(message);
      MirrorSet(queues, tally, q, message, ch);
      queues := queues[q := ch];
      var sent := SendRecovery(Record(SET, q, message));
      status := if sent then Ok else Internal;
    }

    /** getHandler: 404 for a missing queue, 410 for an empty one;
        otherwise the oldest message is taken and its GET logged. A full
        recovery channel answers 500 and the message is lost. */
    method Get(q: Str) returns (status: Status, message: Str)
      requires Valid()
      modifies this
      ensures Valid()
      ensures q !in old(queues) ==> status == NotFound && message == [] && unchanged(this)
      ensures q in old(queues) && !old(queues)[q].CanReceive() ==> status == Gone && message == [] && unchanged(this)
      ensures q in old(queues) && old(queues)[q].CanReceive() ==>
        var front := old(queues)[q].Front();
        queues == old(queues)[q := old(queues)[q].Receive()] &&
        recovery == Offer(old(recovery), GetRecovery(GET, q, front)) &&
        pending == (if old(recovery).CanSend() then old(pending) + [Record(GET, q, front)] else old(pending)) &&
        tally == Apply(old(tally), Record(GET, q, front)) &&
        (status == Ok <==> old(recovery).CanSend()) && (status == Ok || status == Internal) &&
        message == (if status == Ok then front else []) &&
        exact == (old(exact) && old(recovery).CanSend())
    {
      if q !in queues {
        return NotFound, [];
      }
      var ch := queues[q];
      if !ch.CanReceive() {
        return Gone, [];
      }
      var front := ch.Front();
      MirrorGet(queues, tally, q);
      queues := queues[q := ch.Receive()];
      var sent := SendRecovery(Record(GET, q, front));
      if sent {
        status, message := Ok, front;
      } else {
        status, message := Internal, [];
      }
    }

    /** skipHandler: 404 for a missing queue, 400 when the number does not
        parse (`number` is what strconv.Atoi gives, None on error);
        otherwise the queue turns `n` times. Nothing is logged. */
    method Skip(q: Str, number: Option<int>) returns (status: Status)
      requires Valid()
      modifies this
      ensures Valid()
      ensures recovery == old(recovery) && pending == old(pending) && tally == old(tally) && exact == old(exact)
      ensures q !in old(queues) ==> status == NotFound && queues == old(queues)
      ensures q in old(queues) && number.None? ==> status == BadRequest && queues == old(queues)
      ensures q in old(queues) && number.Some? ==>
        status == Ok &&
        queues == old(queues)[q := Chan(Rotate(old(queues)[q].items, number.value), old(queues)[q].capacity)]
    {
      if q !in queues {
        return NotFound;
      }
      if number.None? {
        return BadRequest;
      }
      var ch := Channels.Skip(queues[q], number.value);
      RotateKeeps(queues[q].items, number.value);
      MirrorSame(queues, tally, q, ch);
      queues := queues[q := ch];
      status := Ok;
    }

    /** countHandler: the number of messages the queue holds, or 404. */
    method Count(q: Str) returns (status: Status, n: nat)
      requires Valid()
      ensures q in queues ==> status == Ok && n == |queues[q].items|
      ensures q !in queues ==> status == NotFound && n == 0
    {
      if q !in queues {
        return NotFound, 0;
      }
      return Ok, |queues[q].items|;
    }

    /** listHandler: every queue name once, in map order. */
    method List() returns (names: seq<Str>)
      requires Valid()
      ensures forall q :: q in names <==> q in queues
      ensures forall i, j :: 0 <= i < j < |names| ==> names[i] != names[j]
    {
      names := [];
      var todo := queues.Keys;
      while todo != {}
        invariant todo <= queues.Keys
        invariant forall q :: q in names <==> q in queues && q !in todo
        invariant forall i, j :: 0 <= i < j < |names| ==> names[i] != names[j]
        decreases |todo|
      {
        var q :| q in todo;
        names := names + [q];
        todo := todo - {q};
      }
    }

    /** deleteHandler: 404 for a missing queue; otherwise the queue is
        dropped and `DEL q ` logged. A full recovery channel answers 500,
        but the queue stays dropped. */
    method Delete(q: Str) returns (status: Status)
      requires Valid()
      modifies this
      ensures Valid()
      ensures q !in old(queues) ==> status == NotFound && unchanged(this)
      ensures q in old(queues) ==>
        queues == old(queues) - {q} &&
        recovery == Offer(old(recovery), GetRecovery(DEL, q, [])) &&
        pending == (if old(recovery).CanSend() then old(pending) + [Record(DEL, q, [])] else old(pending)) &&
        tally == Apply(old(tally), Record(DEL, q, [])) &&
        (status == Ok <==> old(recovery).CanSend()) && (status == Ok || status == Internal) &&
        exact == (old(exact) && old(recovery).CanSend())
    {
      if q !in queues {
        return NotFound;
      }
      MirrorDel(queues, tally, q);
      queues := queues - {q};
      var sent := SendRecovery(Record(DEL, q, []));
      status := if sent then Ok else Internal;
    }
  
    /** initialRecovery, on the empty registry before the server starts:
        the segments are replayed in name order into one tally, then every
        queue of the tally is refilled with each message as many times as
        its count is positive. A queue whose counts are all zero or below
        is still created, empty. */
    method Recover(d: Dir)
      requires Valid() && queues == map[]
      modifies this
      ensures Valid()
      ensures tally == Replay(map[], Log(d)) && exact == NonNegative(tally)
      ensures queues.Keys == tally.Keys
      ensures forall q, m :: Held(queues, q, m) == PosCount(tally, q, m)
      ensures recovery == old(recovery) && pending == old(pending)
    {
      var t := ScanDir(d, Listing(d.Keys));
      queues := Refill(t, initSize);
      tally := t;
      exact := NonNegative(t);
      Refilled(queues, t);
    }

    /** The writer goroutine taking everything in the recovery channel, in
        order: the writer's log grows by the texts of the pending records
        (ReplayAfterFlush says what replaying the directory then gives). */
    method Flush(w: SegmentWriter)
      requires Valid() && w.Valid()
      modifies this, w
      ensures Valid() && w.Valid()
      ensures queues == old(queues) && tally == old(tally) && exact == old(exact)
      ensures recovery == Make(RecoveryChannelSize) && pending == []
      ensures w.trace.base == old(w.trace.base) && w.trace.log == old(w.trace.log) + Texts(old(pending))
    {
      CarriesTexts(recovery.items, pending);
      recovery := w.Drain(recovery);
      pending := [];
    }
  }

  /** Replaying a directory whose plain writer has appended the texts of
      `recs` to what it had logged applies `recs` to what replaying it
      before gave. */
  lemma ReplayAfterFlush(dir: Dir, cursor: Cursor, trace: Trace,
                         dir': Dir, cursor': Cursor, trace': Trace, fileSize: int, recs: seq<Record>)
    requires Writing(dir, cursor, trace, fileSize, false)
    requires Writing(dir', cursor', trace', fileSize, false)
    requires trace'.base == trace.base && trace'.log == trace.log + Texts(recs)
    requires AllWellFormed(recs)
    ensures Replay(map[], Log(dir')) == ApplyAll(Replay(map[], Log(dir)), recs)
  {
    WritingLog(dir, cursor, trace, fileSize);
    WritingLog(dir', cursor', trace', fileSize);
    Appended(Log(trace.base), trace.log, recs);
  }

  /** A refilled registry mirrors a tally with no count below zero. */
  lemma Refilled(queues: map<Str, Chan>, t: Tally)
    requires forall q, m :: Held(queues, q, m) == PosCount(t, q, m)
    ensures NonNegative(t) ==> Mirrors(queues, t)
  {
    if NonNegative(t) {
      forall q, m ensures Held(queues, q, m) == Count(t, q, m) {
        assert Count(t, q, m) >= 0;
      }
    }
  }
}
