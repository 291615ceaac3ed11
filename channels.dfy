/** A buffered Go channel of strings, as the brokers use one per queue and
    one for pending recovery records. Sends and receives are the
    non-blocking `select { case ch <- x: ... default: ... }` kind, so each
    operation comes with the predicate that tells whether it would block. */
module Channels {
  import opened Bytes

  /** The messages a channel holds, oldest first, and its capacity. */
  datatype Chan = Chan(items: seq<Str>, capacity: nat) {
    predicate Valid() { |items| <= capacity }

    predicate CanSend() { |items| < capacity }

    function Send(x: Str): Chan
      requires CanSend()
    {
      Chan(items + [x], capacity)
    }

    predicate CanReceive() { items != [] }

    function Front(): Str
      requires CanReceive()
    {
      items[0]
    }

    function Receive(): Chan
      requires CanReceive()
    {
      Chan(items[1..], capacity)
    }
  }

  /** make(chan string, capacity) */
  function Make(capacity: nat): Chan
  {
    Chan([], capacity)
  }

  /** The channel increaseQueueSize leaves in place of `c`: a channel with
      `size` more capacity holding the same messages in the same order when
      `c` had no spare room, `c` itself otherwise. */
  function Grown(c: Chan, size: nat): (r: Chan)
    ensures r.items == c.items
    ensures r.capacity == if c.CanSend() then c.capacity else c.capacity + size
    ensures c.Valid() ==> r.Valid()
    // with a positive increment there is always room for one more message
    ensures c.Valid() && size >= 1 ==> r.CanSend()
  {
    if c.capacity - |c.items| <= 0 then Chan(c.items, c.capacity + size) else c
  }

  /** increaseQueueSize: when the channel is full, allocate one `size` larger
      and move every message across, oldest first. A full channel of
      capacity 0 would make the source wait forever, hence the requires. */
  method IncreaseQueueSize(c: Chan, size: nat) returns (r: Chan)
    requires c.Valid() && c.capacity > 0
    ensures r.items == c.items
    ensures r.capacity == if c.CanSend() then c.capacity else c.capacity + size
  {
    if c.capacity - |c.items| <= 0 {
      var out := Make(c.capacity + size);
      var src := c;
      // `for v := range src { out <- v; if len(src) == 0 { break } }`:
      // src is full and of positive capacity, so the first receive succeeds
      while src.CanReceive()
        invariant out.items + src.items == c.items
        invariant out.capacity == c.capacity + size
        decreases |src.items|
      {
        var v := src.Front();
        src := src.Receive();
        out := out.Send(v);
      }
      r := out;
    } else {
      r := c;
    }
  }

  /** Moving the oldest message to the back. */
  function RotateOnce(s: seq<Str>): seq<Str>
  {
    if s == [] then [] else s[1..] + [s[0]]
  }

  /** The order after n receive-and-send-back steps. */
  function Rotate(s: seq<Str>, n: int): seq<Str>
    decreases n
  {
    if n <= 0 then s else RotateOnce(Rotate(s, n - 1))
  }

  /** One step keeps every message and the count. */
  lemma RotateOnceKeeps(t: seq<Str>)
    ensures multiset(RotateOnce(t)) == multiset(t) && |RotateOnce(t)| == |t|
  {
    if t != [] {
      assert t == [t[0]] + t[1..];
      assert multiset(t[1..] + [t[0]]) == multiset(t[1..]) + multiset([t[0]]);
    }
  }

  /** Rotation keeps every message and the count. */
  lemma {:induction false} RotateKeeps(s: seq<Str>, n: int)
    ensures multiset(Rotate(s, n)) == multiset(s)
    ensures |Rotate(s, n)| == |s|
    decreases n
  {
    if n > 0 {
      RotateKeeps(s, n - 1);
      RotateOnceKeeps(Rotate(s, n - 1));
    }
  }

  /** Up to |s| steps move the first n messages to the back, in order. */
  lemma {:induction false} RotateClosedForm(s: seq<Str>, n: int)
    requires 0 <= n <= |s|
    ensures Rotate(s, n) == s[n..] + s[..n]
    decreases n
  {
    if n > 0 {
      RotateClosedForm(s, n - 1);
      var k := n - 1;
      var t := s[k..] + s[..k];
      assert t[0] == s[k];
      assert t[1..] == s[k + 1..] + s[..k];
      assert s[..k] + [s[k]] == s[..k + 1];
    }
  }

  lemma {:induction false} RotateAdd(s: seq<Str>, a: nat, b: nat)
    ensures Rotate(s, a + b) == Rotate(Rotate(s, a), b)
    decreases b
  {
    if b > 0 {
      RotateAdd(s, a, b - 1);
    }
  }

  /** Skipping is periodic in the queue length: |s| steps restore the order. */
  lemma RotatePeriodic(s: seq<Str>, n: nat)
    ensures Rotate(s, |s|) == s
    ensures Rotate(s, n + |s|) == Rotate(s, n)
  {
    RotateClosedForm(s, |s|);
    assert s[|s|..] + s[..|s|] == s;
    RotateAdd(s, |s|, n);
  }

  /** The loop of skipHandler: n times, take the oldest message, if there is
      one, and send it back at once (the blocking send cannot wait, as the
      receive has just freed a place). */
  method Skip(c: Chan, n: int) returns (r: Chan)
    requires c.Valid()
    ensures r.capacity == c.capacity
    ensures r.items == Rotate(c.items, n)
  {
    r := c;
    var i := 0;
    while i < n
      invariant 0 <= i && (i <= n || i == 0)
      invariant r.capacity == c.capacity && r.Valid()
      invariant r.items == Rotate(c.items, i)
    {
      if r.CanReceive() {
        var message := r.Front();
        r := r.Receive();
        r := r.Send(message);
      }
      i := i + 1;
    }
  }
}
