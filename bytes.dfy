/** Go strings are byte sequences. A byte is written here as a `char` below
    256, so that byte literals read as in the source ("SET", ' ', '@').
    This module holds the library operations on them the core relies on:
    `strings.SplitN` (with a one-byte separator), the split at the first
    separator built on it, and `strconv.FormatInt` in base 10. */
module Bytes {
  import opened Common

  type Byte = c: char | c as int < 256
  type Str = seq<Byte>

  /** Joins `parts` with one `sep` between neighbours (the inverse of SplitN). */
  function Join(parts: seq<Str>, sep: Byte): Str
  {
    if |parts| == 0 then []
    else if |parts| == 1 then parts[0]
    else parts[0] + [sep] + Join(parts[1..], sep)
  }

  /** strings.IndexByte: the first position of `c` in `s`, or -1. */
  function Index(s: Str, c: Byte): (i: int)
    ensures -1 <= i < |s|
    ensures 0 <= i ==> s[i] == c
  {
    if s == [] then -1
    else if s[0] == c then 0
    else
      var k := Index(s[1..], c);
      if k < 0 then -1 else k + 1
  }

  /** Index finds the first occurrence, and -1 means there is none. */
  lemma {:induction false} IndexFirst(s: Str, c: Byte)
    ensures Index(s, c) == -1 <==> c !in s
    ensures 0 <= Index(s, c) ==> c !in s[..Index(s, c)]
  {
    if s != [] && s[0] != c {
      var k := Index(s[1..], c);
      IndexFirst(s[1..], c);
      assert s == [s[0]] + s[1..];
      assert k >= 0 ==> s[..k + 1] == [s[0]] + s[1..][..k];
    }
  }

  /** strings.SplitN(s, sep, n) for a one-byte separator: at most n pieces,
      the last one the unsplit remainder; n == 0 gives no pieces. */
  function SplitN(s: Str, sep: Byte, n: nat): (parts: seq<Str>)
    ensures n == 0 ==> parts == []
    ensures n >= 1 ==> 1 <= |parts| <= n
    decreases n
  {
    if n == 0 then []
    else if n == 1 then [s]
    else
      var i := Index(s, sep);
      if i < 0 then [s] else [s[..i]] + SplitN(s[i + 1..], sep, n - 1)
  }

  /** A text is what comes before position k, the byte there, and what
      comes after. */
  lemma Around(s: Str, k: nat)
    requires k < |s|
    ensures s[..k] + [s[k]] + s[k + 1..] == s
  {
  }

  lemma JoinCons(a: Str, rest: seq<Str>, sep: Byte)
    requires rest != []
    ensures Join([a] + rest, sep) == a + [sep] + Join(rest, sep)
  {
    assert ([a] + rest)[1..] == rest;
  }

  /** The pieces, joined again with the separator, give the text back. */
  lemma {:induction false} SplitNJoin(s: Str, sep: Byte, n: nat)
    requires n >= 1
    ensures Join(SplitN(s, sep, n), sep) == s
    decreases n
  {
    var k := Index(s, sep);
    if n == 1 || k < 0 {
      assert SplitN(s, sep, n) == [s];
    } else {
      var rest := SplitN(s[k + 1..], sep, n - 1);
      calc {
        Join(SplitN(s, sep, n), sep);
        Join([s[..k]] + rest, sep);
        { JoinCons(s[..k], rest, sep); }
        s[..k] + [sep] + Join(rest, sep);
        { SplitNJoin(s[k + 1..], sep, n - 1); }
        s[..k] + [sep] + s[k + 1..];
        { Around(s, k); }
        s;
      }
    }
  }

  /** No piece but the last holds the separator, and the last holds none
      either when there are fewer than n pieces. */
  lemma {:induction false} SplitNPieces(s: Str, sep: Byte, n: nat)
    requires n >= 1
    ensures forall i :: 0 <= i < |SplitN(s, sep, n)| - 1 ==> sep !in SplitN(s, sep, n)[i]
    ensures |SplitN(s, sep, n)| < n ==> sep !in SplitN(s, sep, n)[|SplitN(s, sep, n)| - 1]
    decreases n
  {
    var parts := SplitN(s, sep, n);
    var k := Index(s, sep);
    IndexFirst(s, sep);
    if n == 1 || k < 0 {
      assert parts == [s];
    } else {
      var rest := SplitN(s[k + 1..], sep, n - 1);
      assert parts == [s[..k]] + rest;
      SplitNPieces(s[k + 1..], sep, n - 1);
      forall i | 0 <= i < |parts| - 1 ensures sep !in parts[i] {
        if i > 0 {
          assert parts[i] == rest[i - 1];
        }
      }
      assert parts[|parts| - 1] == rest[|rest| - 1];
    }
  }

  /** SplitN yields fewer than n pieces exactly when s holds fewer than
      n - 1 separators. */
  lemma {:induction false} SplitNSeparators(s: Str, sep: Byte, n: nat)
    requires n >= 1
    ensures |SplitN(s, sep, n)| < n <==> multiset(s)[sep] < n - 1
    decreases n
  {
    var k := Index(s, sep);
    IndexFirst(s, sep);
    var pieces, count := |SplitN(s, sep, n)|, multiset(s)[sep];
    if n == 1 {
      assert pieces == 1 && count >= 0;
    } else if k < 0 {
      assert pieces == 1;
      assert count == 0 by {
        assert sep !in multiset(s);
      }
    } else {
      var t: Str := s[k + 1..];
      var rest := SplitN(t, sep, n - 1);
      assert pieces == 1 + |rest|;
      CountAround(s, k);
      assert count == multiset(t)[sep] + 1;
      SplitNSeparators(t, sep, n - 1);
      assert |rest| < n - 1 <==> multiset(t)[sep] < n - 2;
    }
  }

  /** The first occurrence is where Index says it is. */
  lemma {:induction false} IndexAt(s: Str, c: Byte, k: nat)
    requires k < |s| && s[k] == c && c !in s[..k]
    ensures Index(s, c) == k
  {
    if k > 0 {
      assert s[0] in s[..k];
      assert s[1..][k - 1] == c && s[1..][..k - 1] == s[1..k];
      assert c !in s[1..k] by { assert s[1..k] == s[..k][1..]; }
      IndexAt(s[1..], c, k - 1);
    }
  }

  lemma CountAround(s: Str, i: nat)
    requires i < |s| && s[i] !in s[..i]
    ensures multiset(s)[s[i]] == multiset(s[i + 1..])[s[i]] + 1
  {
    var a, b := s[..i], s[i + 1..];
    assert s == a + [s[i]] + b;
    assert multiset(s) == multiset(a) + multiset([s[i]]) + multiset(b);
    assert multiset(a)[s[i]] == 0;
  }

  /** The parts of `a + [x] + b` around position |a|. */
  lemma Pieces(a: Str, x: Byte, b: Str)
    ensures (a + [x] + b)[..|a|] == a && (a + [x] + b)[|a|] == x && (a + [x] + b)[|a| + 1..] == b
  {
  }

  /** Splitting what Join built, with no separator inside any piece but the
      last, gives the pieces back. */
  lemma {:induction false} SplitJoin(parts: seq<Str>, sep: Byte)
    requires 1 <= |parts|
    requires forall i :: 0 <= i < |parts| - 1 ==> sep !in parts[i]
    ensures SplitN(Join(parts, sep), sep, |parts|) == parts
  {
    if |parts| > 1 {
      var rest := parts[1..];
      var s := Join(parts, sep);
      var k := |parts[0]|;
      assert parts == [parts[0]] + rest;
      JoinCons(parts[0], rest, sep);
      Pieces(parts[0], sep, Join(rest, sep));
      assert sep !in parts[0];
      IndexAt(s, sep, k);
      assert forall i :: 0 <= i < |rest| - 1 ==> sep !in rest[i] by {
        forall i | 0 <= i < |rest| - 1 ensures sep !in rest[i] { assert rest[i] == parts[i + 1]; }
      }
      calc {
        SplitN(s, sep, |parts|);
        [s[..k]] + SplitN(s[k + 1..], sep, |rest|);
        [parts[0]] + SplitN(Join(rest, sep), sep, |rest|);
        { SplitJoin(rest, sep); }
        [parts[0]] + rest;
      }
    }
  }

  /** `strings.SplitN(s, sep, 2)` read as two parts when there are two:
      what comes before the first `sep` and what comes after it; None when
      `s` holds no `sep`. */
  function Cut(s: Str, sep: Byte): (r: Option<(Str, Str)>)
    ensures r.None? <==> sep !in s
    ensures r.Some? ==> sep !in r.value.0 && s == r.value.0 + [sep] + r.value.1
  {
    var parts := SplitN(s, sep, 2);
    SplitNSeparators(s, sep, 2);
    if |parts| > 1 then
      SplitNPieces(s, sep, 2);
      SplitNJoin(s, sep, 2);
      JoinCons(parts[0], parts[1..], sep);
      assert parts[1..] == [parts[1]];
      Some((parts[0], parts[1]))
    else
      assert sep !in multiset(s);
      None
  }

  /** A head without the separator, joined to any tail by it, is cut back
      into that head and that tail. */
  lemma CutOf(head: Str, sep: Byte, tail: Str)
    requires sep !in head
    ensures Cut(head + [sep] + tail, sep) == Some((head, tail))
  {
    var s := head + [sep] + tail;
    assert sep in s by {
      assert s[|head|] == sep;
    }
    var (h, t) := Cut(s, sep).value;
    // both cuts put the first separator at the length of their head
    Pieces(head, sep, tail);
    Pieces(h, sep, t);
    IndexAt(s, sep, |head|);
    IndexAt(s, sep, |h|);
  }

  function Digit(d: int): (c: Byte)
    requires 0 <= d < 10
    ensures '0' <= c <= '9'
  {
    ('0' as int + d) as char
  }

  /** strconv.FormatInt(n, 10) for a non-negative n: decimal digits only. */
  function Decimal(n: nat): (r: Str)
    ensures |r| >= 1
    ensures forall i :: 0 <= i < |r| ==> '0' <= r[i] <= '9'
  {
    if n < 10 then [Digit(n)] else Decimal(n / 10) + [Digit(n % 10)]
  }
}
