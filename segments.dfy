/** The recovery directory of the current broker: a set of segment files,
    each a sequence of escaped record lines, replayed in file-name order.

    A segment is named by the decimal value of time.Now().UnixNano() at the
    moment it was opened; the compactor prefixes its own segments with "0".
    A `Name` keeps those two facts. With time stamps of the same number of
    digits (19 for any date between 2001 and 2286), comparing the names as
    strings, as sort.Strings does, is comparing `Before`: every "0..." name
    sorts ahead of every plain one, and otherwise the earlier stamp first. */
module Segments {
  import opened Bytes
  import opened Tally

  datatype Name = Name(compacted: bool, stamp: nat)

  /** The order sort.Strings puts segment names in. */
  predicate Before(a: Name, b: Name)
  {
    (a.compacted && !b.compacted) || (a.compacted == b.compacted && a.stamp < b.stamp)
  }

  type Dir = map<Name, seq<Str>>

  predicate Sorted(s: seq<Name>)
  {
    forall i, j :: 0 <= i < j < |s| ==> Before(s[i], s[j])
  }

  predicate IsFirst(m: Name, keys: set<Name>)
  {
    m in keys && forall x :: x in keys && x != m ==> Before(m, x)
  }

  lemma {:induction false} FirstExists(keys: set<Name>)
    requires keys != {}
    ensures exists m :: IsFirst(m, keys)
    decreases |keys|
  {
    var y :| y in keys;
    if keys != {y} {
      FirstExists(keys - {y});
      var m :| IsFirst(m, keys - {y});
      if Before(y, m) {
        forall x | x in keys && x != y ensures Before(y, x) {
          if x != m {
            assert Before(m, x);
          }
        }
        assert IsFirst(y, keys);
      } else {
        assert IsFirst(m, keys);
      }
    } else {
      assert IsFirst(y, keys);
    }
  }

  /** The first name of a non-empty set in sort order. */
  function First(keys: set<Name>): (m: Name)
    requires keys != {}
    ensures IsFirst(m, keys)
  {
    FirstExists(keys);
    var m :| IsFirst(m, keys);
    m
  }

  /** ioutil.ReadDir followed by sort.Strings: every name of the directory,
      once each, in sort order. */
  function Listing(keys: set<Name>): (s: seq<Name>)
    ensures Sorted(s) && |s| == |keys|
    ensures forall x :: x in s <==> x in keys
    decreases |keys|
  {
    if keys == {} then []
    else
      var m := First(keys);
      var rest := Listing(keys - {m});
      assert forall j :: 0 <= j < |rest| ==> Before(m, rest[j]) by {
        forall j | 0 <= j < |rest| ensures Before(m, rest[j]) {
          assert rest[j] in keys - {m};
        }
      }
      [m] + rest
  }

  /** There is one sorted listing of a set of names. */
  lemma {:induction false} SortedUnique(a: seq<Name>, b: seq<Name>)
    requires Sorted(a) && Sorted(b) && |a| == |b|
    requires forall x :: x in a <==> x in b
    ensures a == b
    decreases |a|
  {
    if a != [] {
      // both heads are the least name of the same set
      assert a[0] in b && b[0] in a;
      var i :| 0 <= i < |a| && a[i] == b[0];
      var j :| 0 <= j < |b| && b[j] == a[0];
      assert a[0] == b[0];
      forall x ensures x in a[1..] <==> x in b[1..] {
        if x in a[1..] {
          var k :| 1 <= k < |a| && a[k] == x;
          assert Before(a[0], x);
          assert x in b && x != b[0];
        }
        if x in b[1..] {
          var k :| 1 <= k < |b| && b[k] == x;
          assert Before(b[0], x);
          assert x in a && x != a[0];
        }
      }
      SortedUnique(a[1..], b[1..]);
      assert a == [a[0]] + a[1..] && b == [b[0]] + b[1..];
    }
  }

  /** A sorted list names each of its names once. */
  lemma {:induction false} SortedCard(s: seq<Name>)
    requires Sorted(s)
    ensures |set x | x in s| == |s|
    decreases |s|
  {
    if s != [] {
      SortedCard(s[1..]);
      assert (set x | x in s) == {s[0]} + (set x | x in s[1..]);
      assert s[0] !in s[1..] by {
        forall k | 1 <= k < |s| ensures s[k] != s[0] {
          assert Before(s[0], s[k]);
        }
      }
    }
  }

  /** When every name of `a` sorts before every name of `b`, the listing of
      both is the listing of `a` then that of `b`. */
  lemma ListingAppend(a: set<Name>, b: set<Name>)
    requires forall x, y :: x in a && y in b ==> Before(x, y)
    ensures Listing(a + b) == Listing(a) + Listing(b)
  {
    var s := Listing(a) + Listing(b);
    assert Sorted(s) by {
      forall i, j | 0 <= i < j < |s| ensures Before(s[i], s[j]) {
        if j < |Listing(a)| {
        } else if i >= |Listing(a)| {
          assert s[i] == Listing(b)[i - |Listing(a)|];
          assert s[j] == Listing(b)[j - |Listing(a)|];
        } else {
          assert s[i] in a;
          assert s[j] == Listing(b)[j - |Listing(a)|];
          assert s[j] in b;
        }
      }
    }
    assert a !! b by {
      forall x | x in a ensures x !in b {
        assert !Before(x, x);
      }
    }
    assert |a + b| == |a| + |b|;
    SortedUnique(s, Listing(a + b));
  }

  /** The listing of one segment. */
  lemma ListingOne(n: Name)
    ensures Listing({n}) == [n]
  {
    var l := Listing({n});
    assert n in l;
  }

  /** The lines of the named segments one after another. */
  function Flatten(d: Dir, names: seq<Name>): seq<Str>
    requires forall n :: n in names ==> n in d
    decreases |names|
  {
    if names == [] then [] else Flatten(d, names[..|names| - 1]) + d[names[|names| - 1]]
  }

  lemma {:induction false} FlattenConcat(d: Dir, a: seq<Name>, b: seq<Name>)
    requires forall n :: n in a + b ==> n in d
    ensures Flatten(d, a + b) == Flatten(d, a) + Flatten(d, b)
    decreases |b|
  {
    if b == [] {
      assert a + b == a;
    } else {
      var c := a + b;
      assert c[..|c| - 1] == a + b[..|b| - 1];
      FlattenConcat(d, a, b[..|b| - 1]);
    }
  }

  /** Flatten reads only the named segments. */
  lemma {:induction false} FlattenFrame(d1: Dir, d2: Dir, names: seq<Name>)
    requires forall n :: n in names ==> n in d1 && n in d2 && d1[n] == d2[n]
    ensures Flatten(d1, names) == Flatten(d2, names)
    decreases |names|
  {
    if names != [] {
      FlattenFrame(d1, d2, names[..|names| - 1]);
    }
  }

  /** The whole log of a directory, in replay order. */
  function Log(d: Dir): seq<Str>
  {
    Flatten(d, Listing(d.Keys))
  }

  /** The lines of an empty directory, and of a directory of one segment. */
  lemma LogSmall(d: Dir)
    ensures d == map[] ==> Log(d) == []
    ensures forall n :: d.Keys == {n} ==> Log(d) == d[n]
  {
    if d == map[] {
      assert Listing(d.Keys) == [];
    }
    forall n | d.Keys == {n} ensures Log(d) == d[n] {
      ListingOne(n);
      assert Flatten(d, [n]) == Flatten(d, []) + d[n];
    }
  }

  /** The replay loop over the sorted segments: one tally for the whole
      directory, file after file. */
  method ScanDir(d: Dir, names: seq<Name>) returns (t: Tally)
    requires forall n :: n in names ==> n in d
    ensures t == Replay(map[], Flatten(d, names))
  {
    t := map[];
    var k := 0;
    while k < |names|
      invariant 0 <= k <= |names|
      invariant t == Replay(map[], Flatten(d, names[..k]))
    {
      assert names[..k + 1][..k] == names[..k];
      ReplayConcat(map[], Flatten(d, names[..k]), d[names[k]]);
      t := ScanLines(t, d[names[k]]);
      k := k + 1;
    }
    assert names[..k] == names;
  }
}
