/** The records a broker or a compactor hands to a segment writer, and what
    replaying the lines the writer makes of them gives back. */
module Journal {
  import opened Bytes
  import opened Percent
  import opened Records
  import opened Tally
  import opened Rotation

  /** The texts of a list of records, in order. */
  function Texts(recs: seq<Record>): (texts: seq<Str>)
    ensures |texts| == |recs|
    decreases |recs|
  {
    if recs == [] then [] else Texts(recs[..|recs| - 1]) + [Text(recs[|recs| - 1])]
  }

  /** One more record at the end adds its text at the end. */
  lemma TextsSnoc(recs: seq<Record>, r: Record)
    ensures Texts(recs + [r]) == Texts(recs) + [Text(r)]
  {
    assert (recs + [r])[..|recs|] == recs;
  }

  /** A channel's items carry the texts of `recs`, one by one. */
  predicate Carries(items: seq<Str>, recs: seq<Record>)
  {
    |items| == |recs| && forall i :: 0 <= i < |recs| ==> items[i] == Text(recs[i])
  }

  /** Carrying texts, one run after another. */
  lemma CarriesConcat(a: seq<Str>, ra: seq<Record>, b: seq<Str>, rb: seq<Record>)
    requires Carries(a, ra) && Carries(b, rb)
    ensures Carries(a + b, ra + rb)
  {
    forall i | 0 <= i < |ra + rb| ensures (a + b)[i] == Text((ra + rb)[i]) {
      if i >= |ra| {
        assert (a + b)[i] == b[i - |a|] && (ra + rb)[i] == rb[i - |ra|];
      }
    }
  }

  /** Carrying the texts, item by item, is being those texts. */
  lemma {:induction false} CarriesTexts(items: seq<Str>, recs: seq<Record>)
    requires Carries(items, recs)
    ensures items == Texts(recs)
    decreases |recs|
  {
    if recs != [] {
      var k := |recs| - 1;
      CarriesTexts(items[..k], recs[..k]);
      assert items == items[..k] + [items[k]];
    }
  }

  /** Applying one more record at the end. */
  lemma {:induction false} ApplyAllSnoc(t: Tally, recs: seq<Record>, r: Record)
    ensures ApplyAll(t, recs + [r]) == Apply(ApplyAll(t, recs), r)
    decreases |recs|
  {
    if recs == [] {
      assert [r][1..] == [];
    } else {
      assert (recs + [r])[0] == recs[0] && (recs + [r])[1..] == recs[1..] + [r];
      ApplyAllSnoc(Apply(t, recs[0]), recs[1..], r);
    }
  }

  /** The same, read from the end of a non-empty list. */
  lemma ApplyAllLast(t: Tally, recs: seq<Record>)
    requires recs != []
    ensures ApplyAll(t, recs) == Apply(ApplyAll(t, recs[..|recs| - 1]), recs[|recs| - 1])
  {
    var k := |recs| - 1;
    ApplyAllSnoc(t, recs[..k], recs[k]);
    assert recs[..k] + [recs[k]] == recs;
  }

  /** Replaying one more line at the end. */
  lemma ReplaySnoc(t: Tally, lines: seq<Str>, line: Str)
    ensures Replay(t, lines + [line]) == Step(Replay(t, lines), line)
  {
    ReplayConcat(t, lines, [line]);
    assert [line][1..] == [];
  }

  /** The lines of a non-empty list of records: those of all but the last,
      then the line of the last. */
  lemma LinesLast(recs: seq<Record>)
    requires recs != []
    ensures EscapeAll(Texts(recs)) == EscapeAll(Texts(recs[..|recs| - 1])) + [EncodeLine(recs[|recs| - 1])]
  {
    var k := |recs| - 1;
    EscapeAllSnoc(Texts(recs[..k]), Text(recs[k]));
  }

  lemma WellFormedInit(recs: seq<Record>)
    requires AllWellFormed(recs) && recs != []
    ensures AllWellFormed(recs[..|recs| - 1]) && WellFormed(recs[|recs| - 1])
  {
    var init := recs[..|recs| - 1];
    forall i | 0 <= i < |init| ensures WellFormed(init[i]) {
      assert init[i] == recs[i];
    }
  }

  /** Replaying the escaped texts of well-formed records applies those
      records, in order: what a writer puts on disk replays as what the
      broker sent. */
  lemma {:induction false} ReplayTexts(t: Tally, recs: seq<Record>)
    requires AllWellFormed(recs)
    ensures Replay(t, EscapeAll(Texts(recs))) == ApplyAll(t, recs)
    decreases |recs|
  {
    if recs != [] {
      var k := |recs| - 1;
      WellFormedInit(recs);
      ReplayTexts(t, recs[..k]);
      LinesLast(recs);
      ReplaySnoc(t, EscapeAll(Texts(recs[..k])), EncodeLine(recs[k]));
      StepEncoded(ApplyAll(t, recs[..k]), recs[k]);
      ApplyAllLast(t, recs);
    }
  }

  /** Replaying the escaped lines of SET records adds to each count the
      number of SETs of its message. */
  lemma ReplaySets(t: Tally, recs: seq<Record>, q: Str, m: Str)
    requires AllSets(recs)
    ensures Count(Replay(t, EscapeAll(Texts(recs))), q, m) == Count(t, q, m) + multiset(recs)[Record(SET, q, m)]
  {
    ReplayTexts(t, recs);
    ApplySets(t, recs, q, m);
  }

  /** Each line is the escape of its record. */
  lemma {:induction false} EscapeAllAt(records: seq<Str>)
    ensures forall i :: 0 <= i < |records| ==> EscapeAll(records)[i] == QueryEscape(records[i])
    decreases |records|
  {
    if records != [] {
      EscapeAllAt(records[..|records| - 1]);
    }
  }

  /** The lines of two runs of records, one after the other. */
  lemma EscapeAllConcat(a: seq<Str>, b: seq<Str>)
    ensures EscapeAll(a + b) == EscapeAll(a) + EscapeAll(b)
  {
    EscapeAllAt(a);
    EscapeAllAt(b);
    EscapeAllAt(a + b);
  }

  /** A writer that has taken `log` after the segments of `base` and then
      the texts of `recs`: replaying what it left applies `recs`, in order,
      to what replaying it before gave. */
  lemma Appended(before: seq<Str>, log: seq<Str>, recs: seq<Record>)
    requires AllWellFormed(recs)
    ensures Replay(map[], before + EscapeAll(log + Texts(recs)))
         == ApplyAll(Replay(map[], before + EscapeAll(log)), recs)
  {
    EscapeAllConcat(log, Texts(recs));
    assert before + EscapeAll(log + Texts(recs)) == (before + EscapeAll(log)) + EscapeAll(Texts(recs));
    ReplayConcat(map[], before + EscapeAll(log), EscapeAll(Texts(recs)));
    ReplayTexts(Replay(map[], before + EscapeAll(log)), recs);
  }
}
