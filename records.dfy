/** Recovery records. A record is the text `METHOD QUEUE MESSAGE` (the three
    fields joined by single spaces); the brokers log one per state change and
    replay them at start-up. The current broker stores each record
    percent-escaped on a line of its own; decoding unescapes the line and
    splits it at the first two spaces, so the message may itself hold spaces. */
module Records {
  import opened Common
  import opened Bytes
  import opened Percent

  const SET: Str := "SET"
  const GET: Str := "GET"
  const DEL: Str := "DEL"

  /** The three methods are told apart by their first letter. */
  lemma MethodsDiffer()
    ensures SET != GET && SET != DEL && GET != DEL
  {
    assert SET[0] == 'S' && GET[0] == 'G' && DEL[0] == 'D';
  }

  /** No method holds a space, so a record's method always reads back. */
  lemma MethodsSpaceless()
    ensures ' ' !in SET && ' ' !in GET && ' ' !in DEL
  {
    assert SET == ['S', 'E', 'T'] && GET == ['G', 'E', 'T'] && DEL == ['D', 'E', 'L'];
  }

  /** A decoded record: method, queue name and message. */
  datatype Record = Record(op: Str, queue: Str, message: Str)

  /** A record whose method and queue hold no space: the only kind that
      survives a trip through the log unchanged. */
  predicate WellFormed(r: Record)
  {
    ' ' !in r.op && ' ' !in r.queue
  }

  /** getRecovery: the three fields joined with single spaces. */
  function GetRecovery(op: Str, queue: Str, message: Str): (r: Str)
    ensures |r| == |op| + |queue| + |message| + 2
  {
    op + [' '] + queue + [' '] + message
  }

  lemma Join3(parts: seq<Str>, sep: Byte)
    requires |parts| == 3
    ensures Join(parts, sep) == parts[0] + [sep] + parts[1] + [sep] + parts[2]
  {
    JoinCons(parts[0], parts[1..], sep);
    JoinCons(parts[1], parts[2..], sep);
    assert [parts[0]] + parts[1..] == parts && [parts[1]] + parts[2..] == parts[1..];
    assert parts[2..] == [parts[2]];
  }

  /** Splitting a record text again at the first two spaces gives the
      fields back when the first two hold no space. */
  lemma SplitRecovery(op: Str, queue: Str, message: Str)
    requires ' ' !in op && ' ' !in queue
    ensures SplitN(GetRecovery(op, queue, message), ' ', 3) == [op, queue, message]
  {
    Join3([op, queue, message], ' ');
    SplitJoin([op, queue, message], ' ');
  }

  function Text(r: Record): Str
  {
    GetRecovery(r.op, r.queue, r.message)
  }

  /** `strings.SplitN(line, " ", 3)` and the `len(parts) < 3` guard: a line
      with fewer than two spaces is not a record; otherwise the first two
      spaces delimit the method and the queue. */
  function ParseRecord(line: Str): (r: Option<Record>)
    ensures r.Some? <==> multiset(line)[' '] >= 2
    ensures r.Some? ==> WellFormed(r.value) && Text(r.value) == line
  {
    var parts := SplitN(line, ' ', 3);
    SplitNSeparators(line, ' ', 3);
    if |parts| < 3 then None
    else
      SplitNPieces(line, ' ', 3);
      SplitNJoin(line, ' ', 3);
      Join3(parts, ' ');
      Some(Record(parts[0], parts[1], parts[2]))
  }

  /** The line writingRecovery appends for a record. */
  function EncodeLine(r: Record): (line: Str)
    ensures ' ' !in line && '\n' !in line
  {
    QueryEscape(Text(r))
  }

  /** What the replay loop makes of one line: None when the line does not
      unescape or has fewer than three fields (the line is skipped). */
  function DecodeLine(line: Str): Option<Record>
  {
    match QueryUnescape(line)
    case None => None
    case Some(text) => ParseRecord(text)
  }

  /** Two well-formed records with the same text are the same record. */
  lemma TextInjective(a: Record, b: Record)
    requires WellFormed(a) && WellFormed(b) && Text(a) == Text(b)
    ensures a == b
  {
    SplitRecovery(a.op, a.queue, a.message);
    SplitRecovery(b.op, b.queue, b.message);
  }

  /** A record text holds at least the two spaces that join its fields. */
  lemma TextSpaces(r: Record)
    ensures multiset(Text(r))[' '] >= 2
  {
    var t := Text(r);
    assert t == r.op + [' '] + r.queue + [' '] + r.message;
    assert multiset(t) == multiset(r.op) + multiset([' ']) + multiset(r.queue) + multiset([' ']) + multiset(r.message);
  }

  /** Every well-formed record read back from its line is the record written;
      this covers `DEL q ` (empty message) and messages holding spaces. */
  lemma DecodeEncodeLine(r: Record)
    requires WellFormed(r)
    ensures DecodeLine(EncodeLine(r)) == Some(r)
  {
    UnescapeEscape(Text(r));
    TextSpaces(r);
    var p := ParseRecord(Text(r));
    TextInjective(p.value, r);
  }

  /** A queue name with a space does not survive the log: the part after its
      first space moves into the message. */
  lemma QueueWithSpace(op: Str, a: Str, b: Str, message: Str)
    requires ' ' !in op && ' ' !in a
    ensures DecodeLine(EncodeLine(Record(op, a + [' '] + b, message)))
         == Some(Record(op, a, b + [' '] + message))
    ensures DecodeLine(EncodeLine(Record(op, a + [' '] + b, message)))
         != Some(Record(op, a + [' '] + b, message))
  {
    var r := Record(op, a + [' '] + b, message);
    var s := Record(op, a, b + [' '] + message);
    assert Text(r) == Text(s);
    DecodeEncodeLine(s);
    assert |a| < |a + [' '] + b|;
  }
}
