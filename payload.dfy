/** Messages that refer to content kept elsewhere: `file:PATH` names a file
    under FileBasePath, `mysql:TABLE/ID` a row of a table. Before storing
    such a message, setHandler asks the store whether the object exists;
    the store's answer is a parameter (a `Lookup`), the store itself is not
    modelled. */
module Payload {
  import opened Common
  import opened Bytes

  const FILE: Str := "file"
  const MYSQL: Str := "mysql"

  /** `strings.SplitN(message, ":", 2)` when it yields two parts: the scheme
      before the first ':' and the locator after it. */
  function Reference(message: Str): (r: Option<(Str, Str)>)
    ensures r.None? <==> ':' !in message
    ensures r.Some? ==> ':' !in r.value.0 && message == r.value.0 + [':'] + r.value.1
  {
    Cut(message, ':')
  }

  /** A scheme written before a ':' is read back as that scheme, whatever
      the locator holds. */
  lemma ReferenceOf(scheme: Str, locator: Str)
    requires ':' !in scheme
    ensures Reference(scheme + [':'] + locator) == Some((scheme, locator))
  {
    CutOf(scheme, ':', locator);
  }

  /** The answer of setHandler in main.go to a message before it is queued:
      None lets the message through; otherwise the status it answers with.
      A file reference is refused only when the file does not exist (any
      other error from os.Stat lets it through); a mysql reference is
      refused when its locator has no '/', when the query fails (500) and
      when the row is missing. Messages with any other scheme, or none,
      pass. */
  function AdmitCurrent(message: Str, lookup: Lookup): (r: Option<Status>)
    ensures r.Some? ==> r.value == NotAcceptable || (r.value == Internal && lookup == Failed)
    ensures Reference(message).None? ==> r.None?
  {
    match Reference(message)
    case None => None
    case Some((scheme, locator)) =>
      if scheme == FILE then
        if lookup == Absent then Some(NotAcceptable) else None
      else if scheme == MYSQL then
        if |SplitN(locator, '/', 2)| != 2 then Some(NotAcceptable)
        else if lookup == Failed then Some(Internal)
        else if lookup == Absent then Some(NotAcceptable)
        else None
      else None
  }

  /** The same check in LMQ.go, which knows file references only. */
  function AdmitOlder(message: Str, lookup: Lookup): (r: Option<Status>)
    ensures r.Some? ==> r.value == NotAcceptable && lookup == Absent
    ensures Reference(message).None? ==> r.None?
  {
    match Reference(message)
    case None => None
    case Some((scheme, _)) =>
      if scheme == FILE && lookup == Absent then Some(NotAcceptable) else None
  }

  /** A file reference is refused exactly when the file is reported absent,
      by both brokers. */
  lemma AdmitFile(path: Str, lookup: Lookup)
    ensures AdmitCurrent(FILE + [':'] + path, lookup) == (if lookup == Absent then Some(NotAcceptable) else None)
    ensures AdmitOlder(FILE + [':'] + path, lookup) == (if lookup == Absent then Some(NotAcceptable) else None)
  {
    ReferenceOf(FILE, path);
  }

  /** A row reference is let through exactly when its locator names a table
      and an id and the row is found. */
  lemma AdmitRow(locator: Str, lookup: Lookup)
    ensures AdmitCurrent(MYSQL + [':'] + locator, lookup).None?
        <==> '/' in locator && lookup == Present
    ensures AdmitOlder(MYSQL + [':'] + locator, lookup).None?
  {
    ReferenceOf(MYSQL, locator);
    SplitNSeparators(locator, '/', 2);
    assert FILE != MYSQL by { assert FILE[0] != MYSQL[0]; }
    assert '/' in locator <==> multiset(locator)['/'] >= 1;
  }
}
