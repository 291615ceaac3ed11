# lmq — a verified model of the Lightweight Message Queue

lmq is an HTTP message broker. It keeps named FIFO queues of string messages in
memory and logs every change to a recovery log, so that a restarted broker can
rebuild its queues. The repository holds two brokers and a stand-alone
compactor:

- **main.go**, the current broker. Its queues are buffered channels that grow by
  `QueueInitSize` whenever they are full (`increaseQueueSize`).
  - set, get and delete push a `METHOD QUEUE MESSAGE` record into a recovery
    channel of 1000 slots without blocking.
  - A writer goroutine (`writingRecovery`) percent-escapes each record onto its
    own line. It writes into segment files named by the time they were opened,
    and opens a new segment every `RecoveryFileSize` records.
  - At startup (`initialRecovery`) the segments are replayed in name order into
    a tally: SET adds one, GET takes one away, DEL forgets the queue. Every
    message is then pushed back as many times as its count is positive.
  - `cleanupRecovery` compacts every segment except the newest into
    "0"-prefixed segments that hold only SET records.
- **cleanup.go**, the stand-alone compactor. It replays and removes every
  segment, the newest included, and writes the positive counts back as SET
  records into plain segments. Its rotation is eager: it opens a segment before
  writing and reopens as soon as one is full.
- **LMQ.go**, the older broker.
  - Its queues have a fixed size, `MessageChannelSize`.
  - Every stored message is tagged `uid@message`, where uid is the decimal
    stamp of the set.
  - It keeps a single recovery file of base64 lines. The writer only appends to
    that file. At startup it is replayed with set semantics (SET inserts, GET
    removes if present, DEL drops the queue), refilled and removed.

The model, module by module:

- Strings are byte sequences (`Bytes.Str`).
- A Go channel is the value `Channels.Chan(items, capacity)`. A non-blocking
  `select` send is `Server.Offer`.
- Each broker's registry is the class `Server.Broker` or `Lmq.Broker`. These
  classes hold the `queues` map and the recovery channel as fields that their
  handler methods update.
- The recovery directory is a map from segment `Name` to its lines
  (`Segments.Dir`). It is read in name order (`Segments.Listing`).
- The segment writers are classes whose methods append one record at a time:
  - `Writer.SegmentWriter`, for writingRecovery and cleanupRecovery;
  - `Cleanup.EagerWriter`, for cleanup.go.
- Replay is `Tally.Replay` for the current broker and `Lmq.SetReplay` for the
  older one. The compactors are `Compaction.CleanupRecovery` and
  `Cleanup.Compact`.
- The proved properties include:
  - the codec round trips;
  - the replay rules;
  - the rotation invariants (order, bounds, what the directory replays to);
  - that refill restores exactly the positive counts;
  - that compaction keeps every positive count;
  - the uid round trip;
  - the handlers' full status and state contracts, including the 500 answers
    when the recovery channel is full.

## Model

| member | source | states |
|---|---|---|
| Bytes.Index | main.go:63 | the position found is in range and holds the separator |
| Bytes.IndexFirst | main.go:63 | the position found is -1 exactly when the separator is absent, and otherwise no earlier byte is the separator |
| Bytes.SplitN | main.go:63 | strings.SplitN gives no part for n = 0 and between 1 and n parts otherwise |
| Bytes.SplitNJoin | main.go:63 | joining the parts of a split with the separator gives back the input |
| Bytes.SplitNPieces | main.go:63 | no part but the last holds the separator, and the last holds none when fewer than n parts came out |
| Bytes.SplitNSeparators | main.go:63-67 | fewer than n parts come out exactly when the input holds fewer than n-1 separators (the "Incorrect recovery line" test) |
| Bytes.SplitJoin | main.go:63-68 | splitting a join of parts whose first ones hold no separator gives back the parts |
| Bytes.Cut | LMQ.go:236-237 | a two-part split: None exactly when the separator is absent, otherwise a separator-free head and the rest, around the first separator |
| Bytes.CutOf | LMQ.go:236-237 | cutting head + sep + tail at sep gives (head, tail) when the head holds no sep |
| Bytes.Decimal | LMQ.go:205 | strconv.FormatInt(now, 10) of a non-negative stamp is a non-empty string of decimal digits |
| Percent.QueryEscape | main.go:124 | url.QueryEscape: the output is made only of escaped characters, holds no space, CR or LF, and is between one and three times as long as the input |
| Percent.QueryUnescape | main.go:58-62 | url.QueryUnescape succeeds on a string without '%' and never lengthens its input |
| Percent.UnescapeEscape | main.go:124 | unescaping an escaped record gives it back |
| Percent.EscapeInjective | main.go:124 | two records with the same escaped line are equal |
| Base64.Encode | LMQ.go:117 | base64.StdEncoding output length is 4 * ceil(n / 3) |
| Base64.EncodeIsOneLine | LMQ.go:117 | the encoding holds only alphabet characters and '=' padding, so no space, CR or LF |
| Base64.Decode | LMQ.go:58-62 | once CR and LF are gone, decoding succeeds only on a multiple of 4 characters and yields at most 3 bytes per group |
| Base64.Unwrap | LMQ.go:58 | the result holds no CR or LF, and an input without them is left as it is |
| Base64.DecodeStringSkips | LMQ.go:58-62 | a CR or LF anywhere in the line does not change what DecodeString gives |
| Base64.DecodeStringEncode | LMQ.go:117 | DecodeString of the encoding of any byte string gives it back |
| Base64.DecodeEncode | LMQ.go:117 | decoding the encoding of any byte string gives it back |
| Records.GetRecovery | LMQ.go:40-42 | the record text is method, queue and message joined by two single spaces |
| Records.SplitRecovery | main.go:63-68 | splitting a record text at the first two spaces gives (method, queue, message) when method and queue hold no space |
| Records.ParseRecord | main.go:63-68 | a line parses exactly when it holds at least two spaces, and then into a well-formed record whose text is the line |
| Records.EncodeLine | main.go:124 | a logged line holds no space and no newline |
| Records.TextInjective | LMQ.go:40-42 | two well-formed records with the same text are equal |
| Records.TextSpaces | main.go:63-67 | every record text holds at least two spaces, so it never falls in the "fewer than 3 parts" branch |
| Records.DecodeEncodeLine | main.go:56-68 | decoding the logged line of a well-formed record gives it back |
| Records.QueueWithSpace | main.go:63-68 | a queue name with a space does not survive the log: its tail moves into the message |
| Tally.Apply | main.go:69-87 | SET adds one to the count of its message, GET takes one away, DEL removes the queue, and any other method leaves the counts but creates the queue's entry; other queues are untouched |
| Tally.Replay | main.go:56-88 | replay never introduces a queue name with a space |
| Tally.ReplayConcat | main.go:47-90 | replaying segments one after another is replaying their concatenation |
| Tally.ApplyEquiv | main.go:69-87 | applying a record to two tallies with equal counts gives tallies with equal counts |
| Tally.ReplayEquiv | main.go:56-88 | replaying the same lines on tallies with equal counts keeps the counts equal |
| Tally.StepEncoded | main.go:56-88 | scanning the logged line of a well-formed record applies that record |
| Tally.SetThenGet | main.go:78-81 | a SET then a GET of the same message leaves every count as it was, and the queue entry exists |
| Tally.DelForgets | main.go:82-83 | after a DEL, nothing of the deleted queue's earlier counts influences the replay |
| Tally.UnknownMethod | main.go:84-86 | a record with an unknown method changes no count but leaves an entry for its queue |
| Tally.ApplySets | main.go:78-79 | over SET records only, each count grows by the number of SETs of its message |
| Tally.ApplySetsQueues | main.go:69-79 | over SET records only, a queue has an entry afterwards exactly when it had one before or some SET names it |
| Journal.ReplaySets | main.go:78-79 | replaying the logged lines of SET records adds to each count the number of SETs of its message |
| Tally.StepCases | main.go:57-68 | a line that does not unescape, or splits into fewer than 3 parts, is skipped; otherwise its three parts are applied |
| Tally.ScanLines | main.go:56-88 | the scan loop over one segment computes the replay of its lines |
| Segments.Listing | main.go:41-45 | sort.Strings gives every file name once, in ascending order |
| Segments.SortedUnique | main.go:45 | there is only one sorted listing of a set of names |
| Segments.ListingAppend | main.go:45 | names that all sort before others are listed before them |
| Segments.ListingOne | main.go:45 | a single file is listed alone |
| Segments.FlattenConcat | main.go:47-90 | reading two runs of segments reads their lines one after the other |
| Segments.FlattenFrame | main.go:47-90 | reading segments depends only on their contents |
| Segments.LogSmall | main.go:47-90 | an empty directory logs nothing, and a single segment logs its lines |
| Segments.ScanDir | main.go:47-90 | the loop over the sorted segments computes the replay of their lines in name order |
| Channels.Grown | main.go:22-34 | the buffer is reallocated only when full, with capacity raised by size and the same messages in the same order; a valid grown buffer always has room when size >= 1 |
| Channels.IncreaseQueueSize | main.go:22-34 | the drain loop yields the same messages in the same order, at the old capacity when not full and old + size when full |
| Channels.RotateKeeps | main.go:278-287 | skipping n times keeps the multiset and the number of messages |
| Channels.RotateClosedForm | main.go:278-287 | skipping n <= len messages moves the first n to the back, in order |
| Channels.RotateAdd | main.go:278-287 | skipping a then b is skipping a + b |
| Channels.RotatePeriodic | main.go:278-287 | skipping the queue's length returns it to its order |
| Channels.Skip | main.go:278-287 | the skip loop turns the queue n times at the same capacity (not at all for n <= 0) |
| Payload.Reference | main.go:308-309 | a message refers to stored content exactly when it holds ':'; the scheme is the part before the first ':' |
| Payload.ReferenceOf | main.go:308-309 | scheme:locator splits back into the scheme and the locator |
| Payload.AdmitCurrent | main.go:308-347 | setHandler refuses only with 406, or with 500 when the database fails, and never refuses a message without ':' |
| Payload.AdmitOlder | LMQ.go:191-204 | the older setHandler refuses only with 406 for a missing file, and never a message without ':' |
| Payload.AdmitFile | main.go:311-316 | a file: message is refused with 406 exactly when the file is absent, by both brokers |
| Payload.AdmitRow | main.go:317-345 | a mysql: message is accepted exactly when its locator holds '/' and the row exists; the older broker ignores mysql: |
| Journal.Texts | main.go:111-124 | one record text per record |
| Journal.CarriesConcat | main.go:111-124 | a channel carrying two runs of records carries their concatenation |
| Journal.CarriesTexts | main.go:111-124 | a channel carrying records holds exactly their texts |
| Journal.ApplyAllSnoc | main.go:56-88 | applying one more record applies it to the result |
| Journal.ReplayTexts | main.go:107-130 | replaying the escaped texts of well-formed records applies them in order |
| Journal.EscapeAllAt | main.go:124 | line i of a segment is the escape of record i |
| Journal.EscapeAllConcat | main.go:124 | escaping two runs of records escapes each |
| Journal.Appended | main.go:107-130 | appending the texts of records to a log and replaying applies the records to the earlier replay |
| Rotation.EscapeAll | main.go:124 | one line per record |
| Rotation.FreshName | main.go:117 | a segment opened now has a name not in the directory and sorting after every segment this writer opened |
| Rotation.EscapeAllSnoc | main.go:124 | writing one more record adds its escape at the end |
| Rotation.OpenFlatten | main.go:112-124 | opening a segment and writing one record continues the writer's lines |
| Rotation.OpenFull | main.go:112-123 | a segment is opened only after the previous one is full, so every segment but the last stays full |
| Rotation.OpenEmptyFlatten | cleanup.go:100-107 | opening an empty segment changes no line |
| Rotation.OpenKeeps | main.go:112-128 | opening a segment and writing a record into it keeps the layout (found segments untouched, new ones after them, arrival order, all but the last full) |
| Rotation.OpenEmptyKeeps | cleanup.go:100-107 | opening an empty segment keeps the layout |
| Rotation.AppendKeptFresh | main.go:124-128 | appending to the current segment leaves the other segments untouched |
| Rotation.AppendFlatten | main.go:124-128 | appending to the current segment appends the record's line to the writer's lines |
| Rotation.AppendFull | main.go:124-128 | appending to the current segment keeps the earlier ones full |
| Rotation.AppendKeeps | main.go:124-128 | appending a record keeps the layout |
| Rotation.SegmentedLog | main.go:107-130 | replaying the directory a plain writer left reads the segments it found, then the records it wrote, in arrival order |
| Rotation.CompactedLog | main.go:211-234 | a "0"-prefixed writer's records are read before every plain segment |
| Rotation.Limit | main.go:112 | the per-segment bound is RecoveryFileSize, and 1 when RecoveryFileSize <= 0 |
| Rotation.OpenStep | main.go:112-128 | a write that finds the current segment full (or none open) opens a new one holding the record |
| Rotation.AppendStep | main.go:124-128 | a write that finds room appends to the current segment |
| Rotation.StepKeeps | main.go:111-129 | every write keeps the writer's invariant |
| Rotation.WritingBounded | main.go:112-128 | every segment the writer opened holds between 1 and max(RecoveryFileSize, 1) records |
| Writer.WritingLog | main.go:107-130 | the directory a plain writer leaves replays as the segments it found followed by the records it wrote |
| Writer.SegmentWriter.constructor | main.go:108-110 | the writer starts with no segment open, so its first record opens one |
| Writer.SegmentWriter.Write | main.go:111-129 | one loop iteration: rotate when RecoveryFileSize records went to the current segment, then append the escaped record; the invariant is kept |
| Writer.SegmentWriter.Drain | main.go:111-129 | ranging over the channel writes every record it holds, in order, and leaves it empty |
| Writer.SegmentWriter.LogAppends | main.go:107-130 | at any time the directory replays as what was found followed by what was written |
| Compaction.Copies | main.go:216-232 | count copies of the record, none for count <= 0 |
| Compaction.CopiesMultiset | main.go:216-232 | the copies hold the record exactly max(count, 0) times |
| Compaction.CarriesCopies | main.go:215-232 | writing count copies of a record's text carries count copies of the record |
| Compaction.FlattenPrefix | main.go:159-209 | reading one more segment in order appends its lines |
| Compaction.ReplayAndRemove | main.go:159-209 | the read-and-remove loop replays the listed segments in order and deletes exactly them |
| Compaction.WriteCopies | main.go:216-232 | the innermost loop writes count escaped SET records of the message |
| Compaction.QueueStep | main.go:214-233 | writing one message's copies keeps the record of what was written for the queue |
| Compaction.WriteQueue | main.go:214-233 | the loop over one queue writes, for every message, exactly max(count, 0) SET records |
| Compaction.TallyStep | main.go:213-234 | writing one queue keeps the record of what was written for the tally |
| Compaction.WrittenSets | main.go:213-234 | the compactor writes only SET records |
| Compaction.WriteTally | main.go:213-234 | the loop over the tally writes, for every queue and message, exactly max(count, 0) SET records and nothing else |
| Compaction.Older | main.go:157-159 | the segments read are segments of the directory |
| Compaction.Newest | main.go:157-159 | the last name in sorted order is the one segment not read, and the listing is the older ones then it |
| Compaction.KeptLog | main.go:159-209 | after removal only the newest segment remains |
| Compaction.NewestAlone | main.go:159-209 | the newest is the only segment not removed |
| Compaction.NewSegments | main.go:211-234 | after compaction the older segments are gone, the newest is untouched, and every new segment is "0"-prefixed with 1..max(RecoveryFileSize, 1) records |
| Compaction.CompactedOutput | main.go:211-234 | the compacted directory replays as the written SET records followed by the newest segment |
| Compaction.CleanupRecovery | main.go:132-235 | the tally replays the older segments; the SET records written carry its positive counts; the directory layout and log are as above |
| Compaction.WrittenQueues | main.go:213-234 | the written records name exactly the queues that have a message with a positive count |
| Compaction.WrittenReplay | main.go:213-234 | replaying the written records gives each count as max(count, 0), and an entry exactly for the queues with a positive count |
| Compaction.LogOlderNewest | main.go:157-159 | the log is the older segments followed by the newest |
| Compaction.CompactionKeepsCounts | main.go:132-235 | when the older segments replay to no negative count, the compacted directory replays to the same counts as the original |
| Compaction.NegativeCountLost | main.go:216 | a negative count is not written back, so a GET in an older segment no longer cancels a SET in the newest one |
| Compaction.EmptyQueueLost | main.go:213-216 | after a SET and a GET of the same message the replay keeps the queue (the refill at main.go:91-92 recreates it), yet the written records replay to no entry for it |
| Cleanup.EagerStep | cleanup.go:94-107 | a write, followed by a reopen when the segment is full, keeps the eager writer's invariant |
| Cleanup.EagerWriter.constructor | cleanup.go:86-90 | a segment named by the clock is opened, empty, before anything is written |
| Cleanup.EagerWriter.Write | cleanup.go:94-107 | write the escaped record, count it, and open a new empty segment as soon as RecoveryFileSize records went to the current one |
| Cleanup.WriteCopies | cleanup.go:93-108 | the innermost loop writes count escaped SET records |
| Cleanup.WriteQueue | cleanup.go:92-109 | the loop over one queue writes exactly max(count, 0) SET records per message |
| Cleanup.WriteTally | cleanup.go:91-110 | the loop over the tally writes exactly max(count, 0) SET records per queue and message |
| Cleanup.EagerBounded | cleanup.go:94-107 | every segment the compactor opened is plain, newer than every input, and holds at most max(RecoveryFileSize, 1) records |
| Cleanup.EagerOutput | cleanup.go:86-110 | the output directory is non-empty and replays as the written records in order |
| Cleanup.Compact | cleanup.go:32-110 | every segment, the newest included, is replayed into the tally and removed; the output is new plain segments, each within the bound, holding the SET records of the positive counts |
| Cleanup.CompactKeepsPositive | cleanup.go:32-110 | replaying the output gives, for every queue and message, the positive part of the count replaying the input gave, and an entry exactly for the queues with a positive count |
| Server.Offer | main.go:350-358 | a non-blocking send queues the record when there is room and drops it otherwise |
| Server.MirrorSet | main.go:348-349 | pushing a message keeps the queues in step with the tally after its SET |
| Server.MirrorGet | main.go:376-379 | taking the front message keeps the queues in step with the tally after its GET |
| Server.MirrorDel | main.go:516-518 | dropping a queue keeps the queues in step with the tally after its DEL |
| Server.MirrorSame | main.go:278-287 | reordering a queue's messages keeps the queues in step with the tally |
| Server.RefillQueue | main.go:93-103 | refilling one queue (growing before each push) holds every message exactly max(count, 0) times |
| Server.RefillStep | main.go:91-104 | refilling one more queue keeps every refilled queue at its positive counts |
| Server.Refill | main.go:91-104 | every queue of the tally is created, even one with no positive count, and holds each message max(count, 0) times |
| Server.Refilled | main.go:91-104 | with no negative count the refilled queues hold exactly the replayed counts |
| Server.Broker.constructor | main.go:561-562 | an empty registry and an empty recovery channel of 1000 slots |
| Server.Broker.SendRecovery | main.go:350-358 | the record is queued exactly when the recovery channel had room |
| Server.Broker.Set | main.go:293-365 | the queue is created and grown first; an empty message is 400 and a refused reference 406 or 500; otherwise the message is pushed, its SET offered, and the answer is 200 exactly when the recovery channel had room (500 otherwise, with the message kept) |
| Server.Broker.Open | main.go:295-300 | the queue is created if absent and grown when full, so a push cannot fail |
| Server.Broker.Push | main.go:348-363 | the message goes to the back of the queue and its SET is offered; 200 exactly when it could be logged |
| Server.Broker.Get | main.go:367-393 | 404 for a missing queue and 410 for an empty one, with nothing changed; otherwise the front message leaves the queue (FIFO), its GET is offered, and it is returned with 200 exactly when the recovery channel had room |
| Server.Broker.Skip | main.go:262-291 | 404 for a missing queue, 400 for a number that does not parse; otherwise the queue turns n times; nothing is logged |
| Server.Broker.Count | main.go:248-260 | the number of messages in the queue, or 404 |
| Server.Broker.List | main.go:237-246 | every queue name exactly once |
| Server.Broker.Delete | main.go:507-527 | 404 for a missing queue; otherwise the queue is dropped, `DEL q ` is offered, and the answer is 200 exactly when it could be logged |
| Server.Broker.Recover | main.go:36-105 | the registry holds, for every queue of the replayed directory, each message max(count, 0) times, and mirrors the replay exactly when no count is negative |
| Server.Broker.Flush | main.go:107-130 | the writer takes every pending record in order and the recovery channel is empty again |
| Server.ReplayAfterFlush | main.go:107-130 | after a flush, replaying the directory applies the flushed records to the earlier replay |
| Lmq.UidRoundTrip | LMQ.go:205-237 | splitting `uid@message` at the first '@' gives back the uid and the message |
| Lmq.EncodeLine64 | LMQ.go:117 | a base64 line holds no space and no newline |
| Lmq.Lines64 | LMQ.go:116-121 | one base64 line per record; what the lines replay as is `Lmq.SetReplayLines` |
| Lmq.DecodeEncodeLine64 | LMQ.go:56-69 | decoding the base64 line of a well-formed record gives it back |
| Lmq.SetApply | LMQ.go:69-87 | SET inserts the message, GET removes it if present, DEL drops the queue, any other method leaves the set but creates the queue's entry; other queues are untouched |
| Lmq.SetTwice | LMQ.go:75-76 | a second SET of the same message changes nothing, so duplicates collapse |
| Lmq.SetsForgetMultiplicity | LMQ.go:74-81 | after SET, SET, GET the set replay has lost the message while the counting replay still holds it once |
| Lmq.SetReplayLines | LMQ.go:56-88 | replaying the base64 lines of well-formed records applies the records in order |
| Lmq.SetReplayConcat | LMQ.go:56-88 | replaying two runs of lines is replaying one after the other |
| Lmq.ReplayAfterAppend | LMQ.go:111-123 | appending the lines of records to the file applies them to what replaying it gave |
| Lmq.ScanLines64 | LMQ.go:56-88 | the scan loop computes the set replay of the file's lines |
| Lmq.FilledStep | LMQ.go:91-103 | offering one more message to a fixed-size queue keeps it distinct, drawn from the set, and complete while not full |
| Lmq.QueueReloggedStep | LMQ.go:92-99 | each pushed message has its SET re-logged, unless the recovery channel was full |
| Lmq.ReloggedNew | LMQ.go:89-104 | re-logged SETs of a new queue name only its messages |
| Lmq.AllReloggedNew | LMQ.go:89-104 | while the recovery channel has room, every refilled message has its SET re-logged |
| Lmq.RefillStep | LMQ.go:91-103 | one iteration of the refill loop keeps its invariant |
| Lmq.Refill | LMQ.go:90-103 | a new queue of MessageChannelSize holds distinct messages of the set, all of them when it did not fill up; the SETs of the pushed messages are offered to the recovery channel in order |
| Lmq.RestoredStep | LMQ.go:89-104 | refilling one more queue keeps every refilled queue restored |
| Lmq.Broker.constructor | LMQ.go:375-376 | an empty registry, an empty recovery channel of RecoveryChannelSize and the file as found |
| Lmq.Broker.SendRecovery | LMQ.go:209-216 | the record is queued exactly when the recovery channel had room |
| Lmq.Broker.Set | LMQ.go:178-222 | the queue is created first, without growth; an empty message is 400 and a missing file 406; a full queue is 500; otherwise `uid@message` is pushed, its SET offered, and the answer is 200 exactly when it could be logged |
| Lmq.Broker.Get | LMQ.go:224-250 | 404 for a missing queue and 410 for an empty one, with nothing changed; otherwise the front leaves the queue, its GET is offered, and on 200 the uid and message are the two sides of its first '@' |
| Lmq.Broker.Skip | LMQ.go:149-176 | 404 for a missing queue, 400 for a number that does not parse; otherwise the queue turns n times; nothing is logged |
| Lmq.Broker.Delete | LMQ.go:330-348 | 404 for a missing queue; otherwise the queue is dropped, `DEL q ` offered, and 200 exactly when it could be logged |
| Lmq.Broker.RefillQueue | LMQ.go:90-103 | one queue is recreated at MessageChannelSize and refilled from its set, with SETs re-logged |
| Lmq.Broker.RefillAll | LMQ.go:89-104 | every queue of the replayed sets is recreated and refilled |
| Lmq.Broker.Recover | LMQ.go:44-109 | without a file nothing changes; otherwise the file is replayed with set semantics, every queue of the replay is refilled from its set, SETs are re-logged, and the file is removed |
| Lmq.Broker.Flush | LMQ.go:111-123 | the writer appends the base64 line of every pending record to the file, creating it if absent, and empties the channel |

## Left out

- HTTP routing, gin, headers, response bodies and the Uid header: a handler takes its path parameters already extracted and answers with a `Status`.
- The IP allow-list middleware and gzip: transport only.
- Config loading, both `main` functions' start-up wiring and LMQ.go's help, version and copyright routes: plumbing. `QueueInitSize`, `RecoveryFileSize`, `MessageChannelSize` and `RecoveryChannelSize` are parameters or fields.
- `responseMessage`, `downloadHandler` and `fetchHandler` in both brokers: they read a file or a database row. fetch is get followed by that read.
- The file and database checks of setHandler: the store's answer is a `Lookup` parameter, and the query itself is not modelled.
- The count and list handlers of LMQ.go: they are line for line those of main.go, which `Server.Broker.Count` and `Server.Broker.List` model.
- Goroutines and concurrency: the writer goroutine is a sequential `Flush`/`Drain` step over the recovery channel, and no interleaving of handlers is modelled.
- Time: segment names and uids take a stamp from a counter or a parameter. Stamps are assumed to have 19 digits, so that sorting file names as strings is sorting by stamp.
- Go's map iteration order: the refill and write-back loops take their keys in an arbitrary order (a `:|` choice). Their contracts hold for every order.
- File system failures are not modelled. Opening, writing and removing files always succeed, except that LMQ.go's missing recovery file is the `None` file of `Lmq.Broker`.
- `Utils.GetRecovery`: its definition in the utils package is not part of this model. Both the current broker and cleanup.go are taken to use the join of LMQ.go:40-42.
- The drain loop of `increaseQueueSize` blocks forever on a buffer of capacity 0. `Server.Broker` therefore requires `QueueInitSize >= 1`, and `Channels.IncreaseQueueSize` requires a positive capacity.
- Queue names holding a space do not survive the log: `Records.QueueWithSpace` shows that the tail moves into the message. The model states the round trip only for space-free queue names.
- Server.Broker.Flush: states what the writer's log becomes. What replaying the directory then gives is the separate lemma `Server.ReplayAfterFlush`, because the writer's invariant lives in the writer.
- Lmq.Broker.Flush: the same split. `Lmq.ReplayAfterAppend` says what replaying the appended file gives.
- Compaction.CleanupRecovery: the log of the result is stated for an empty directory or a plain newest segment. When the newest segment is itself "0"-prefixed, the new segments sort after it and only the layout is stated.
- Compaction.CompactionKeepsCounts: stated when the older segments replay to no negative count. `Compaction.NegativeCountLost` shows why equality fails otherwise. It states counts only, not which queues exist: a queue of the older segments with no positive count (a SET then its GET, say) is not written back, so unless the newest segment names it, it does not come back after a restart, and count and get then answer 404 where they answered 200 "0" and 410. `Compaction.EmptyQueueLost` exhibits this, and `Compaction.WrittenReplay` states which queues the written records do bring back.
- Lmq.Broker.Get: when the stored message holds no '@', the Go code panics after logging the GET. The router answers 500, and this is modelled as `Internal`.
- Tally.ScanLines, Segments.ScanDir, Compaction.ReplayAndRemove, Cleanup.Compact, Lmq.ScanLines64: the 64 KiB line limit of bufio.Scanner (main.go:52, main.go:166, cleanup.go:42, LMQ.go:51) is not modelled, and every line is read whatever its length. In Go, replay of a file stops silently at the first line over 64 KiB, and both compactors then delete that segment with its unread tail (main.go:205, cleanup.go:79-84). Compaction.CompactionKeepsCounts and Cleanup.CompactKeepsPositive hold only under this abstraction.
- Server.Broker: no invariant ties `tally` to a particular writer's log. That a restarted broker rebuilds its queues is the composition of `Server.Broker.Recover`, the `Mirror*` lemmas and `Server.ReplayAfterFlush`, not one statement.
- Lmq.Broker: with `RecoveryChannelSize` 0, Go's unbuffered channel accepts a send while the writer goroutine waits at LMQ.go:116. The model has no concurrency, so it treats a capacity-0 recovery channel as always full, and set, get and delete then answer 500.
