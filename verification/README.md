# Omni-Logging: verified models

Dafny models of the parts of Omni-Logging whose correctness is not visible from
reading one function, with proofs that hold for every input, every interleaving
and every run. `dafny verify dfyconfig.toml` checks the whole project.

## What is modelled

**Durable ingest.** `wal_codec.dfy` has the record format of the write-ahead log
and the scan that recovers a segment. `wal.dfy` has the segmented log as a class
over a directory of byte strings: append with rollback, rotation, checkpoint,
pruning, replay and open, each with the faults and crash points of the code. Its
abstract state is the list of payloads ever appended. `ingest.dfy` is a labelled
transition system of the batching ingestor over that log, with failures at sync,
store and checkpoint, and crashes anywhere; `ingestor.dfy` is the ingestor as a
class over the log and the database of `sqlite.dfy`, whose methods are paths of
that system in any interleaving. `forward.dfy` puts the forwarder's
spool on the same log, over any number of processes.

**Query engine.** `query.dfy` has the in-memory matcher and the WHERE clause as
an expression tree with SQL's three-valued logic, and says exactly where the two
agree. `glob.dfy` and `fts.dfy` do the same for globs and for full-text terms,
`sqlite.dfy` keeps the full-text index exact, `paging.dfy` follows keyset pages
over a store that changes, and `parse.dfy` has the query language.
`end_to_end.dfy` joins ingest and search: what was accepted is found.

**Wire formats.** `protowire.dfy`, `otlp.dfy`, `otlp_logs.dfy` and
`otlp_request.dfy` have the protobuf reader, the mutually recursive decoders of
OTLP values, and the requests of records, scopes and resources around them;
`syslog.dfy` has the structured data of RFC 5424; `framing.dfy` the framings of
RFC 6587 and of gRPC; `ulid.dfy` event IDs.

**State machines.** `admission.dfy` has the token bucket, `tail.dfy` the live-tail
hub and stream, `alert.dfy` the alert lifecycle.

Functions of libraries (CRC-32, JSON, regular expressions, number parsing, gzip,
base64, letter classes) are parameters, with the laws the code relies on and no
others, so each result holds for every such function. Clocks and random bits are
arguments.

## Where the code does less than its comments say

- Comments promise that live tail and search never disagree
  (internal/query/match.go:44-48). They disagree on boolean literals against "1" and
  "0", on case variants of a boolean literal in a column, and on JSON nulls.
  Query.FilterAgreement has the exact list, Query.CornersAreReal two instances.
- Glob matching differs on texts with newlines
  (Glob.AgreeExactlyWithoutNewlines), and free text on null attributes
  (Fts.TextTokens) and, for every term of two words or more on some events, on map
  iteration order (Fts.AnyOrderExactlyWhen).
- Append accepts records that a later scan rejects
  (WalCodec.SurvivesExactlyWhenShort).
- A bracket in an SD-NAME, which section 6.3 of RFC 5424 allows, loses the
  message (Syslog.SplitIsExact, Syslog.BracketInName).
- Messages past the limit of a gRPC stream can be lost without an error
  (Framing.LosesSilentlyExactlyWhen, Framing.LargestHidesTheNext).
- An alert whose evaluation fails right after it fired never announces its
  recovery (Alert.AnnouncedExactlyWhen, Alert.QuietAfterFailure), and rules on ==
  and != can fire on a value they do not report (Alert.FiresOnReportedValue,
  Alert.FiresOnAnotherValue).
- A forwarder that goes on after abandoning a batch can acknowledge past it, and a
  batch whose dead letter cannot be written is acknowledged all the same; either
  is lost exactly when the acknowledgement is written (Forward.LosesExactlyWhen,
  Forward.AbandonedThenDelivered, Forward.RefusedAndUnwritten). Processes that end
  with their first abandoned batch and can write dead letters lose none
  (Forward.Lives).
- A restart forgets when alert rules are due, so a rule can be evaluated again
  before its interval has elapsed (Alert.SpacedAcrossRestart).

## Model

| member | source | states |
|---|---|---|
| WalCodec.ReadsBack | internal/wal/wal.go:291-298 | a record within the size limit is read back from the front of its encoding, whatever bytes follow |
| WalCodec.ReadIsEncoded | internal/wal/wal.go:300-339 | whatever a reader accepts at the front of some bytes is the encoding of a record within the size limit |
| WalCodec.WalFormatLawful | internal/wal/wal.go:291-339 | with any checksum function the record format reads back what it writes and reads nothing else |
| WalCodec.ScanVisitsAPrefix | internal/wal/wal.go:300-339 | on arbitrary bytes the scan visits records whose encoding is a prefix of the bytes, stops just past them, and reports torn exactly when bytes remain |
| WalCodec.ScanIsLongest | internal/wal/wal.go:300-339 | no longer list of records is a prefix of the bytes |
| WalCodec.ScanInverts | internal/wal/wal.go:300-339 | scanning the encoding of a list of records visits that list, cleanly |
| WalCodec.TornTailIsExact | internal/wal/wal.go:85-125 | cut the encoding of any records at any byte: the scan visits precisely the whole records before the cut and reports torn exactly when part of one is left |
| WalCodec.TruncateThenAppend | internal/wal/wal.go:85-125 | truncating where the scan stopped and appending a record gives the encoding of the surviving records and the new one |
| WalCodec.ScanSegment | internal/wal/wal.go:300-339 | the scan loop computes the longest valid prefix, its end and whether it was torn |
| WalCodec.SurvivesExactlyWhenShort | internal/wal/wal.go:26-33 | Append does not check the payload length although the scan rejects long records: an appended record survives a scan exactly when its payload is within the limit |
| WalCodec.EncodeRecord | internal/wal/wal.go:291-298 | the buffer filled field by field holds the encoding of the record |
| WalCodec.ReadRecord | internal/wal/wal.go:310-337 | one pass of the scan loop: clean end, torn tail, or a record with a matching checksum |
| WalCodec.CheckpointReadsBack | internal/wal/wal.go:362-382 | a checkpoint file reads back as the number written to it |
| Wal.WrittenInv | internal/wal/wal.go:133-174 | a record written in full extends the log by its payload; cut at any byte by a crash it leaves a directory that holds the same log |
| Wal.TruncatedInv | internal/wal/wal.go:107-125 | cutting a torn tail loses no record |
| Wal.PrunedInv | internal/wal/wal.go:239-253 | removing covered segments keeps every record above the checkpoint |
| Wal.ReplayIsExact | internal/wal/wal.go:258-275 | replaying the listed segments yields exactly the records above the checkpoint, once each, in order, without gaps |
| Wal.WAL.Open | internal/wal/wal.go:48-128 | opening any directory a crash may leave restores the sequence number and the checkpoint, and the log is as it was |
| Wal.WAL.Append | internal/wal/wal.go:133-174 | Append adds its payload under the next sequence number, or refuses and leaves the log as it was; a crash leaves a directory with or without the record |
| Wal.WAL.SetCheckpoint | internal/wal/wal.go:223-237 | the checkpoint only advances, to the number given exactly when its file is replaced; no record is lost, and without a fault exactly the covered segments go |
| Wal.WAL.Prune | internal/wal/wal.go:239-253 | unless it dies on the way it removes exactly the listed segments whose successor starts at most one past the checkpoint, but for files that cannot be removed; whatever happens no segment that holds a record above the checkpoint goes |
| Wal.WAL.Replay | internal/wal/wal.go:258-275 | the records visited are those above the checkpoint, in order |
| Wal.WAL.Rotate | internal/wal/wal.go:179-190 | retiring a full segment keeps the log |
| Wal.WAL.OpenNewSegment | internal/wal/wal.go:192-204 | a new segment starts at the next sequence number and keeps the log |
| Wal.Dir.ListSegments | internal/wal/wal.go:343-360 | segment files in ascending order of their start |
| Wal.HighestReaches | internal/wal/wal.go:63-105 | the highest sequence number found by the scan is the last record of the log, or all of the log is applied |
| Ingest.NextInv | internal/ingest/ingest.go:170-336 | every step (enqueue, batch, sync, store, checkpoint, stop, crash, open, recovery) keeps the invariant of log, store, queue and checkpoint |
| Ingest.RunInv | internal/ingest/ingest.go:170-336 | the invariant holds after every run, of any length and interleaving |
| Ingest.CrashSafety | internal/ingest/ingest.go:170-336 | after every run an accepted event is in the store or is a record above the persisted checkpoint, everything at or below the persisted checkpoint is in the store, and nothing refused is in the log |
| Ingest.RecoveryIsComplete | internal/ingest/ingest.go:210-255 | after a recovery that succeeds every accepted event is stored and nothing refused is |
| Ingest.DrainedIsStored | internal/ingest/ingest.go:258-304 | a stopped writer that drained its queue without a stall has stored every record |
| Ingest.FlushStoreInv | internal/ingest/ingest.go:306-336 | storing a batch keeps the invariant, including events that were stored before |
| Ingest.FlushCheckpointInv | internal/ingest/ingest.go:306-336 | the checkpoint advances only over stored records, and never after a stall |
| Ingest.CrashInv | internal/ingest/ingest.go:170-336 | a crash at any point, with or without a record just written or a checkpoint just renamed, keeps what recovery needs |
| Ingestor.Ingestor.Enqueue | internal/ingest/ingest.go:170-205 | whatever the batch writer is doing, an event is logged and queued when there is room and the log takes it, and refused otherwise; the call is a path of the transition system |
| Ingestor.Ingestor.Log | internal/ingest/ingest.go:176-200 | the append under the producers' lock is a step, whatever the batch writer is doing; a death in it leaves the event logged or not |
| Ingestor.Ingestor.WriteStore | internal/ingest/ingest.go:306-324 | the write of a batch to the database, whole or not at all, is a step of the transition system |
| Ingestor.Ingestor.AdvanceCheckpoint | internal/ingest/ingest.go:325-332 | without a fault the checkpoint file moves to the last record of the batch; its failure or a death at it is a step, and after a stall nothing on disk moves |
| Ingestor.Ingestor.Die | internal/ingest/ingest.go:170-336 | the process may die wherever it is, which is a step of the transition system |
| Ingestor.Ingestor.Interleave | internal/ingest/ingest.go:170-336 | any schedule of arrivals, appends, sends, single steps of a flush, Stop and deaths is a path of the transition system: each action takes its step whenever it is enabled, and none otherwise |
| Ingestor.Ingestor.Flush | internal/ingest/ingest.go:306-336 | one batch through sync, store and checkpoint, each of which may fail, is a path of the transition system; a failure stalls the checkpoint for good, and without one it covers the batch |
| Ingestor.Ingestor.Drain | internal/ingest/ingest.go:270-304 | after Stop the loop empties queue and batch, unless a fault kills it; without a stall every record is then stored, and without a fault the checkpoint covers them all |
| Ingestor.Ingestor.Recover | internal/ingest/ingest.go:210-255 | recovery replays the records above the checkpoint in batches of the configured size and stores them all, or fails |
| Ingestor.Ingestor.Stop | internal/ingest/ingest.go:258-266 | Stop is a step of the transition system |
| Ingestor.Ingestor.Receive | internal/ingest/ingest.go:270-304 | taking an event from the queue is a step of the transition system |
| Model.UpsertFinds | internal/store/sqlite/sqlite.go:71-83 | after a batch an ID finds an event of the batch that bears it, else what was there |
| Model.UpsertStores | internal/store/sqlite/sqlite.go:71-83 | writing events whose IDs determine them keeps what is stored and stores the batch |
| Glob.LikeIsGlob | internal/store/sqlite/search.go:194-210 | the escaped LIKE pattern of a glob matches exactly what the glob means, for every text |
| Glob.PiecesAndGlob | internal/query/match.go:200-220 | the regular expression of a glob matches only what the glob means, and all of it on texts without newlines |
| Glob.RegexCompiles | internal/query/match.go:210-220 | the expression built from quoted parts always compiles to literals and stars in the pattern's order |
| Glob.EnginesAgree | internal/query/match.go:200-220 | LIKE, the regular expression and the direct meaning of a glob agree on every text without newlines |
| Glob.AgreeExactlyWithoutNewlines | internal/store/sqlite/search.go:194-210 | the two engines agree on a text for every pattern if and only if the text has no newline |
| Glob.WriteLike | internal/store/sqlite/search.go:196-210 | the loop writes the LIKE pattern of the glob |
| Glob.WriteRegex | internal/query/match.go:210-220 | the loop over the parts writes the expression of the glob |
| Fts.Tokenize | internal/query/match.go:289-312 | the loop computes the maximal runs of word characters, folded |
| Fts.TokensConcat | internal/query/match.go:289-312 | no token crosses a character that is not part of a word |
| Fts.TextTokens | internal/query/match.go:274-287 | the tokens of the indexed text are the tokens the matcher searches, if and only if no attribute is null |
| Fts.WriteFtsText | internal/store/sqlite/sqlite.go:247-265 | the builder writes the text the index holds |
| Fts.ContainsTokens | internal/query/match.go:314-339 | the nested loops find a phrase exactly when it occurs as whole tokens with the last as a prefix |
| Fts.TermMatchesTokens | internal/query/match.go:265-272 | a term is found when its tokens occur as a phrase, and never when it has none |
| Fts.MatchExprReads | internal/store/sqlite/search.go:232-244 | FTS5 reads the MATCH expression back to exactly the terms, whatever quotes or operators they contain |
| Fts.TermsAgree | internal/store/sqlite/search.go:232-244 | without null attributes a MATCH expression selects an indexed text exactly when the matcher accepts the event |
| Fts.OneTokenInAnyOrder | internal/query/match.go:274-287 | a term of one token is found, or not, whatever order the attributes are visited in |
| Fts.SteadyInAnyOrder | internal/query/match.go:274-287 | neither does the order matter to a phrase in the text before the attributes or within one of them, to a phrase with a word the event lacks, or on fewer than two attributes |
| Fts.OrderDecides | internal/query/match.go:274-287 | for every term of two words or more there is an event on which it is found in one order of the attributes and not in another |
| Fts.AnyOrderExactlyWhen | internal/query/match.go:274-287 | a term is found or not in whatever order the attributes of any event are visited, if and only if it has at most one word |
| Query.FilterAgreement | internal/store/sqlite/search.go:82-156 | for all operators, fields and values, the SQL condition selects the row exactly when the matcher accepts the event, if and only if the pair is not one of the listed corners |
| Query.ColumnAgrees | internal/store/sqlite/search.go:82-156 | agreement on column filters, exactly outside the corners |
| Query.MissingAgrees | internal/store/sqlite/search.go:114-123 | a missing attribute satisfies != and nothing else, in both engines |
| Query.AttrSelected | internal/store/sqlite/search.go:82-156 | what the condition on a present attribute comes to under three-valued logic |
| Query.BoolTruthIs | internal/store/sqlite/search.go:163-178 | the condition on a boolean literal holds of the JSON boolean and of text that folds to the literal, and is unknown of null |
| Query.BoolEqualIs | internal/query/match.go:118-133 | the matcher equates a literal with what folds to it and with the digit it stands for |
| Query.CornersAreReal | internal/query/match.go:44-99 | the corners occur: service=true against "1", and attr.k=* against null |
| Query.CoercionIsExact | internal/query/match.go:168-198 | text compares alike as a number in both engines for all operators and operands if and only if both read the same number |
| Query.PathReadsBack | internal/store/sqlite/search.go:225-230 | SQLite reads the JSON path back to the key if and only if the key has no quote |
| Query.BuildWhere | internal/store/sqlite/search.go:37-63 | the loop collects the conditions of terms, bounds and filters, in order |
| Query.Matches | internal/query/match.go:18-42 | the loops accept exactly the events within the bounds that satisfy every filter and term |
| Query.JoinedSelects | internal/store/sqlite/search.go:25-31 | joining conditions by AND selects exactly the rows that each selects, under three-valued logic |
| Query.QueryAgreement | internal/query/match.go:14-42 | a whole query run as SQL and in memory gives the same answer, away from the corners |
| Paging.KeysetSelects | internal/store/sqlite/search.go:212-223 | the keyset condition selects exactly the rows listed after the cursor, in both orders |
| Paging.SearchSelectsTheRest | internal/store/sqlite/search.go:260-274 | the statement's rows are the query's rows after the cursor |
| Paging.PageIsPrefix | internal/store/sqlite/search.go:260-344 | a page is sorted, complete when short, and otherwise followed by everything else |
| Paging.PagesTile | internal/store/sqlite/search.go:299-344 | over a fixed store following the cursors ends and lists exactly what Stream lists, in both orders |
| Paging.NothingIsMissed | internal/store/sqlite/search.go:299-344 | when rows come and go between pages, a row that is there throughout is seen |
| Paging.NothingIsRepeated | internal/store/sqlite/search.go:299-344 | no row is seen twice, however the store changes |
| Paging.FollowedIsReal | internal/store/sqlite/search.go:299-344 | what is seen was in the store when its page was served |
| Paging.ReaderFinishes | internal/store/sqlite/search.go:299-344 | over a fixed store the reader finishes |
| Paging.Search | internal/store/sqlite/search.go:299-344 | the rows are the page after the cursor, and the token returned is that of its last row exactly when the page is full |
| Paging.CursorRoundTrip | internal/query/cursor.go:13-33 | a cursor decodes to its time and ID, whatever the ID contains, if and only if the time fits 64 bits |
| Paging.ClientFollows | internal/store/sqlite/search.go:299-344 | a client that sends back each token it was given, while the store changes, sees what following the keys gives, if events have IDs and times of 64 bits |
| Sqlite.DB.Append | internal/store/sqlite/sqlite.go:178-245 | a batch is upserted in one transaction, rows keep their row IDs and the index stays exact; a failing statement changes nothing |
| Sqlite.DB.Purge | internal/store/sqlite/sqlite.go:267-293 | purging removes exactly the older events and their index rows |
| Sqlite.DB.RebuildFtsRowids | internal/store/sqlite/migrate.go:132-181 | whatever the index held, the rebuilt index is exact |
| Sqlite.RebuiltIndex | internal/store/sqlite/migrate.go:132-181 | an index filled from the table alone describes every row under its row ID |
| Sqlite.AgainChangesNothing | internal/store/sqlite/sqlite.go:190-195 | re-applying a batch changes nothing |
| Sqlite.HoldsPut | internal/store/sqlite/sqlite.go:195-203 | updating in place or inserting an unused row keeps one row per ID |
| Sqlite.SearchFindsWhatMatches | internal/store/sqlite/search.go:246-255 | in a store with an exact index a query finds exactly the events the matcher accepts, if its terms are single words, or phrases to which the order of the attributes cannot matter |
| Protowire.VarintReadsBack | internal/otlp/protowire.go:54-74 | every 64-bit number reads back from its varint, whatever follows |
| Protowire.FieldReadsBack | internal/otlp/protowire.go:41-126 | every field reads back from its encoding, whatever follows |
| Protowire.FieldExtends | internal/otlp/protowire.go:41-126 | what was read at the front does not depend on what follows |
| Protowire.Reader.Varint | internal/otlp/protowire.go:54-74 | the loop over shifted groups of bits computes the number modulo 2^64, or fails on a truncated or eleventh byte |
| Protowire.Reader.Tag | internal/otlp/protowire.go:40-52 | a tag splits into field and wire type, and field zero is refused |
| Protowire.Reader.Bytes | internal/otlp/protowire.go:76-87 | a length-delimited payload within the message |
| Protowire.Reader.Fixed | internal/otlp/protowire.go:89-105 | fixed-width little-endian numbers |
| Protowire.Reader.Skip | internal/otlp/protowire.go:107-126 | skipping a field moves past exactly what reading it would |
| Protowire.AppendVarint | internal/otlp/grpc.go:353-359 | the loop appends the varint of the number |
| Otlp.AnyRoundTrip | internal/otlp/logs.go:383-520 | every value decodes to its meaning if it is within the nesting budget, and to an error if it is not |
| Otlp.ArrayRoundTrip | internal/otlp/logs.go:466-491 | the same of array values |
| Otlp.KvlistRoundTrip | internal/otlp/logs.go:493-520 | the same of key-value lists: empty keys are dropped and later entries replace earlier ones |
| Otlp.KeyValueRoundTrip | internal/otlp/logs.go:383-417 | the same of one key and value |
| Otlp.SurroundingsChangeNothing | internal/otlp/logs.go:419-464 | well-formed unknown fields before a value, and any bytes after it, change nothing |
| Otlp.DecodeAnyValue | internal/otlp/logs.go:419-464 | the reader loop decodes the first value field |
| Otlp.DecodeArrayValue | internal/otlp/logs.go:466-491 | the reader loop decodes every element, or fails |
| Otlp.DecodeKvlist | internal/otlp/logs.go:493-520 | the reader loop decodes every entry, or fails |
| Otlp.ReadKeyValue | internal/otlp/logs.go:383-417 | the reader loop decodes the last key and the last value |
| OtlpLogs.IgnoredAnywhere | internal/otlp/protowire.go:107-126 | a field that a decoder passes over can stand anywhere in its message without changing what is decoded |
| OtlpLogs.UnknownInRecord | internal/otlp/logs.go:300-304 | unknown fields anywhere in a record change nothing |
| OtlpLogs.ResourceTaken | internal/otlp/logs.go:134-163 | the attributes of a resource decode to its entries, later ones replacing earlier ones, exactly when all fit the nesting budget |
| OtlpLogs.RecordRoundTrip | internal/otlp/logs.go:229-310 | a log record decodes to its numbers, texts, body, attributes and hex IDs exactly when body and attributes fit the nesting budget, and to an error otherwise |
| OtlpLogs.DecodeResource | internal/otlp/logs.go:134-163 | the reader loop adds the attributes of a resource, or fails |
| OtlpLogs.DecodeLogRecord | internal/otlp/logs.go:229-310 | the reader loop decodes a log record, or fails |
| OtlpRequest.NameReads | internal/otlp/logs.go:208-227 | the name of a scope reads back |
| OtlpRequest.ScopeFound | internal/otlp/logs.go:165-206 | a scope decodes to its name and its records in order |
| OtlpRequest.BatchFound | internal/otlp/logs.go:89-132 | the resource and the scopes are found wherever the resource stands among them |
| OtlpRequest.RequestRoundTrip | internal/otlp/logs.go:62-132 | an export request of any resources, scopes and records becomes the events it means, in order, exactly when every attribute and body fits the nesting budget; a resource applies to scopes before it too |
| OtlpRequest.FirstAttrIsFirst | internal/otlp/logs.go:347-356 | the earliest key that is present and not empty names the service or host |
| OtlpRequest.Inherit | internal/otlp/logs.go:318-322 | resource attributes are added without overriding those of the record |
| OtlpRequest.FinishEvent | internal/otlp/logs.go:315-345 | the fields of the event follow from the record, its scope and its resource |
| OtlpRequest.DecodeScopeName | internal/otlp/logs.go:208-227 | the reader loop finds the first name, and none in a malformed scope |
| OtlpRequest.DecodeScopeLogs | internal/otlp/logs.go:165-206 | the loops decode the events of a scope, or fail |
| OtlpRequest.DecodeResourceLogs | internal/otlp/logs.go:89-132 | the loops decode the events of a resource, or fail |
| OtlpRequest.DecodeProtobuf | internal/otlp/logs.go:62-87 | the loop decodes the events of a request, or fails |
| Syslog.SplitIsExact | internal/syslog/parse.go:148-191 | printed structured data and the message come apart if and only if the names leave no bracket open, or there is no message |
| Syslog.ElementsAreExact | internal/syslog/parse.go:212-242 | the elements come apart if and only if no ID hides its closing bracket |
| Syslog.UnquoteInverts | internal/syslog/parse.go:278-300 | unescaping inverts escaping for every value |
| Syslog.ElementReads | internal/syslog/parse.go:244-276 | an element is read back as its ID and parameters |
| Syslog.StructuredDataRoundTrip | internal/syslog/parse.go:148-210 | for every list of elements with balanced names, of any values, the message is intact and the attributes are what the elements mean |
| Syslog.PlainNamesAreBalanced | internal/syslog/parse.go:148-191 | names free of [ and of backslashes are balanced |
| Syslog.BracketInName | internal/syslog/parse.go:148-191 | a name with a bracket, which the standard allows, loses the message |
| Syslog.SplitOff | internal/syslog/parse.go:151-191 | the scan loop splits where the last bracket closes |
| Syslog.CollectElements | internal/syslog/parse.go:212-242 | the scan loop collects the bracketed elements |
| Syslog.ReadQuoted | internal/syslog/parse.go:278-300 | the loop reads a quoted value, or fails when it is not closed |
| Syslog.ReadElementID | internal/syslog/parse.go:244-276 | the loop reads parameters until something is not one |
| Syslog.Flatten | internal/syslog/parse.go:193-210 | the loop stores each parameter under its qualified name, in whatever order the map yields them |
| Framing.FramesInvert | internal/syslog/server.go:255-315 | any mix of octet-counted and newline-terminated frames decodes to the messages sent |
| Framing.ReadOctetCounted | internal/syslog/server.go:268-296 | the digit loop reads a count and its message, or falls back to a line |
| Framing.ServeConnection | internal/syslog/server.go:230-253 | the connection loop hands on every non-empty message until the stream ends |
| Framing.FramesReadExactlyWhenShort | internal/otlp/grpc.go:181-225 | uncompressed messages within the size limit read back if and only if the whole stream fits its limit |
| Framing.CutReads | internal/otlp/grpc.go:181-225 | a stream cut at any byte reads if and only if the cut falls between messages, and then as the messages before it |
| Framing.LosesSilentlyExactlyWhen | internal/otlp/grpc.go:181-225 | a stream past its limit is read without an error if and only if the limit falls right after some message, and the later ones are then missing |
| Framing.LargestHidesTheNext | internal/otlp/grpc.go:181-225 | after a message of the largest size the next one is lost without an error |
| Framing.ReadAllFrames | internal/otlp/grpc.go:181-225 | the loop decodes every frame, or fails |
| Parse.ParseUndoesPrint | internal/query/parse.go:29-59 | any list of printable filters and quoted terms, in any order, parses to those filters and terms, in order |
| Parse.FilterReads | internal/query/parse.go:155-214 | the text of a filter parses to that filter, for all ten operators |
| Parse.ListReads | internal/query/parse.go:216-226 | a printed list splits to its elements |
| Parse.OpSplits | internal/query/parse.go:121-153 | a token splits at its first operator |
| Parse.Tokenize | internal/query/parse.go:233-266 | the loop splits on whitespace outside quotes, and fails on an unterminated quote |
| Parse.FindOperator | internal/query/parse.go:125-153 | the loop finds the first operator after a non-empty key |
| Parse.ParseQuery | internal/query/parse.go:29-59 | the loop sorts tokens into terms, time directives and filters, or fails |
| Ulid.DigitsAreTheNumber | internal/model/id.go:36-67 | the 26 characters are the base-32 digits of the 128-bit number |
| Ulid.EncodingKeepsOrder | internal/model/id.go:11-14 | IDs compare as strings exactly as their bytes compare as a number |
| Ulid.LaterSortsAfter | internal/model/id.go:19-34 | an ID made at a later millisecond sorts after, whatever the random bits |
| Ulid.NewIdAt | internal/model/id.go:19-34 | the timestamp fills six bytes and the random bits ten |
| Ulid.EncodeCrockford | internal/model/id.go:36-67 | the masks and shifts of the 26 assignments are the base-32 digits, spelled in the alphabet |
| Tail.Subscriber.Receive | internal/tail/hub.go:28-35 | the reader takes the oldest waiting event |
| Tail.Subscriber.Send | internal/tail/hub.go:84-98 | a send without blocking queues the event or counts it as dropped |
| Tail.Subscriber.Offer | internal/tail/hub.go:84-99 | while the reader takes what it likes, every matching event is queued or dropped, and the drop that reaches the limit is reported once |
| Tail.Hub.Publish | internal/tail/hub.go:81-105 | every registered subscriber is offered exactly the matching events; exactly those at their limit of drops are evicted, their channel closed once and not sent to again, except those that left by themselves in between |
| Tail.Hub.Close | internal/tail/hub.go:60-68 | a channel is closed once |
| Tail.Hub.Evict | internal/tail/hub.go:107-118 | a channel is closed once, and eviction is counted once |
| Tail.Hub.Subscribe | internal/tail/hub.go:46-58 | a new subscriber starts with nothing offered |
| Tail.ThinnedDistinct | internal/tail/hub.go:81-105 | what a reader receives has no ID twice if what was published has none twice |
| Tail.StreamCounts | internal/tail/sse.go:84-166 | how often a connection writes an ID, for every history and every sequence of events received |
| Tail.EachEventOnce | internal/tail/sse.go:84-166 | with IDs published once a connection writes each event at most once: exactly the history new to the client and the channel events not in history |
| Tail.Serve | internal/tail/sse.go:84-166 | the handler writes the stream, or a prefix of it when the client is gone |
| Admission.Limiter.Admit | internal/admission/admission.go:94-115 | a decision and the state it leaves |
| Admission.Limiter.StateLocked | internal/admission/admission.go:129-154 | refill, cap and daily reset of one key |
| Admission.Limiter.Count | internal/admission/admission.go:117-127 | recording usage touches one key |
| Admission.Limiter.SetLimits | internal/admission/admission.go:70-85 | new limits leave the buckets and counters as they are |
| Admission.NewLimitsHold | internal/admission/admission.go:70-85 | a bucket holds at most the new capacity exactly when time has passed since it was last filled or it did before |
| Admission.TokenBucketBound | internal/admission/admission.go:94-154 | in any interleaving over any keys the requests of one key let through between two instants are at most the burst and the rate times the time between |
| Admission.KeysAreIndependent | internal/admission/admission.go:94-154 | the answers a key gets are those it would get alone |
| Admission.AfterIsFine | internal/admission/admission.go:129-154 | no bucket ever exceeds its capacity or goes below zero |
| Forward.Forwarder.Deliver | internal/forward/forward.go:367-386 | a batch is spooled if it can be and posted in any case, after an abandoned one too, with the outcome of its call; if everything spooled was settled and a needed dead letter is written, nothing behind the checkpoint file is left unsettled, whether or not the process dies |
| Forward.Forwarder.Settle | internal/forward/forward.go:388-429 | a batch is acknowledged unless it was abandoned, even if its dead letter could not be written, and the checkpoint file moves or not |
| Forward.Forwarder.SendAll | internal/forward/forward.go:234-284 | each batch is answered as its call says, in order, until the process dies; up to the first abandoned batch, and with dead letters written, nothing behind the checkpoint file is left unsettled, however it ends |
| Forward.Forwarder.Run | internal/forward/forward.go:131-154 | what an earlier process left is posted again, oldest first, and then each new batch as its call says, even if one was abandoned; a process that ends with its first abandoned batch leaves nothing unsettled behind the checkpoint file, however it ends |
| Forward.Forwarder.DrainSpool | internal/forward/forward.go:431-453 | the replay posts exactly the readable batches above the checkpoint, oldest first, up to an abandoned one or a death; acknowledging never removes a segment that is still to be opened; and with dead letters written nothing behind the checkpoint file is left unsettled, whichever way it ends |
| Forward.Forwarder.DrainRecord | internal/forward/forward.go:431-453 | one record of the replay: posted and settled, or passed over if it does not read back; with its dead letter written nothing behind the checkpoint file is left unsettled |
| Forward.Forwarder.DrainRecords | internal/forward/spool.go:86-98 | one segment of the replay, its file removed or not: the same for each of its records, whichever way it ends |
| Forward.Forwarder.Ack | internal/forward/spool.go:78-84 | acknowledging moves the checkpoint file to the batch, or leaves it if it cannot be written |
| Forward.Reopen | internal/forward/spool.go:45-55 | the next process finds a batch exactly when no acknowledgement at it or past it was written; a batch is lost exactly when it is not found and was never accepted, nor recorded, nor unreadable |
| Forward.MarkedIsPersisted | internal/forward/spool.go:78-84 | a batch is behind the persisted checkpoint exactly when an acknowledgement at it or past it was written |
| Forward.LosesExactlyWhen | internal/forward/forward.go:388-429 | a process on a new spool loses a batch if and only if the checkpoint file passes one that it abandoned or could not record, or one that could not be spooled was not delivered |
| Forward.FirstProcess | internal/forward/forward.go:367-429 | the same over the real log: from an empty directory, any calls with their faults and deaths, the deliveries they come to, and what the next process finds |
| Forward.Lives | internal/forward/forward.go:131-154 | any number of processes on one spool, each ended by a death anywhere or not: a batch is lost exactly when the last does not find it and it was never settled, and none is if every process ends with its first abandoned batch and can write its dead letters |
| Forward.ReplayKeeps | internal/forward/forward.go:431-453 | a replay that ends anywhere leaves everything at or below the checkpoint file accepted, recorded or unreadable |
| Forward.SendingKeeps | internal/forward/forward.go:234-284 | so does sending up to the first abandoned batch, wherever the process dies |
| Forward.AbandonedThenDelivered | internal/forward/forward.go:374-429 | calls that abandon one batch and deliver the next lose the first exactly when the second is acknowledged in the checkpoint file |
| Forward.RefusedAndUnwritten | internal/forward/forward.go:388-429 | a call whose batch is refused for good and whose dead letter cannot be written loses it exactly when it is acknowledged in the checkpoint file |
| Forward.UnspooledAndAbandoned | internal/forward/forward.go:367-386 | a call whose batch cannot be spooled and is then abandoned loses it |
| Forward.KeptWhileUnmarked | internal/forward/forward.go:388-429 | going on after an abandoned batch, or failing to record a refused one, loses nothing while the acknowledgement is not written |
| Forward.LostOnceMarked | internal/forward/forward.go:374-429 | once it is written the batch is lost; so is a batch that the spool refused and that was then abandoned |
| Alert.EvaluateAggregation | internal/alert/evaluate.go:59-102 | the loop reports the worst value in the condition's direction and fires exactly when some value matches, an empty result counting as zero |
| Alert.FiresOnReportedValue | internal/alert/evaluate.go:104-114 | for ordered conditions a rule fires exactly when its condition holds of the reported value; for == and != the exact exceptions, in terms of the rows |
| Alert.FiresOnAnotherValue | internal/alert/evaluate.go:104-114 | rows of 1 and 2 fire on == 2 reporting 1, and on != 2 reporting 2 |
| Alert.ResolvedFollowsAlarm | internal/alert/scheduler.go:165-192 | over every history a resolution directly follows an alarm |
| Alert.AlternateExactlyWhen | internal/alert/scheduler.go:139-192 | notifications alternate if and only if no evaluation fails right after an alarm before the rule fires again |
| Alert.AnnouncedExactlyWhen | internal/alert/scheduler.go:139-192 | the recovery of a rule that fired and was later quiet is announced if and only if no evaluation failed right after it last fired |
| Alert.QuietAfterFailure | internal/alert/scheduler.go:139-192 | a rule that fires, fails and is quiet never announces its recovery, although its notifications alternate |
| Alert.AlarmAfterFailure | internal/alert/scheduler.go:139-192 | a rule that fires, fails and fires again sends two alarms in a row |
| Alert.InDoubt | internal/alert/scheduler.go:139-192 | an alarm is the last notification of a rule that is not firing if and only if an evaluation failed right after it |
| Alert.Scheduler.Due | internal/alert/scheduler.go:128-137 | a rule is due once its interval has elapsed, and the slot is claimed |
| Alert.Scheduler.Evaluate | internal/alert/scheduler.go:139-192 | the stored state and the notification follow the outcome, and the evaluation is recorded |
| Alert.Scheduler.constructor | internal/alert/scheduler.go:60-75 | a process starts on the stored rules, their states kept and every slot forgotten |
| Alert.PassedIsTracked | internal/alert/scheduler.go:100-137 | a pass keeps the stored state that of the last evaluation, and the evaluations of the process an interval apart |
| Alert.SpacedAcrossRestart | internal/alert/scheduler.go:100-137 | over a restart the evaluations of a rule stay an interval apart if and only if the first of the new process comes an interval after the last of the old ones |
| Alert.PassAfterRestart | internal/alert/scheduler.go:100-137 | the first pass of a new process evaluates an enabled rule at once: two processes keep the interval exactly when their passes do |
| Alert.Scheduler.RunDue | internal/alert/scheduler.go:100-126 | a pass takes the listed rules in turn, each evaluated with its outcome if it is enabled and due and left alone otherwise |
| Alert.PassEvaluates | internal/alert/scheduler.go:100-126 | in such a pass every listed rule whose turn it is is evaluated exactly once, and no other is |
| EndToEnd.StoredIsFound | internal/store/sqlite/search.go:299-344 | following the pages of a search reaches every event in the database that the query accepts |
| EndToEnd.AcceptedIsFound | internal/ingest/ingest.go:210-255 | after a recovery that succeeds, and after anything the ingestor does next, a search of its database finds every event accepted before that the query accepts |
| EndToEnd.Restart | internal/ingest/ingest.go:210-255 | opening, recovering and serving any schedule on what an earlier process left: if recovery succeeds, as it does without faults, everything accepted before is in the database at the end |
| EndToEnd.RefusedIsNotFound | internal/ingest/ingest.go:170-200 | no event that was refused is in the database or its index |

## Left out

- Power loss: records are in the page cache until a sync, so the log and ingest results are about a process that dies, not a machine.
- Wal.WAL.Append: requires a payload within the scan's limit and fewer than 2^64 records, because the code checks neither; the rollback's Truncate is taken to succeed, and there is no Append after Close, which is not modelled.
- Wal.WAL.SetCheckpoint: requires a sequence number that was handed out, as its callers guarantee; the checkpoint is a number here, its eight bytes are WalCodec.CheckpointReadsBack.
- Corruption of segments other than by a torn write: the scan of arbitrary bytes is exact (WalCodec.ScanVisitsAPrefix, WalCodec.ScanIsLongest), but the log's invariant assumes that only crashes damage files.
- Ingestor.Ingestor.Flush: one call takes its steps without a gap, as Drain does after Stop; Ingestor.Ingestor.Interleave has them apart, with producers, Stop and deaths between.
- Ingestor.Ingestor.Recover: retention purging is not interleaved with ingest; it only removes events, so EndToEnd.AcceptedIsFound holds until an event is purged, and EndToEnd.StoredIsFound at any time.
- Ingest.FlushStoreInv: event IDs are new, as server-assigned ULIDs are, so a batch never replaces an event by another of its ID, although the database would.
- Ingest.CrashSafety: an event whose JSON does not decode cannot be in the log.
- Query.FilterAgreement: letters are folded as ASCII, numeric operands are finite reals, attributes are JSON scalars, and numbers are printed alike by Go and SQLite; a pattern that does not compile and a key with a quote, which fail the whole statement, count as selecting nothing. Operators outside the ten cannot come from the parser.
- Query.QueryAgreement: FTS5's diacritic removal and other differences of its tokenizer from runs of letters and digits.
- Fts.SteadyInAnyOrder: for a phrase and one event it is a sufficient condition; over all events Fts.AnyOrderExactlyWhen is exact.
- Glob.EnginesAgree: ASCII case folding only.
- Paging.Search: the database's ORDER BY and LIMIT are the sorted list of the selected keys; totals and timeouts are left out.
- Sqlite.DB.Append: tables are maps and transactions atomic; received_at is left out.
- Otlp.AnyRoundTrip: doubles are their 64 bits; the JSON encoding is left out.
- OtlpRequest.FinishEvent: how values other than strings print, and how severity words are parsed, are parameters; the ID comes from Ulid.
- OtlpLogs.DecodeLogRecord: the depth it is called at is a constant, since every caller passes the same one.
- Protowire.Reader.Varint: or-ing disjoint groups of bits is written as addition.
- Syslog.StructuredDataRoundTrip: invalid escapes, whose backslash the code drops, and the header fields and RFC 3164 heuristics before the data.
- Framing.FramesInvert: the line size limit, which is only checked after the whole line was read, and the trimming and parsing of a message once it is framed.
- Parse.ParseUndoesPrint: aliases of fields and unquoted terms are parsed but never printed; layouts of dates and durations are a parameter; aggregation stages.
- Ulid.LaterSortsAfter: milliseconds beyond 48 bits, and moments before 1970.
- Tail.Hub.Publish: locking is atomicity, except that readers run while events are sent and subscribers may leave before the evictions; the total over all subscribers of dropped events.
- Tail.EachEventOnce: completeness of a resume across reconnects, since IDs within one millisecond do not ascend; heartbeats, and events that do not marshal.
- Admission.TokenBucketBound: limits that do not change between the two instants, and a clock that does not run backwards; tokens are reals.
- Forward.Forwarder.Deliver: posting is its outcome, since with a spool transient failures are retried without limit; delivery without a spool, and what the server does with a batch ID, are left out.
- Alert.Scheduler.Evaluate: the outcome of the query is a parameter, and state writes are taken to succeed; channels, severities and group labels. Evaluations are an interval apart within one process only, since a restart forgets the slots (Alert.SpacedAcrossRestart).
- HTTP handlers, authentication, TLS, sockets, the web UI, configuration, exports and metrics: plumbing.
