# rds_dbsync: a model and its proofs

rds_dbsync copies a database and then keeps the copy up to date by logical replication: an output plugin
(`ali_decoding`) writes every change of the source into a binary message, a receive thread decodes the message,
turns it into SQL text and stores it in the local table `sync_sqls`, and an apply thread runs the stored texts on
the target.  This project models that pipeline and what it stands on, and proves what it promises.

The modules follow the way of a change:

- **Wire format.** `Wire` gives the bytes of a message and a reader for them; `WireWriter` is the plugin's writer
  on a growable buffer, `WireReader` the client's cursor and the decode message with its fixed arrays.  Any message
  decodes to what was sent.
- **Change to SQL.** `SqlGen` holds the statement that a decoded change stands for and the loops that print it;
  `Literals` the three ways a value is printed and a lexer; `SqlText` a small SQL grammar with a parser that knows
  nothing of the printer; `SqlRoundTrip` shows that it reads the printed text back, and `SqlTextExact` exactly when
  it does.  `TableNames` says exactly when the names in the text denote the table, `ColumnSpelling` the same of the
  columns of the identity.  `SqlMeaning` gives tables and three-valued conditions, `ChangeMeaning` shows that the statement does to a
  table what the change did, and `EndToEnd` puts the stages together: bytes, decoding, text, parsing, execution.
- **Receive, log, apply.** `Receive` and `ReceiveLog` are the receive thread, the replication slot and the network
  as a state machine; `ReceivePlay` delivers transactions in it, `FailedFeedback` and `FailureLoss` say exactly after
  which failed reports acknowledgement outruns storage and rows are lost, `Reconnects` which reconnects do harm.  `ApplyThread`, `ApplyProofs` and `ApplyLoop` are the apply
  thread as a state machine and as the code's loops, on the log of `SyncLog`; `ThreadStops` says which transactions
  it gets over, and `PipelineStops` that the others stop it for good.  `Replay` holds the algebra of running logged statements again and `KeyChanges` its limits; `Pipeline`
  runs both threads together.  `Mishaps`, `ThreadMishaps` and `NameMishaps` have runs in which something goes wrong.
- **Texts and rows.** `Handler`, `Translation` and `ReceiveLoop` are the receive thread's own loop, from the bytes on
  the connection to the texts in the log.  `KeyedTables` and `Databases` make the statements operations of `Replay` on
  one table and on all tables together, `TextThread` runs the apply thread on texts and rows, and `TextPipeline`
  carries convergence over to them.
- **Initial copy.** `CopyQueue` is the shared list of tables with its threads and final tallies; `CopyCsv` the
  CSV stream of the MySQL path.
- **Ground.** `OptionType`, `CStrings`, `BigEndian`, `LsnText`, `StringInfos` (the growable buffer and the printf
  loops), and `Ini` with `IniFile` (the INI file that is split in place).

## Where the code departs from the ideal

Each of these is either a condition of a theorem that a caller could check, or a lemma with a concrete run.

- A null in WHERE is printed as `col=null` and matches nothing.  A full-row UPDATE or DELETE therefore does what the
  source did exactly when the old row has no null and is in the table once (`ChangeMeaning.FullRowUpdate`,
  `ChangeMeaning.FullRowDelete`, both directions).
- A full-row UPDATE that changes nothing, a keyed UPDATE of a relation that is all key, and an INSERT whose last
  attribute is dropped have no readable text; NaN and Infinity in a numeric or float column are printed bare, and a
  date with a quote would be put between quotes as it is, though no date type prints one.  A statement reads back as
  what was meant exactly when none of these is in it (`SqlTextExact.TextRoundTripIff`, `EndToEnd.StatementReadsIff`).
- The plugin sends the names of schema and relation as they are, and they are printed without quotes, so the server
  reads them in small letters; the initial copy does quote them.  The text of a change is about its own table if and
  only if both names are words in small letters and the schema's is not a reserved word (`EndToEnd.NamesOwnTableIff`);
  the theorems on whole stages and on texts ask that.  A change of "Orders" runs on `orders` (`EndToEnd.FoldedTarget`,
  `Databases.FoldedRuns`, `NameMishaps.OrdersRun`), or ends the thread when there is no such table
  (`NameMishaps.NoSuchTableStops`).
- Column names are sent as quote_identifier spells them, and that spelling denotes the column
  (`ColumnSpelling.SpellingDenotes`); the columns of the identity are sent as they are called.  The two agree, and
  UPDATE and DELETE find their row by the identity, if and only if no name in the identity needs quotes
  (`ColumnSpelling.IdentityFoundIff`); that is what `EndToEnd.SqlRelation` asks of a key.  Otherwise there are tables
  on which a DELETE has no text or takes out other rows too (`ColumnSpelling.DeletesWellIff`, a run in
  `NameMishaps.RawKeyRun`).
- An unchanged-toast value in a keyed UPDATE or in a WHERE has no text: the code hands a null to the quoting
  function.  The printing methods ask that no such value is printed; an INSERT prints it as null, and full-row mode
  leaves it out of SET, both as modelled.
- Replaying an INSERT and a later change of its key leaves the row on the target twice, for good
  (`ThreadMishaps.RekeyDiverges`).  Convergence is proved for histories with fresh key changes: a key that a row is
  moved away from is never inserted, and a key that a row is moved to was not freed before (`Replay.FreshMoves`,
  part of `Replay.ValidHistory`).  Up to the first key change of a history this is exactly what a replay needs
  (`KeyChanges.FirstMoveExact`); behind that it is enough, and not always needed: whether an INSERT of the old key
  behind the change does harm depends on the updates before it (`KeyChanges.RefilledKey`).
- The apply thread passes over a duplicate key only while nothing has succeeded in its target transaction, and ends at
  any other.  It gets over a transaction if and only if every duplicate in it comes before any success
  (`ThreadStops.GetsOverIff`); one that it does not get over stops it again at every restart
  (`PipelineStops.StopsTheTarget`, `ThreadMishaps.LateDuplicateStops`).  Convergence speaks of the runs that read the log
  to its end.
- A feedback message whose sending fails has already moved the start position and drops the message in hand.  If
  that message is the COMMIT of a transaction not yet stored, and only then, a transaction can be acknowledged that is
  not in the log as a whole block (`FailedFeedback.FailureOutrunsIff`; all other failures are among the runs of
  `Receive.AckNeverOutrunsStorage`).  Where only its COMMIT row is missing (`Mishaps.FailedFeedbackOutruns`), no change
  is lost yet: its rows are held, and get into the log with the next transaction.  They are lost for good, with the
  server told to pass over them (`FailureLoss.LostForGood`), when the process ends after a row of the next transaction
  was reported that lies behind the commit record.  That can happen if and only if such a COMMIT is in hand and there
  is such a row (`FailureLoss.FailureLosesIff`, a run in `Mishaps.FailedFeedbackLoses`).
- A reconnect inside the process keeps an open local transaction open, and streams from the last reported position,
  not from the last stored one.  The log survives a reconnect if and only if it is clean (`ReceiveLog.CleanConnect`:
  nothing open, and the stream goes on at most one transaction before what was flushed and not behind the end of the
  log; `Reconnects.CleanConnectIff`).  After another one the log can skip a transaction (`Mishaps.ReconnectSkips`,
  `Mishaps.SkippedEffect`) or hold the beginning of one inside another, which makes the apply thread lose a row
  (`Mishaps.TornTransactionLosesRow`).
- The outcome of writing the position is not looked at; every lost write lets five more transactions lie above the
  durable position (`ApplyProofs.CheckpointWindow`).
- In the CSV stream a value with a backslash gets an `E` in front of its quote and does not read back
  (`CopyCsv.FieldBack`).  When the process is told to stop, rows are counted that were never sent (`CopyCsv.CopyRows`).
- Appending formatted text makes a refused request for ever when the buffer would pass its limit; it ends exactly when
  no request on the way is refused (`StringInfos.AppendsIff`).

## Reading the model

A byte is a `char`, a C string is the text before its NUL, an integer is unbounded except where bytes, shifts or
buffer sizes make its width matter; there the width is written out.  Values are compared as text, and a column goes by
its spelling.  The type parameters `K` and `V` of the protocol modules are keys and rows; `Databases.TextIsOp` makes
them pairs of a table and a key, and rows.
The server's promises are written down as the guards of its steps in `Receive.Enabled`, `Receive.Do` and
`Receive.CommitOrder`: transactions come in commit order, a keepalive names no position past a transaction still to
be sent, streaming starts no earlier than the confirmed position.  `dafny verify dfyconfig.toml` checks everything.

## Model

| member | source | states |
|---|---|---|
| Replay.Absorb | dbsync/pgsync.c:911-951 | running again any middle part of a valid log segment, key changes among it, leaves the whole segment able to bring the table to the source, on any table from which the keys that rows were moved away from are gone |
| Replay.Idempotent | dbsync/pgsync.c:911-951 | a valid segment with fresh key changes run again on its own result changes nothing |
| Replay.SettledRun | dbsync/utils.c:306-378 | a valid segment with its key changes made first is a valid segment without any, to the same end |
| KeyChanges.FirstMoveExact | dbsync/utils.c:306-378 | up to the first key change, no replay of a last part of the log changes its result if and only if the old key was not inserted and the new key not deleted in it |
| KeyChanges.RefilledKey | dbsync/utils.c:306-378 | behind a key change an INSERT of the old key does no harm to a replay, or does with an UPDATE before the change |
| ThreadStops.GetsOverIff | dbsync/pgsync.c:901-958 | the thread gets over a transaction if and only if every duplicate key in it comes before any statement has succeeded, and then commits it without the duplicates |
| ThreadStops.StopsForGood | dbsync/pgsync.c:952-957 | on a log as it stands, a transaction that it does not get over stops it: no restart moves the tables or the durable position |
| PipelineStops.StopsTheTarget | dbsync/pgsync.c:661-971 | in every run of both threads such a transaction stops it for ever, whatever is received meanwhile: the tables and the durable position stay as they are |
| ThreadStops.FixpointStays | dbsync/pgsync.c:847-971 | tables that no statement of a log changes stay as they are in every run on that log |
| ThreadMishaps.RekeyDiverges | dbsync/utils.c:306-378 | a run of the thread with a crash on an INSERT and a change of its key ends with the row there twice, and every run on that log from there keeps it so |
| ThreadMishaps.LateDuplicateStops | dbsync/pgsync.c:952-957 | after a crash behind an UPDATE and an INSERT in one transaction no run on that log gets any further |
| SyncLog.RowOf | dbsync/pgsync.c:744-781 | the log row a cursor stands on is the given row of the given transaction, never another |
| SyncLog.BelowSplits | dbsync/pgsync.c:867-877 | the cursor for id > apply_id starts exactly behind the last row whose id is not larger |
| ApplyThread.Target.PQexec | dbsync/pgsync.c:911-951 | session and status after one command: transaction block, failed block, duplicate key |
| ApplyThread.Applier.Fetched | dbsync/pgsync.c:889-971 | one round of the fetch loop is the specified step: classification, END and BEGIN on a duplicate first statement, commit counting; when it gives up the target's tables are unchanged |
| ApplyProofs.StepKeeps | dbsync/pgsync.c:847-971 | every step, crash and restart keeps the invariant: the target is ahead of the durable position and can be healed from it |
| ApplyProofs.GrowthKeeps | dbsync/pgsync.c:744-781 | so does every transaction that the receive thread adds to the log meanwhile |
| ApplyProofs.CheckpointWindow | dbsync/pgsync.c:847-856 | the durable position is 0 or a commit row's id, all below it is committed, at most five transactions are above it, and five more per lost position write |
| ApplyProofs.DurableMonotone | dbsync/pgsync.c:960-969 | no step takes the durable position back |
| ApplyProofs.SurvivorsDoTheWork | dbsync/pgsync.c:911-951 | the statements that were not passed over do to the target what all of them would |
| ApplyProofs.SwallowedDiscardsNothing | dbsync/pgsync.c:911-951 | whenever a duplicate key leads to END and BEGIN, the transaction that is rolled back holds no statement that succeeded |
| ApplyProofs.CommittedIsLogMinusSwallowed | dbsync/pgsync.c:911-971 | each committed target transaction is its log transaction minus exactly the statements passed over, and has the effect of all of it |
| ApplyProofs.Converged | dbsync/pgsync.c:847-971 | when the whole log has been read and ends with its furthest transaction, the target is the source after that transaction |
| ApplyLoop.FetchOne | dbsync/pgsync.c:886-970 | one round of the loop, with the write after five commits, is a run of the machine whose position writes are those that were tried; it gives up only at a row that the thread does not get over |
| ApplyLoop.DrainCursor | dbsync/pgsync.c:879-971 | the inner loop reads the cursor to its end, or gives up at a row that the thread does not get over; either way its states are a run of the machine and its position writes were all tried |
| ApplyLoop.Round | dbsync/pgsync.c:840-971 | one round of the outer loop starts behind the position and reads the whole log, or up to a row that the thread does not get over, as a run of the machine |
| ApplyLoop.TraceKeeps | dbsync/pgsync.c:840-971 | the invariant holds in every state of such a run |
| ApplyLoop.WrittenAtFifth | dbsync/pgsync.c:899-969 | in every run the position is written at the fifth commit since it was written last and not before, but at the end of the cursor; no row is fetched between that commit and the write |
| Receive.FirstFromSplits | dbsync/utils.c:1369-1371 | streaming from a position leaves out exactly the transactions whose commit lies before it |
| Receive.StepSafe | dbsync/pgsync.c:744-781 | every step keeps that what is acknowledged is stored, but for a failed feedback with an unstored COMMIT in hand |
| Receive.AckNeverOutrunsStorage | dbsync/pgsync.c:744-781 | in every run, with reconnects, restarts and failed feedback anywhere but with an unstored COMMIT in hand, a transaction that ends at or before an acknowledged position is stored whole |
| FailedFeedback.FailureOutrunsIff | dbsync/utils.c:1637-1643 | a failed feedback can be followed, without another failure, by the acknowledgement of a transaction whose block from BEGIN to COMMIT is not in the log if and only if an unstored COMMIT was in hand; a transaction with other statements has to follow |
| FailureLoss.FailureLosesIff | dbsync/utils.c:1637-1643 | it can be followed, without another failure, by a new process and a log without the rows of a transaction that the server has been told to pass over, if and only if the COMMIT in hand belongs to a transaction that the log does not hold and a message of the next one, not its COMMIT, lies behind the commit record |
| FailureLoss.LostForGood | dbsync/utils.c:1369-1371 | from then on no continuation, with failures and crashes, brings that transaction into the log |
| ReceivePlay.Deliver | dbsync/pgsync.c:741-781 | receiving and storing the rest of a transaction puts all that was held and its rows into the log |
| ReceiveLoop.StoreMessage | dbsync/pgsync.c:744-781 | BEGIN, INSERT of the text, flush position and END in this order make the specified store step of the session and the positions |
| ReceiveLoop.KnownIff | dbsync/pg_logicaldecode.c:46-80 | the handler takes exactly the actions of which the reader can read a message |
| ReceiveLoop.BracketsCarried | dbsync/utils.c:627-634 | BEGIN and COMMIT messages are logged as the texts by which the apply thread knows them |
| ReceiveLoop.Await | dbsync/pgsync.c:741-742 | whatever the server sends, waiting for a message makes rounds until one has come or something ends it; what they tell is a run of the protocol, there is one status message for each report, and what is returned is what the message at hand carries |
| ReceiveLoop.Round | dbsync/pgsync.c:710-789 | one round of the loop is a run of the protocol: the connection, what waiting told, and the store of the message that came or else the end of the connection |
| ReceiveLog.StepKeepsLog | dbsync/pgsync.c:744-788 | in every run with restarts and failed feedback anywhere and clean reconnects the log stays a sequence of whole source transactions that steps back but never skips |
| Reconnects.CleanConnectIff | dbsync/pgsync.c:783-788 | with more to come, every continuation of a reconnect keeps the log so if and only if the reconnect is clean |
| Reconnects.BeginInside | dbsync/pgsync.c:744-788 | a transaction stored behind the beginning of another leaves a log that is no sequence of whole transactions |
| ReceiveLog.FreshConnectIsClean | dbsync/pgsync.c:705-720 | the first connection of a process is always clean |
| ReceiveLog.ReportedConnectIsClean | dbsync/pgsync.c:736-741 | so is a reconnect between transactions when a report followed the last stored one |
| Mishaps.FailedFeedbackOutruns | dbsync/utils.c:1637-1643 | a run from the start with one failed feedback after which an acknowledged transaction is not in the log as a whole block |
| Mishaps.FailedFeedbackLoses | dbsync/utils.c:1637-1643 | a run from the start with one failed feedback that ends with a new process, the server behind a transaction, and none of its rows in the log |
| Mishaps.ReconnectSkips | dbsync/pgsync.c:783-788 | a run with a reconnect in the process and a restart after which the log skips a transaction |
| Mishaps.SkippedEffect | dbsync/pgsync.c:783-788 | applying that log leaves an old value on the target |
| Mishaps.TornTransactionLosesRow | dbsync/pgsync.c:783-788 | a run with a reconnect within a transaction, and a run of the apply thread on its log that reads it to the end and loses a row |
| Pipeline.PipeKeeps | dbsync/pgsync.c:661-971 | both threads, the server and crashes together keep the invariant |
| Pipeline.PipelineConverges | dbsync/pgsync.c:661-971 | in every run of both threads with any number of crashes, restarts, failed feedback and clean reconnects, once the log is read to its end the target is the source |
| Pipeline.PipelineWindow | dbsync/pgsync.c:960-969 | over whole runs the durable position never goes back and the checkpoint window holds |
| Handler.PositionRoundTrip | dbsync/utils.c:965-979 | every unsigned 64-bit position survives the signed two-half form |
| Handler.FeSendint64 | dbsync/utils.c:965-979 | eight bytes in place, most significant first, all other bytes unchanged |
| Handler.FeRecvint64 | dbsync/utils.c:1025-1042 | reads what the message reader reads from the same bytes |
| Handler.ServerReads | dbsync/utils.c:1068-1079 | the server finds the received, the flushed and the invalid applied position in the status message |
| Handler.DecoderHandler.SendFeedback | dbsync/utils.c:1048-1091 | puts a message with the positions on the connection exactly when forced or when the position moved; start and last position follow even when sending fails |
| Handler.DecoderHandler.Keepalive | dbsync/utils.c:1548-1590 | the received position moves forward only; a keepalive with its reply byte set is followed by a status message, or a failure to send it, that says the positions then; one that is too short moves the position by whatever is read and is refused |
| Handler.DecoderHandler.Message | dbsync/utils.c:1591-1645 | short headers and unknown actions are refused; the position becomes the later of the header's; five seconds after the last report there is another one; a failed report drops the message |
| Handler.DecoderHandler.ExecLogicalDecoder | dbsync/utils.c:1402-1661 | over any arrivals and clock: which rounds are made and what each of them tells, until nothing more arrives or one of them is the end; the positions move by these events alone; on the connection there is one message for each report, with the positions at that event and no request to answer, and none besides; a message that the reader knows is returned unless a report fails behind it, and nothing else is |
| Handler.HeaderLsnIs | dbsync/utils.c:1612-1620 | the position of a message is one of the two in its header, and the other is no later |
| BigEndian.RoundTrip8 | dbsync/pqformat.c:278-292 | every signed 64-bit value written in two halves is read back |
| BigEndian.RoundTripBytes8 | dbsync/pqformat.c:497-514 | every eight bytes read as a number are written back |
| BigEndian.RoundTrip4 | dbsync/pqformat.c:243-270 | four bytes hold a number modulo 2^32 |
| BigEndian.BytesMean | dbsync/pqformat.c:497-514 | the first of eight bytes is the most significant, and its upper half makes the number negative |
| LsnText.PgLsnIn | dbsync/utils.c:1831-1864 | the loops compute the value of a well-formed position and 0 for any other text |
| LsnText.LsnRoundTrip | dbsync/utils.c:1831-1864 | the text of any 64-bit position parses back to it |
| LsnText.CaseIgnored | dbsync/utils.c:1831-1864 | the case of the digits does not matter |
| LsnText.HalvesValue | dbsync/utils.c:1831-1864 | of two runs of digits each has one to eight of them, or the value is 0 |
| StringInfos.StringInfo.Enlarge | dbsync/stringinfo.c:230-277 | content kept; refused requests change nothing; otherwise there is room for the request and its NUL, the size doubles or is clamped, without overflow |
| StringInfos.StringInfo.AppendBinary | dbsync/stringinfo.c:193-213 | content is the old content and the bytes, NUL behind it |
| StringInfos.StringInfo.AppendChar | dbsync/stringinfo.c:154-166 | content is the old content and the character |
| StringInfos.StringInfo.AppendSpaces | dbsync/stringinfo.c:172-187 | content is the old content and that many blanks, none for a count that is not positive |
| StringInfos.StringInfo.AppendFormatted | dbsync/stringinfo.c:99-135 | fits, or leaves the visible string and names the room to ask for |
| StringInfos.StringInfo.AppendFormat | dbsync/stringinfo.c:63-84 | ends after at most three rounds with the text appended, for every text for which it ends at all |
| StringInfos.AppendsIff | dbsync/stringinfo.c:63-84 | some round succeeds if and only if no request on the way is refused |
| StringInfos.Pvsnprintf | dbsync/misc.c:500-586 | below the buffer size exactly when the text and its NUL fit with one to spare, else the size to try next |
| StringInfos.Psprintf | dbsync/misc.c:442-470 | ends after at most two rounds with the text |
| WireWriter.WriteCell | ali_decoding/ali_decoding.c:377-420 | appends the bytes of one attribute: null or dropped, unchanged toast, or text |
| WireWriter.WriteTuple | ali_decoding/ali_decoding.c:361-422 | appends the bytes of the whole tuple |
| WireWriter.WriteColumnInfo | ali_decoding/ali_decoding.c:425-534 | appends column names and types, dropped ones as length 0, then the keys |
| WireWriter.WriteKeys | ali_decoding/ali_decoding.c:478-534 | appends the identity columns, or a marker that there are none |
| WireWriter.WriteRel | ali_decoding/ali_decoding.c:329-358 | appends schema, name and what the options ask for |
| WireWriter.WriteBegin | ali_decoding/ali_decoding.c:199-238 | appends the bytes of BEGIN |
| WireWriter.WriteCommit | ali_decoding/ali_decoding.c:241-266 | appends the bytes of COMMIT |
| WireWriter.WriteChange | ali_decoding/ali_decoding.c:269-326 | appends the bytes of a change of any of the three kinds |
| Wire.CellRoundTrip | ali_decoding/ali_decoding.c:377-420 | any attribute in front of any rest is read back and the rest left |
| Wire.TupleRoundTrip | dbsync/pg_logicaldecode.c:369-456 | any tuple, with dropped, null and unchanged values, is read back |
| Wire.ColumnInfoRoundTrip | dbsync/pg_logicaldecode.c:254-315 | column names, types, dropped columns and keys are read back |
| Wire.RelRoundTrip | dbsync/pg_logicaldecode.c:149-175 | names and column information are read back, or their absence recognised |
| Wire.WireRoundTrip | dbsync/pg_logicaldecode.c:46-80 | every message that can be sent decodes to what was sent and leaves no byte over |
| Wire.EncodingInjective | ali_decoding/ali_decoding.c:199-534 | messages with equal bytes carry equal content |
| Wire.ChangeArrives | ali_decoding/ali_decoding.c:269-534 | with all options on, what arrives of a change: names, columns, the identity with an update or a delete and no keys with an insert, the old tuple if there is one, all values but those of dropped columns |
| WireReader.Cursor.PqGetMsgBytes | dbsync/pqformat.c:562-577 | the next bytes, or nothing and no move when there are not enough |
| WireReader.Cursor.PqGetMsgInt64 | dbsync/pqformat.c:498-514 | the two halves make the number the format means |
| WireReader.ReadCell | dbsync/pg_logicaldecode.c:393-452 | fills one attribute with what the bytes mean and touches no other |
| WireReader.ReadTupleParts | dbsync/pg_logicaldecode.c:369-456 | fills the tuple with what the bytes mean and moves behind it |
| WireReader.ReadColumns | dbsync/pg_logicaldecode.c:261-286 | fills names and types, dropped columns keeping none |
| WireReader.DecodeMessage.ProcessReadColumnInfo | dbsync/pg_logicaldecode.c:254-315 | fills columns and keys with what the bytes mean |
| WireReader.DecodeMessage.ProcessRemoteBegin | dbsync/pg_logicaldecode.c:84-105 | the message is the BEGIN that was sent |
| WireReader.DecodeMessage.ProcessRemoteCommit | dbsync/pg_logicaldecode.c:115-142 | the message is the COMMIT that was sent |
| WireReader.DecodeMessage.ProcessRemoteInsert | dbsync/pg_logicaldecode.c:144-185 | the message is the INSERT that was sent |
| WireReader.DecodeMessage.ProcessRemoteUpdate | dbsync/pg_logicaldecode.c:188-251 | the message is the UPDATE that was sent, with or without the old tuple |
| WireReader.DecodeMessage.ProcessRemoteDelete | dbsync/pg_logicaldecode.c:318-366 | the message is the DELETE that was sent, with or without the old tuple |
| WireReader.DecodeMessage.BdrProcessRemoteAction | dbsync/pg_logicaldecode.c:46-80 | the message is the one that was sent and the cursor stands behind it |
| Literals.QuoteLiteralInternal | dbsync/misc.c:134-158 | writes the quoted form within twice the length plus three and nothing behind it |
| Literals.CopyDoubled | dbsync/misc.c:148-155 | copies with every quote and backslash doubled, in place |
| Literals.QuotedLexesBack | dbsync/misc.c:134-158 | whatever the string holds, the lexer reads it back and stops behind it |
| Literals.BareLexesBack | dbsync/utils.c:1729-1735 | text between quotes as it is reads back exactly when it holds no quote |
| Literals.NumberLexesBack | dbsync/utils.c:1709-1713 | bare text reads back as a number exactly when it is a numeral |
| SqlRoundTrip.ValueBackIff | dbsync/utils.c:1685-1749 | a printed value reads back exactly when it is printable for its type; NaN in a numeric column is not |
| SqlRoundTrip.NumberTypes | dbsync/utils.c:1685-1713 | the values of the seven number types are printed as they are; integers read back, NaN and the infinities do not |
| SqlRoundTrip.DateTypes | dbsync/utils.c:1715-1735 | the values of the six date types and of money read back exactly when they hold no quote |
| SqlRoundTrip.OtherTypes | dbsync/utils.c:1737-1749 | the values of all other types read back, whatever they hold |
| SqlRoundTrip.TextRoundTrip | dbsync/utils.c:613-669 | the text of a statement with printable values reads back as what was meant, or not at all when SET, WHERE or the column list is empty or the list ends in a comma |
| SqlTextExact.TextRoundTripIff | dbsync/utils.c:613-669 | whatever the values are, the text reads back as what was meant if and only if it has those parts and every value is printable |
| SqlRoundTrip.NotABracket | dbsync/pgsync.c:894-901 | no statement on a row is taken for `begin;` or `commit;` |
| SqlGen.QuoteLiteralLocal | dbsync/utils.c:1685-1749 | appends the value in the form its type needs, inside the scratch buffer's bounds |
| SqlGen.IsKeyColumn | dbsync/utils.c:1782-1802 | true exactly for a name in the key list |
| SqlGen.AppendValues | dbsync/utils.c:1805-1824 | appends column = value and tells a null |
| SqlGen.AppendKeyConditions | dbsync/utils.c:217-247 | the loop appends the conditions of the key columns, or of all live columns without a key, in order |
| SqlGen.AppendSetItems | dbsync/utils.c:571-600 | the loop appends the assignments of the columns outside the key, or of all, in order |
| SqlGen.Compare | dbsync/utils.c:429-490 | an attribute counts as changed exactly as the table of cases says |
| SqlGen.CompareAll | dbsync/utils.c:421-491 | the change array is the diff of the two rows |
| SqlGen.AppendChanges | dbsync/utils.c:494-515 | the loop appends the assignments of the changed columns only |
| SqlGen.AppendUpdateStatementFullRow | dbsync/utils.c:381-524 | appends SET of the diff and WHERE of the old row |
| SqlGen.AppendUpdateStatementKeyChange | dbsync/utils.c:306-378 | appends SET of all new values and WHERE of the old key |
| SqlGen.AppendUpdateStatementKeyNotChange | dbsync/utils.c:528-610 | appends SET of the columns outside the key and WHERE of the new tuple's key |
| SqlGen.AppendUpdateStatement | dbsync/utils.c:251-303 | picks the mode by keys and old tuple; without either it appends nothing |
| SqlGen.AppendInsertColname | dbsync/utils.c:149-168 | appends the live names; the comma behind the last of them stays when the last attribute is dropped |
| SqlGen.AppendInsertValues | dbsync/utils.c:171-208 | appends the live values, null for null and for unchanged toast |
| SqlGen.AppendDeleteWhereStatement | dbsync/utils.c:211-248 | appends the WHERE of a DELETE |
| SqlGen.CheckTuple | dbsync/utils.c:119-146 | refuses exactly the messages without the tuple their kind needs |
| SqlGen.OutPutTupleToSql | dbsync/utils.c:613-669 | the text appended is that of the decoded message, and the return code tells a refused one |
| SqlMeaning.ItemsHold | dbsync/utils.c:1805-1824 | under three-valued logic the printed conditions are true exactly of rows with those values, none of them null |
| SqlMeaning.ItemsSet | dbsync/utils.c:1805-1824 | the printed assignments set those columns and no other |
| SqlMeaning.InsertsRow | dbsync/utils.c:149-208 | column list and value list have equal length and make the row of the tuple |
| ChangeMeaning.InsertAddsRow | dbsync/utils.c:636-641 | an INSERT adds the row of its tuple unless the key is taken; unchanged toast becomes null |
| ChangeMeaning.KeyUnchangedUpdate | dbsync/utils.c:528-610 | with one row per key, the row with that key becomes the new row and all others stay |
| ChangeMeaning.KeyChangedUpdate | dbsync/utils.c:306-378 | the row with the old key becomes the new row and all others stay, unless the new key is taken |
| ChangeMeaning.KeyedDelete | dbsync/utils.c:211-248 | the row with the key goes and all others stay |
| ChangeMeaning.MissingKey | dbsync/utils.c:211-610 | when no row has the key the statements change nothing |
| ChangeMeaning.StatementColumns | dbsync/utils.c:211-610 | WHERE names the columns of the key, or all without one; SET names those outside the key, all when the old key was sent, or without a key those whose value has changed |
| ChangeMeaning.FullRowUpdate | dbsync/utils.c:381-524 | every row equal to the old one becomes the new one, unchanged toast meaning the old value; it is the source's change exactly when the old row has no null and is there once |
| ChangeMeaning.FullRowDelete | dbsync/utils.c:211-248 | every equal row goes, none with a null; it is the source's change exactly when the old row has no null and is there once |
| EndToEnd.StatementReadsIff | dbsync/utils.c:613-669 | the text of a change reads back as its statement if and only if there is a column to set and to find the row by, for an INSERT the last attribute is live, and every printed value is printable |
| EndToEnd.NamesOwnTableIff | dbsync/utils.c:613-669 | whatever the names of schema and relation are, the text of a change is a statement on its own table if and only if both denote themselves without quotes |
| EndToEnd.FoldedTarget | ali_decoding/ali_decoding.c:331-343 | with capital letters in them it is a statement on the table called the same in small letters |
| ColumnSpelling.SpellingDenotes | ali_decoding/ali_decoding.c:457-457 | the spelling of any column name is one identifier and denotes that column |
| ColumnSpelling.IdentityFoundIff | dbsync/utils.c:1782-1802 | the identifying columns of a statement are those of the identity if and only if none of their names needs quotes |
| ColumnSpelling.DeletesWellIff | dbsync/utils.c:211-248 | on every table, every DELETE takes out the row with its key and no other if and only if no name in the identity needs quotes |
| NameMishaps.OrdersRun | dbsync/utils.c:636-669 | bytes, decoding, text and parsing of a delete on Orders take a row from orders and leave Orders as it was |
| NameMishaps.NoSuchTableStops | dbsync/pgsync.c:952-957 | without a table in small letters the thread ends at the change |
| NameMishaps.RawKeyRun | dbsync/utils.c:211-248 | with an identity column that needs quotes, the text of a delete of one row deletes two |
| EndToEnd.KeyedChangeReachesTarget | ali_decoding/ali_decoding.c:269-534 | for names that denote themselves, bytes, decoding, text, parsing and execution together do to a copy of the table what the change did to the original, for every change of a relation with a key that can be said in SQL |
| EndToEnd.FullRowUpdateReachesTarget | dbsync/utils.c:381-524 | the same through all stages without a key: a statement exactly when the row changed, and the source's effect exactly when the old row has no null and is there once |
| EndToEnd.FullRowDeleteReachesTarget | dbsync/utils.c:211-248 | the same for a delete without a key |
| KeyedTables.StatementIsOp | dbsync/pgsync.c:904-951 | on any table, whatever it holds, the statement of a keyed change has the outcome of its operation on the table's map |
| Translation.Translate | dbsync/pgsync.c:744-760 | received bytes become the text of the message that was sent, and its kind |
| Databases.TextIsOp | dbsync/pgsync.c:908-910 | on any database, whatever its tables hold, the text of a keyed change, whose names denote themselves, runs on its own table and has the outcome of its operation on the map of all tables |
| Databases.FoldedRuns | dbsync/pgsync.c:908-910 | with capital letters in a name it runs on the table called the same in small letters, or is an error, and leaves its own table as it was |
| TextThread.StepSame | dbsync/pgsync.c:847-971 | a step of the thread on texts and rows is a step of the abstract thread on operations and maps |
| TextPipeline.TextsConverge | dbsync/pgsync.c:661-971 | in every run of both threads on texts and rows, once the log is read to its end, every table of the target holds what the source's table held |
| TextPipeline.SameRows | dbsync/pgsync.c:661-971 | that is, the same rows in every table |
| CopyQueue.ThreadHd.constructor | dbsync/pgsync.c:415-437 | the list holds all tables in order and its length |
| CopyQueue.ThreadHd.Take | dbsync/pgsync.c:110-132 | hands out the first task and keeps the rest, or null when none is left |
| CopyQueue.TakeTask | dbsync/pgsync.c:110-137 | the linked list does what the step of the machine does |
| CopyQueue.StepKeeps | dbsync/pgsync.c:107-228 | every interleaving keeps: length, order, owners, one holder per task, row sums |
| CopyQueue.HandedOnce | dbsync/pgsync.c:110-132 | in no run is a table handed to two threads |
| CopyQueue.HeldByOne | dbsync/pgsync.c:134-228 | no two threads hold the same table |
| CopyQueue.LeftBehind | dbsync/pgsync.c:134-228 | once a thread has ended well all tasks were taken; when all have ended the incomplete ones are no more than the failed threads |
| CopyQueue.CompleteIff | dbsync/pgsync.c:134-228 | in every run a task is complete exactly when the thread that was copying it has finished it |
| CopyQueue.CountIs | dbsync/pgsync.c:134-228 | the number of a task is that of the rows counted for it |
| CopyQueue.LeftBehindExactly | dbsync/pgsync.c:134-228 | when all threads have ended and one of them well, as many tasks are incomplete as threads failed while they were copying |
| CopyQueue.Tally | dbsync/pgsync.c:485-500 | the final loops compute the rows of the threads that ended well, the rows of the tasks, and whether any failed |
| CopyQueue.TalliesAgree | dbsync/pgsync.c:485-502 | when all have ended, thread rows are task rows, and the two printed numbers are equal exactly when no failed thread had copied a row |
| CopyQueue.NoErrorAllCopied | dbsync/pgsync.c:490-506 | without an error every table is complete and the numbers agree |
| CopyCsv.QuoteLiteralLocalWithoid | dbsync/mysql2pgsql.c:711-772 | appends the field in the form its type needs, a zero date as nothing |
| CopyCsv.AppendRow | dbsync/mysql2pgsql.c:618-634 | appends one row with its delimiters and newline |
| CopyCsv.CopyRows | dbsync/mysql2pgsql.c:614-663 | whatever the buffer size the pieces sent make up the rows, or a beginning of them when sending fails or behind the row where the process is told to stop; nothing else ends the loop early |
| CopyCsv.FieldBack | dbsync/mysql2pgsql.c:711-772 | a field reads back exactly when it is readable: no backslash in quoted ones, nothing special in bare ones |
| CopyCsv.TimestampArrives | dbsync/mysql2pgsql.c:730-741 | a timestamp arrives as it is, but for the four zero dates, which arrive as nulls |
| CopyCsv.OthersArrive | dbsync/mysql2pgsql.c:711-772 | a number arrives as it is, any other value exactly when it holds no backslash, a null as a null |
| CopyCsv.CsvRoundTrip | dbsync/mysql2pgsql.c:587-663 | reading the stream gives the rows back, null apart from the empty string, zero dates as null |
| Ini.SplitKeyIs | dbsync/ini.c:104-146 | splitting the line of an entry, with any blanks in front of and behind its parts and the value in quotes or not, leaves its key, its value without escapes and NULs; without a value nothing |
| Ini.LinesSplit | dbsync/ini.c:79-150 | splitting a document splits each of its lines: headers, entries, comments, empty lines and lines without an equals sign, with any blanks |
| Ini.LookupAgrees | dbsync/ini.c:205-234 | however a document is laid out, with or without a newline at its end, splitting it and looking up is looking up in the list of sections, ignoring case, first match first |
| Ini.SameNameIff | dbsync/ini.c:17-25 | two names are the same exactly when they differ in nothing but the case of the letters A to Z |
| Ini.QuotedEndsAt | dbsync/ini.c:49-75 | a value in quotes ends at a quote, at a newline or a carriage return, or with the text |
| Ini.EscapesAre | dbsync/ini.c:49-75 | in quotes a backslash makes newline, carriage return and tab of n, r and t, and any other character stands for itself |
| IniFile.IniT.UnescapeQuotedValue | dbsync/ini.c:49-75 | unescapes in place, the write head behind the read head, nothing else touched |
| IniFile.IniT.TrimBack | dbsync/ini.c:36-40 | blanks at the end become NULs, nothing else is touched |
| IniFile.IniT.DiscardLine | dbsync/ini.c:42-47 | the line becomes NULs up to its newline |
| IniFile.IniT.SplitLineAt | dbsync/ini.c:104-146 | one line of key and value is split as specified, all accesses in the buffer |
| IniFile.IniT.SplitData | dbsync/ini.c:79-150 | the whole buffer is split in place as specified, for any text |
| IniFile.IniT.NextString | dbsync/ini.c:28-34 | moves to the next string |
| IniFile.IniT.IniGet | dbsync/ini.c:205-234 | finds the value the specification finds |
| IniFile.Strcmpci | dbsync/ini.c:17-25 | zero exactly for names equal but for case |
| IniFile.LoadAndGet | dbsync/ini.c:152-234 | a document with whatever layout, loaded and looked up, gives the first matching entry |

## Left out

- WireReader.Cursor.PqGetMsgInt: what a short message leaves undefined in the original is any value here; pq_copymsgbytes is folded into it.
- WireReader.DecodeMessage.BdrProcessRemoteAction: asks for bytes that the plugin produced; what other bytes do is not modelled.
- WireWriter.WriteColumnInfo: catalog lookups are inputs, and column names without type names cannot be decoded, so the round trip asks for both options or neither.
- WireWriter.WriteTuple: the buffer is not enlarged ahead of time as the plugin does; that changes when it grows, not what it holds.
- StringInfos.StringInfo.Enlarge: a refused request leaves callers without room in the original; the appending methods ask that their request is within the limit.
- SqlGen.AppendUpdateStatementFullRow: the note of unchanged-toast old values is dropped, because it could only be made after printing a value that has no text.
- ChangeMeaning.KeyUnchangedUpdate: asks that the new tuple holds no unchanged-toast value, which key modes cannot print; ChangeMeaning.KeyChangedUpdate does too.
- FailedFeedback.FailureOutrunsIff: a transaction counts as stored when a block with its statements is in the log, so the transaction that follows the dropped one has to have other statements.
- Pipeline.PipelineConverges: histories whose key changes are not fresh are out, and which of those replay well anyway is known only up to the first key change; TextPipeline.TextsConverge asks the same.
- Pipeline.PipelineWindow: the copy at the start is taken to be the source at the slot's position; the slot's snapshot is not handed to the copying threads, so nothing better holds.
- TextPipeline.TextsConverge: is about keyed tables whose changes can be said in SQL and whose names denote themselves without quotes; an empty text in the log, from a relation without a replica identity, would stop the apply thread, and the live columns of a table keep their names.
- Handler.DecoderHandler.ExecLogicalDecoder: select and its timeouts are outcomes of the environment, the clock is an input, and a request to stop is the end of what arrives; a zero-length receive is a quiet round; a report whose sending fails puts nothing on the connection.
- ReceiveLoop.Round: a local statement that fails ends the process in the original; that is a restart of the protocol and not part of a round.
- KeyedTables.StatementIsOp: unique constraints other than the key, triggers and column types on the target are not modelled; equality is equality of the printed values.
- SqlRoundTrip.TextRoundTrip: only the part of SQL that the program prints is parsed, with standard_conforming_strings on; table aliases, comments, Unicode escapes in names and the cut of long names at 63 bytes are not modelled.
- EndToEnd.NamesOwnTableIff: letters outside ASCII are folded by no multi-byte encoding and are not folded here; the reserved words are those of PostgreSQL 9.4 to 9.6.
- CopyQueue.StepKeeps: the copying of one table is its rows, its end or its failure; the MySQL path's counter, which overwrites instead of adding, is not modelled.
- CopyCsv.CsvRoundTrip: the query text, the column types of MySQL and the target's end-of-data marker are not modelled.
- IniFile.LoadAndGet: reading the file itself and the conversion of values by a scan format are not modelled.
- libpq, MySQL client calls, sockets, connection set-up, slot creation, signal handling, log output and option parsing are not modelled.
- The table list file, the DDL printed for MySQL tables, and the formatted dump of decoded messages are not modelled: they carry no deep property.
